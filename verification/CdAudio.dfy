// CD audio as a state machine: the drive feeds raw sectors into the sound
// chip's queue, the mixer takes one stereo frame at a time out of it.
module CdAudio {
  import opened CdStream
  import opened Multiples
  import opened Words

  const RAW_BYTES: nat := 2352
  const RING: nat := 35280
  const REPEAT_FOREVER: nat := 15

  type RawSector = s: seq<U8> | |s| == 2352 witness seq(2352, i => 0)

  // `disc_read_raw` for one logical block.
  datatype RawRead = NoAudio | Raw(data: RawSector)
  type AudioDisc = nat -> RawRead

  datatype Frame = Frame(left: int, right: int)

  // ------------------------------------------------------------ the queue

  // The bytes waiting for the mixer, oldest first.
  datatype Queue = Queue(held: seq<U8>, ready: bool)

  predicate Fits(q: Queue) { |q.held| < RING && |q.held| % 4 == 0 }

  datatype Pushed = Pushed(queue: Queue, fill: nat)

  function Push(q: Queue, raw: RawSector): (r: Pushed)
    requires Fits(q)
    ensures Fits(r.queue)
    ensures r.fill == 3 <==> r.queue == q
    ensures r.fill == 3 <==> |q.held| + 2352 >= 35280
    ensures r.fill < 3 ==> r.queue == Queue(q.held + raw, q.ready || |q.held| >= 7056)
  {
    if |q.held| + RAW_BYTES >= RING then Pushed(q, 3)
    else
      var held := q.held + raw;
      Pushed(Queue(held, q.ready || |held| >= 4 * RAW_BYTES), |held| * 3 / RING)
  }

  // A signed 16-bit sample, low byte first.
  function Sample(low: int, high: int): int {
    var v := low + 256 * high;
    if v >= 0x8000 then v - 0x1_0000 else v
  }

  function FrameOf(b: seq<U8>): Frame
    requires |b| >= 4
  {
    Frame(Sample(b[0], b[1]), Sample(b[2], b[3]))
  }

  // What one output sample does: nothing, a frame, or an underrun.
  datatype Drained = Drained(queue: Queue, frames: seq<Frame>)

  function Drain(q: Queue): (r: Drained)
    requires Fits(q)
    ensures Fits(r.queue)
  {
    if !q.ready then Drained(q, [])
    else if q.held == [] then Drained(q.(ready := false), [])
    else Drained(q.(held := q.held[4..]), [FrameOf(q.held)])
  }

  // ------------------------------------------------------------ the drive

  // A sector handed over at machine time `clk`; the drive had it due at `due`.
  datatype Sent = Sent(fad: nat, clk: nat, due: nat)

  // `passes`, `log` and `out` record the run since the play was commanded.
  datatype Player = Player(
    fad: nat, playing: bool, cddaPlay: bool, playEnd: nat, limit: nat, count: nat,
    nextCy: nat, loopStart: nat, queue: Queue, passes: nat, log: seq<Sent>, out: seq<Frame>)

  function Stopped(d: Player): Player { d.(cddaPlay := false, playing := false) }

  datatype Round = Round(player: Player, done: bool)

  // One round of the feeding loop.
  function FeedOne(disc: AudioDisc, d: Player, clk: nat): (r: Round)
    requires Fits(d.queue)
    ensures Fits(r.player.queue)
  {
    if d.playEnd != 0 && d.fad >= d.playEnd then
      if d.limit == REPEAT_FOREVER || d.count < d.limit then
        Round(d.(fad := d.loopStart, count := if d.count < REPEAT_FOREVER then d.count + 1 else d.count,
                passes := d.passes + 1), false)
      else Round(Stopped(d), true)
    else
      match disc(LbaOf(d.fad))
      case NoAudio => Round(Stopped(d), true)
      case Raw(data) =>
        var r := Push(d.queue, data);
        if r.fill >= 3 then
          Round(d.(queue := r.queue, nextCy := if clk > 0 then clk + SECTOR_CYCLES else d.nextCy), true)
        else
          var next := d.nextCy + SECTOR_CYCLES;
          Round(d.(queue := r.queue, fad := d.fad + 1, nextCy := next, log := d.log + [Sent(d.fad, clk, d.nextCy)]),
               (clk > 0 && clk < next) || r.fill >= 2)
  }

  function Feed(disc: AudioDisc, t: Round, clk: nat, n: nat): (r: Round)
    requires Fits(t.player.queue)
    ensures Fits(r.player.queue)
    decreases n
  {
    if n == 0 || t.done then t else Feed(disc, FeedOne(disc, t.player, clk), clk, n - 1)
  }

  // The first tick of a play takes the clock and the place to come back to.
  function Latched(d: Player, clk: nat): Player {
    if d.nextCy == 0 then d.(nextCy := clk, loopStart := d.fad) else d
  }

  function AudioTick(disc: AudioDisc, d: Player, clk: nat): (r: Player)
    requires Fits(d.queue)
    ensures Fits(r.queue)
  {
    if !d.cddaPlay || !d.playing then d.(nextCy := 0)
    else if clk > 0 && clk < Latched(d, clk).nextCy then Latched(d, clk)
    else Feed(disc, Round(Latched(d, clk), false), clk, SECTORS_PER_TICK).player
  }

  function Mixed(d: Player): (r: Player)
    requires Fits(d.queue)
    ensures Fits(r.queue)
  {
    var r := Drain(d.queue);
    d.(queue := r.queue, out := d.out + r.frames)
  }

  datatype AudioStep = ClockTick(clk: nat) | Mix

  function NextAudio(disc: AudioDisc, d: Player, s: AudioStep): (r: Player)
    requires Fits(d.queue)
    ensures Fits(r.queue)
  {
    match s
    case ClockTick(clk) => AudioTick(disc, d, clk)
    case Mix => Mixed(d)
  }

  function RunAudio(disc: AudioDisc, d: Player, steps: seq<AudioStep>): (r: Player)
    requires Fits(d.queue)
    ensures Fits(r.queue)
    decreases |steps|
  {
    if steps == [] then d else RunAudio(disc, NextAudio(disc, d, steps[0]), steps[1..])
  }

  // A PlayDisc of `want` audio sectors, with the play mode's repeat count.
  function Commanded(d: Player, startLba: nat, want: nat, limit: nat): Player {
    d.(fad := startLba + FAD_BASE, playing := true, cddaPlay := true, playEnd := startLba + FAD_BASE + want,
       limit := limit, count := 0, passes := 0, log := [], out := [])
  }

  // ------------------------------------------------- what the mixer hears

  // The frames of a byte string, by its end.
  function Frames(b: seq<U8>): (r: seq<Frame>)
    ensures |r| == |b| / 4
    decreases |b|
  {
    if |b| < 4 then [] else [FrameOf(b)] + Frames(b[4..])
  }

  lemma {:induction false} FramesConcat(a: seq<U8>, b: seq<U8>)
    requires |a| % 4 == 0
    ensures Frames(a + b) == Frames(a) + Frames(b)
    decreases |a|
  {
    if a == [] {
      assert a + b == b;
    } else {
      assert (a + b)[4..] == a[4..] + b;
      FramesConcat(a[4..], b);
    }
  }

  // The disc's audio, sector by sector, in the order of the log.
  function SentBytes(disc: AudioDisc, log: seq<Sent>): (r: seq<U8>)
    decreases |log|
  {
    if log == [] then [] else
    SentBytes(disc, log[..|log| - 1]) +
    match disc(LbaOf(log[|log| - 1].fad))
      case NoAudio => []
      case Raw(data) => data
  }

  lemma {:induction false} SentWhole(disc: AudioDisc, log: seq<Sent>)
    ensures |SentBytes(disc, log)| % 4 == 0
  {
    if log != [] {
      SentWhole(disc, log[..|log| - 1]);
    }
  }

  lemma SentAppend(disc: AudioDisc, log: seq<Sent>, s: Sent, data: RawSector)
    requires disc(LbaOf(s.fad)) == Raw(data)
    ensures SentBytes(disc, log + [s]) == SentBytes(disc, log) + data
  {
    assert (log + [s])[..|log|] == log;
  }

  // Everything the mixer has taken, followed by everything that still waits,
  // is what waited at first followed by the sectors sent since.
  ghost predicate Heard(disc: AudioDisc, d: Player, before: seq<U8>) {
    d.out + Frames(d.queue.held) == Frames(before + SentBytes(disc, d.log))
  }

  // ---------------------------------------------------------- invariants

  // Where the k-th sector of a range played over and over comes from, and how
  // many sectors `passes` whole passes and `r` more are.
  function Spot(start: nat, end: nat, k: nat): nat
    requires start < end
  {
    start + k % (end - start)
  }

  function Count(passes: nat, len: nat, r: nat): nat { passes * len + r }

  lemma CountSpot(start: nat, end: nat, passes: nat, r: nat)
    requires start < end && r < end - start
    ensures Spot(start, end, Count(passes, end - start, r)) == start + r
  {
    RemainderIs(Count(passes, end - start, r), passes, r, end - start);
  }

  lemma CountSteps(passes: nat, len: nat, r: nat)
    ensures Count(passes + 1, len, 0) == Count(passes, len, len)
    ensures Count(passes, len, r + 1) == Count(passes, len, r) + 1
    ensures Count(0, len, r) == r
  {
  }

  // The k-th sector sent is the k-th of the range played over and over; a play
  // with repeat count r goes over it at most r + 1 times.
  ghost predicate InRange(disc: AudioDisc, d: Player, start: nat, end: nat) {
    && d.limit <= 15 && start < end == d.playEnd && start <= d.fad <= end
    && |d.log| == Count(d.passes, end - start, d.fad - start)
    && d.count == (if d.passes < 15 then d.passes else 15)
    && (d.limit != 15 ==> d.passes <= d.limit)
    && (d.playing && d.cddaPlay ==> if d.nextCy == 0 then d.log == [] && d.fad == start else d.loopStart == start)
    && forall k | 0 <= k < |d.log| ::
         d.log[k].fad == Spot(start, end, k) && disc(LbaOf(d.log[k].fad)).Raw?
  }

  // A stopped player has used up its repeats or met a sector without audio.
  predicate Ends(disc: AudioDisc, d: Player, end: nat) {
    if d.playing && d.cddaPlay then true
    else (d.fad == end && d.limit != 15 && d.passes == d.limit) || disc(LbaOf(d.fad)).NoAudio?
  }

  // The machine time before which the k-th sector may not be sent.
  function Deadline(first: nat, k: nat): nat { first + k * 381818 }

  ghost predicate Paced(d: Player, first: nat) {
    && (d.playing && d.cddaPlay ==> d.nextCy >= Deadline(first, |d.log|))
    && forall k | 0 <= k < |d.log| :: d.log[k].clk >= Deadline(first, k)
  }

  lemma FeedOneInRange(disc: AudioDisc, d: Player, clk: nat, start: nat, end: nat)
    requires Fits(d.queue) && InRange(disc, d, start, end) && d.loopStart == start && d.playing && d.cddaPlay
    ensures var r := FeedOne(disc, d, clk);
            && InRange(disc, r.player, start, end) && r.player.loopStart == start && Ends(disc, r.player, end)
            && (r.done || (r.player.playing && r.player.cddaPlay))
  {
    hide Spot, Count;
    var len := end - start;
    CountSteps(d.passes, len, d.fad - start);
    if d.fad < end {
      CountSpot(start, end, d.passes, d.fad - start);
    }
  }

  lemma FramesGrow(out: seq<Frame>, held: seq<U8>, whole: seq<U8>, data: seq<U8>)
    requires |held| % 4 == |whole| % 4 == 0 && out + Frames(held) == Frames(whole)
    ensures out + Frames(held + data) == Frames(whole + data)
  {
    hide Frames;
    FramesConcat(whole, data);
    FramesConcat(held, data);
    assert out + (Frames(held) + Frames(data)) == (out + Frames(held)) + Frames(data);
  }

  lemma FeedOneHeard(disc: AudioDisc, d: Player, clk: nat, before: seq<U8>)
    requires Fits(d.queue) && Heard(disc, d, before) && |before| % 4 == 0
    ensures Heard(disc, FeedOne(disc, d, clk).player, before)
  {
    hide Frames, SentBytes;
    var r := FeedOne(disc, d, clk).player;
    if |r.log| > |d.log| {
      var s, data := Sent(d.fad, clk, d.nextCy), disc(LbaOf(d.fad)).data;
      assert r.log == d.log + [s] && r.queue.held == d.queue.held + data && r.out == d.out;
      SentAppend(disc, d.log, s, data);
      var sent: seq<U8> := SentBytes(disc, d.log);
      SentWhole(disc, d.log);
      assert before + (sent + data) == (before + sent) + data;
      FramesGrow(d.out, d.queue.held, before + sent, data);
    }
  }

  lemma MixHeard(disc: AudioDisc, d: Player, before: seq<U8>)
    requires Fits(d.queue) && Heard(disc, d, before)
    ensures Heard(disc, Mixed(d), before)
  {
    if d.queue.ready && d.queue.held != [] {
      assert Mixed(d).out + Frames(d.queue.held[4..]) == d.out + Frames(d.queue.held);
    }
  }

  lemma FeedOnePaced(disc: AudioDisc, d: Player, clk: nat, first: nat)
    requires Fits(d.queue) && d.playing && d.cddaPlay && Paced(d, first) && clk > 0 && clk >= d.nextCy
    ensures var r := FeedOne(disc, d, clk);
            Paced(r.player, first) && (r.done || (clk >= r.player.nextCy && r.player.playing && r.player.cddaPlay))
  {
    hide Deadline;
    DeadlineNext(first, |d.log|);
  }

  // --------------------------------------------------------- whole runs

  ghost predicate AudioInvariant(disc: AudioDisc, d: Player, before: seq<U8>, start: nat, end: nat) {
    Fits(d.queue) && InRange(disc, d, start, end) && Heard(disc, d, before) && Ends(disc, d, end)
  }

  lemma {:induction false} FeedKeeps(disc: AudioDisc, t: Round, clk: nat, n: nat, before: seq<U8>, start: nat, end: nat)
    requires AudioInvariant(disc, t.player, before, start, end) && |before| % 4 == 0
    requires t.done || (t.player.playing && t.player.cddaPlay && t.player.loopStart == start)
    ensures AudioInvariant(disc, Feed(disc, t, clk, n).player, before, start, end)
    decreases n
  {
    hide FeedOne, InRange, Heard, Ends;
    if n > 0 && !t.done {
      assert t.player.queue.held == t.player.queue.held;
      FeedOneInRange(disc, t.player, clk, start, end);
      FeedOneHeard(disc, t.player, clk, before);
      FeedKeeps(disc, FeedOne(disc, t.player, clk), clk, n - 1, before, start, end);
    }
  }

  lemma TickKeeps(disc: AudioDisc, d: Player, clk: nat, before: seq<U8>, start: nat, end: nat)
    requires AudioInvariant(disc, d, before, start, end) && |before| % 4 == 0
    ensures AudioInvariant(disc, AudioTick(disc, d, clk), before, start, end)
  {
    hide Feed, Spot, Count;
    if d.playing && d.cddaPlay {
      var l := Latched(d, clk);
      FeedKeeps(disc, Round(l, false), clk, SECTORS_PER_TICK, before, start, end);
    }
  }

  lemma MixKeeps(disc: AudioDisc, d: Player, before: seq<U8>, start: nat, end: nat)
    requires AudioInvariant(disc, d, before, start, end)
    ensures AudioInvariant(disc, Mixed(d), before, start, end)
  {
    hide Spot, Count, Heard;
    MixHeard(disc, d, before);
  }

  lemma {:induction false} AudioRunKeeps(disc: AudioDisc, d: Player, steps: seq<AudioStep>, before: seq<U8>,
                                         start: nat, end: nat)
    requires AudioInvariant(disc, d, before, start, end) && |before| % 4 == 0
    ensures AudioInvariant(disc, RunAudio(disc, d, steps), before, start, end)
    decreases |steps|
  {
    hide InRange, Heard, Ends, AudioTick, Mixed;
    if steps != [] {
      match steps[0] {
        case ClockTick(clk) => TickKeeps(disc, d, clk, before, start, end);
        case Mix => MixKeeps(disc, d, before, start, end);
      }
      AudioRunKeeps(disc, NextAudio(disc, d, steps[0]), steps[1..], before, start, end);
    }
  }

  // A play from a stopped drive, under any interleaving of clock ticks and
  // output samples: sectors go out in range order, the range at most
  // `limit` + 1 times, and the mixer hears every frame of them once.
  lemma AudioPlaysInOrder(disc: AudioDisc, d: Player, startLba: nat, want: nat, limit: nat, steps: seq<AudioStep>)
    requires Fits(d.queue) && d.nextCy == 0 && want > 0 && limit <= 15
    ensures AudioInvariant(disc, RunAudio(disc, Commanded(d, startLba, want, limit), steps), d.queue.held,
                           startLba + 150, startLba + 150 + want)
  {
    hide Frames;
    var c := Commanded(d, startLba, want, limit);
    CountSteps(0, want, 0);
    assert d.queue.held + SentBytes(disc, []) == d.queue.held;
    AudioRunKeeps(disc, c, steps, d.queue.held, startLba + FAD_BASE, startLba + FAD_BASE + want);
  }

  // Without repeats: the sectors sent are those from the start to the head, each
  // once; the frames heard are a prefix of what waited before and those sectors'
  // frames, and none is lost on the way.
  lemma SinglePlay(disc: AudioDisc, d: Player, startLba: nat, want: nat, steps: seq<AudioStep>)
    requires Fits(d.queue) && d.nextCy == 0 && want > 0
    ensures var start, end := startLba + 150, startLba + 150 + want;
            var r := RunAudio(disc, Commanded(d, startLba, want, 0), steps);
            && start <= r.fad <= end && |r.log| == r.fad - start
            && (forall k | 0 <= k < |r.log| :: r.log[k].fad == start + k && disc(LbaOf(r.log[k].fad)).Raw?)
            && r.out <= Frames(d.queue.held + SentBytes(disc, r.log))
            && |r.out| + |r.queue.held| / 4 == |d.queue.held| / 4 + 588 * |r.log|
            && ((r.playing && r.cddaPlay) || r.fad == end || disc(LbaOf(r.fad)).NoAudio?)
  {
    hide InRange, Heard, Ends, Frames, SentBytes, RunAudio;
    var start, end := startLba + FAD_BASE, startLba + FAD_BASE + want;
    var r := RunAudio(disc, Commanded(d, startLba, want, 0), steps);
    AudioPlaysInOrder(disc, d, startLba, want, 0, steps);
    RunKeepsLimit(disc, Commanded(d, startLba, want, 0), steps);
    OnePass(disc, r, start, end);
    HeardAll(disc, r, d.queue.held);
  }

  lemma {:induction false} RunKeepsLimit(disc: AudioDisc, d: Player, steps: seq<AudioStep>)
    requires Fits(d.queue)
    ensures RunAudio(disc, d, steps).limit == d.limit
    decreases |steps|
  {
    if steps != [] {
      if steps[0].ClockTick? {
        FeedKeepsLimit(disc, Round(Latched(d, steps[0].clk), false), steps[0].clk, SECTORS_PER_TICK);
      }
      RunKeepsLimit(disc, NextAudio(disc, d, steps[0]), steps[1..]);
    }
  }

  lemma {:induction false} FeedKeepsLimit(disc: AudioDisc, t: Round, clk: nat, n: nat)
    requires Fits(t.player.queue)
    ensures Feed(disc, t, clk, n).player.limit == t.player.limit
    decreases n
  {
    if n > 0 && !t.done {
      FeedKeepsLimit(disc, FeedOne(disc, t.player, clk), clk, n - 1);
    }
  }

  lemma OnePass(disc: AudioDisc, r: Player, start: nat, end: nat)
    requires Fits(r.queue) && InRange(disc, r, start, end) && Ends(disc, r, end) && r.limit == 0
    ensures start <= r.fad <= end && |r.log| == r.fad - start
    ensures forall k | 0 <= k < |r.log| :: r.log[k].fad == start + k && disc(LbaOf(r.log[k].fad)).Raw?
    ensures (r.playing && r.cddaPlay) || r.fad == end || disc(LbaOf(r.fad)).NoAudio?
  {
    hide Spot, Count;
    CountSteps(0, end - start, r.fad - start);
    forall k | 0 <= k < |r.log|
      ensures r.log[k].fad == start + k && disc(LbaOf(r.log[k].fad)).Raw?
    {
      assert r.log[k].fad == Spot(start, end, k) && disc(LbaOf(r.log[k].fad)).Raw?;
      CountSpot(start, end, 0, k);
      CountSteps(0, end - start, k);
    }
  }

  lemma HeardAll(disc: AudioDisc, r: Player, before: seq<U8>)
    requires Fits(r.queue) && Heard(disc, r, before) && |before| % 4 == 0
    requires forall k | 0 <= k < |r.log| :: disc(LbaOf(r.log[k].fad)).Raw?
    ensures r.out <= Frames(before + SentBytes(disc, r.log))
    ensures |r.out| + |r.queue.held| / 4 == |before| / 4 + 588 * |r.log|
  {
    hide Frames;
    SentSize(disc, r.log);
    var whole := before + SentBytes(disc, r.log);
    assert |r.out + Frames(r.queue.held)| == |Frames(whole)|;
  }

  lemma {:induction false} SentSize(disc: AudioDisc, log: seq<Sent>)
    requires forall k | 0 <= k < |log| :: disc(LbaOf(log[k].fad)).Raw?
    ensures |SentBytes(disc, log)| == RAW_BYTES * |log|
  {
    if log != [] {
      SentSize(disc, log[..|log| - 1]);
    }
  }

  // ----------------------------------------------------------- the pace

  lemma DeadlineNext(first: nat, k: nat)
    ensures Deadline(first, k + 1) == Deadline(first, k) + SECTOR_CYCLES && Deadline(first, 0) == first
  {
  }

  lemma {:induction false} FeedPaced(disc: AudioDisc, t: Round, clk: nat, n: nat, first: nat)
    requires Fits(t.player.queue) && Paced(t.player, first) && clk > 0
    requires t.done || (t.player.playing && t.player.cddaPlay && clk >= t.player.nextCy)
    ensures Paced(Feed(disc, t, clk, n).player, first)
    decreases n
  {
    hide Paced, FeedOne;
    if n > 0 && !t.done {
      FeedOnePaced(disc, t.player, clk, first);
      FeedPaced(disc, FeedOne(disc, t.player, clk), clk, n - 1, first);
    }
  }

  predicate ClockRuns(steps: seq<AudioStep>) {
    forall i | 0 <= i < |steps| :: steps[i].ClockTick? ==> steps[i].clk > 0
  }

  lemma {:induction false} RunPaced(disc: AudioDisc, d: Player, steps: seq<AudioStep>, first: nat)
    requires Fits(d.queue) && Paced(d, first) && ClockRuns(steps)
    requires d.playing && d.cddaPlay ==> d.nextCy != 0
    ensures Paced(RunAudio(disc, d, steps), first)
    decreases |steps|
  {
    hide Deadline, Feed;
    if steps != [] {
      if steps[0].ClockTick? && d.playing && d.cddaPlay && steps[0].clk >= d.nextCy {
        FeedPaced(disc, Round(d, false), steps[0].clk, SECTORS_PER_TICK, first);
        FeedClock(disc, Round(d, false), steps[0].clk, SECTORS_PER_TICK);
      }
      RunPaced(disc, NextAudio(disc, d, steps[0]), steps[1..], first);
    }
  }

  lemma {:induction false} FeedClock(disc: AudioDisc, t: Round, clk: nat, n: nat)
    requires Fits(t.player.queue) && t.player.nextCy != 0
    ensures Feed(disc, t, clk, n).player.nextCy != 0
    decreases n
  {
    if n > 0 && !t.done {
      FeedClock(disc, FeedOne(disc, t.player, clk), clk, n - 1);
    }
  }

  // The machine time of the first tick.
  function FirstClock(steps: seq<AudioStep>): nat
    decreases |steps|
  {
    if steps == [] then 0 else if steps[0].ClockTick? then steps[0].clk else FirstClock(steps[1..])
  }

  // While the clock runs, the k-th sector is never sent earlier than k sector
  // times after the first tick, however the ticks are spaced.
  lemma {:induction false} AudioNeverEarly(disc: AudioDisc, d: Player, steps: seq<AudioStep>, k: nat)
    requires Fits(d.queue) && d.nextCy == 0 && d.log == [] && d.playing && d.cddaPlay && ClockRuns(steps)
    requires k < |RunAudio(disc, d, steps).log|
    ensures RunAudio(disc, d, steps).log[k].clk >= FirstClock(steps) + k * 381818
    decreases |steps|
  {
    hide Feed;
    if steps[0].Mix? {
      AudioNeverEarly(disc, NextAudio(disc, d, steps[0]), steps[1..], k);
    } else {
      var clk := steps[0].clk;
      var l := Latched(d, clk);
      FeedPaced(disc, Round(l, false), clk, SECTORS_PER_TICK, clk);
      FeedClock(disc, Round(l, false), clk, SECTORS_PER_TICK);
      RunPaced(disc, NextAudio(disc, d, steps[0]), steps[1..], clk);
    }
  }

  // ------------------------------------------------------- what is heard

  lemma {:induction false} FeedFills(disc: AudioDisc, t: Round, clk: nat, n: nat)
    requires Fits(t.player.queue) && t.player.queue.ready == (|t.player.queue.held| >= 9408)
    ensures var r := Feed(disc, t, clk, n).player;
            && |r.queue.held| == |t.player.queue.held| + 2352 * (|r.log| - |t.player.log|)
            && r.queue.ready == (|r.queue.held| >= 9408) && r.out == t.player.out && |r.log| >= |t.player.log|
    decreases n
  {
    if n > 0 && !t.done {
      FeedOneFills(disc, t.player, clk);
      hide FeedOne;
      FeedFills(disc, FeedOne(disc, t.player, clk), clk, n - 1);
    }
  }

  lemma FeedOneFills(disc: AudioDisc, d: Player, clk: nat)
    requires Fits(d.queue) && d.queue.ready == (|d.queue.held| >= 9408)
    ensures var r := FeedOne(disc, d, clk).player;
            && |r.queue.held| == |d.queue.held| + 2352 * (|r.log| - |d.log|)
            && r.queue.ready == (|r.queue.held| >= 9408) && r.out == d.out && |r.log| >= |d.log|
  {
  }

  lemma {:induction false} FeedLogGrows(disc: AudioDisc, t: Round, clk: nat, n: nat)
    requires Fits(t.player.queue)
    ensures |Feed(disc, t, clk, n).player.log| >= |t.player.log|
    decreases n
  {
    if n > 0 && !t.done {
      FeedLogGrows(disc, FeedOne(disc, t.player, clk), clk, n - 1);
    }
  }

  lemma {:induction false} RunLogGrows(disc: AudioDisc, d: Player, steps: seq<AudioStep>)
    requires Fits(d.queue)
    ensures |RunAudio(disc, d, steps).log| >= |d.log|
    decreases |steps|
  {
    hide Feed, Drain;
    if steps != [] {
      if steps[0].ClockTick? {
        FeedLogGrows(disc, Round(Latched(d, steps[0].clk), false), steps[0].clk, SECTORS_PER_TICK);
      }
      RunLogGrows(disc, NextAudio(disc, d, steps[0]), steps[1..]);
    }
  }

  // A queue that is not ready is silent until four sectors wait in it.
  lemma {:induction false} SilentUntilPrimed(disc: AudioDisc, d: Player, steps: seq<AudioStep>)
    requires Fits(d.queue) && !d.queue.ready && |d.queue.held| < 9408
    ensures var r := RunAudio(disc, d, steps);
            |d.queue.held| + 2352 * (|r.log| - |d.log|) < 9408 ==> r.out == d.out && !r.queue.ready
    decreases |steps|
  {
    hide Feed;
    if steps != [] {
      var n := NextAudio(disc, d, steps[0]);
      if steps[0].ClockTick? {
        FeedFills(disc, Round(Latched(d, steps[0].clk), false), steps[0].clk, SECTORS_PER_TICK);
      }
      RunLogGrows(disc, n, steps[1..]);
      if !n.queue.ready {
        SilentUntilPrimed(disc, n, steps[1..]);
      }
    }
  }

  // A ready one that has run empty is silent again, for as long.
  lemma UnderrunPauses(disc: AudioDisc, d: Player, steps: seq<AudioStep>)
    requires d.queue == Queue([], true)
    ensures var r := RunAudio(disc, d, [Mix] + steps);
            |r.log| < |d.log| + 4 ==> r.out == d.out && !r.queue.ready
  {
    hide Feed;
    assert ([Mix] + steps)[1..] == steps && d.out + [] == d.out;
    SilentUntilPrimed(disc, d.(queue := Queue([], false)), steps);
  }

  // The two bytes of a signed 16-bit sample, low byte first.
  function Stored(v: int): (b: seq<U8>)
    requires -0x8000 <= v < 0x8000
    ensures |b| == 2
  {
    var w := if v < 0 then v + 0x1_0000 else v;
    [w % 256, w / 256]
  }

  // A sector's frames are the samples stored in it, left before right.
  lemma FramesAreSamples(left: int, right: int, rest: seq<U8>)
    requires -0x8000 <= left < 0x8000 && -0x8000 <= right < 0x8000
    ensures Frames(Stored(left) + Stored(right) + rest) == [Frame(left, right)] + Frames(rest)
  {
    var b := Stored(left) + Stored(right) + rest;
    assert b[4..] == rest;
    assert b[0] == Stored(left)[0] && b[1] == Stored(left)[1] && b[2] == Stored(right)[0] && b[3] == Stored(right)[1];
    SampleReads(left);
    SampleReads(right);
  }

  lemma SampleReads(v: int)
    requires -0x8000 <= v < 0x8000
    ensures Sample(Stored(v)[0], Stored(v)[1]) == v
  {
  }
}
