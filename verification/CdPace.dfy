// How far apart in machine time the audio sectors go out.
module CdPace {
  import opened CdStream
  import opened CdAudio

  // ------------------------------------------------------------- one tick

  predicate Out(d: Player) { d.playEnd != 0 && d.fad >= d.playEnd }

  predicate RepeatsLeft(d: Player) { d.limit == 15 || d.count < d.limit }

  // The player once a range that has run out has been rewound.
  function Rewound(d: Player): Player {
    if Out(d) && RepeatsLeft(d) then
      d.(fad := d.loopStart, count := if d.count < REPEAT_FOREVER then d.count + 1 else d.count,
         passes := d.passes + 1)
    else d
  }

  // There is a sector to send: the head is inside the range, or a repeat takes
  // it back there, and the disc has audio at that place.
  predicate HasNext(disc: AudioDisc, d: Player) {
    !Out(Rewound(d)) && disc(LbaOf(Rewound(d).fad)).Raw?
  }

  predicate Room(q: Queue) { |q.held| + 2352 < 35280 }

  // The fill level at which the drive eases off, as a number of bytes.
  const HIGH_WATER: nat := 23520

  // The player after it has sent the next sector.
  function AfterSend(disc: AudioDisc, d: Player, clk: nat): (a: Player)
    requires Fits(d.queue) && HasNext(disc, d) && Room(d.queue)
    ensures Fits(a.queue)
  {
    var r := Rewound(d);
    r.(queue := Push(d.queue, disc(LbaOf(r.fad)).data).queue, fad := r.fad + 1, nextCy := d.nextCy + SECTOR_CYCLES,
       log := d.log + [Sent(r.fad, clk, d.nextCy)])
  }

  // The tick sends a sector at all.
  predicate TickSends(disc: AudioDisc, d: Player, clk: nat) {
    var l := Latched(d, clk);
    d.playing && d.cddaPlay && clk >= l.nextCy && HasNext(disc, l) && Room(l.queue)
  }

  // What keeps the tick from sending a second one: the clock, the queue, or the
  // lack of another sector.
  predicate StopsAtOne(disc: AudioDisc, d: Player, clk: nat)
    requires Fits(d.queue) && TickSends(disc, d, clk)
  {
    var l := Latched(d, clk);
    || clk < l.nextCy + 381818
    || |d.queue.held| + 2352 >= HIGH_WATER
    || !HasNext(disc, AfterSend(disc, l, clk))
  }

  // The log has grown by `n` sectors, all sent at `clk`.
  predicate GrownAt(log: seq<Sent>, log': seq<Sent>, clk: nat, n: nat) {
    && |log'| == |log| + n && log <= log'
    && forall k | |log| <= k < |log'| :: log'[k].clk == clk
  }

  lemma {:induction false} FeedGrows(disc: AudioDisc, t: Round, clk: nat, n: nat)
    requires Fits(t.player.queue)
    ensures var log' := Feed(disc, t, clk, n).player.log;
            |log'| >= |t.player.log| && GrownAt(t.player.log, log', clk, |log'| - |t.player.log|)
    decreases n
  {
    if n > 0 && !t.done {
      FeedOneGrows(disc, t.player, clk);
      hide FeedOne;
      FeedGrows(disc, FeedOne(disc, t.player, clk), clk, n - 1);
    }
  }

  lemma FeedOneGrows(disc: AudioDisc, d: Player, clk: nat)
    requires Fits(d.queue)
    ensures var log' := FeedOne(disc, d, clk).player.log;
            |log'| >= |d.log| && GrownAt(d.log, log', clk, |log'| - |d.log|)
  {
    hide Push;
  }

  // A player with no next sector sends none, however often it is rewound.
  lemma {:induction false} FeedsNothing(disc: AudioDisc, t: Round, clk: nat, n: nat)
    requires Fits(t.player.queue) && (t.done || !HasNext(disc, t.player))
    ensures Feed(disc, t, clk, n).player.log == t.player.log
    decreases n
  {
    hide Push;
    if n > 0 && !t.done {
      FeedsNothing(disc, FeedOne(disc, t.player, clk), clk, n - 1);
    }
  }

  // How many rounds the next sector takes.
  function Rounds(d: Player): nat { if Out(d) then 2 else 1 }

  // The feeding loop stops after this sector, sent at `clk`.
  predicate Pauses(d: Player, clk: nat) {
    (clk > 0 && clk < d.nextCy) || |d.queue.held| >= HIGH_WATER
  }

  lemma FeedsFirst(disc: AudioDisc, d: Player, clk: nat, n: nat)
    requires Fits(d.queue) && HasNext(disc, d) && Room(d.queue) && n >= 2
    ensures var a := AfterSend(disc, d, clk);
            Feed(disc, Round(d, false), clk, n) == Feed(disc, Round(a, Pauses(a, clk)), clk, n - Rounds(d))
  {
    hide Feed, AfterSend, FeedOne, Pauses;
    FeedStep(disc, Round(d, false), clk, n);
    if Out(d) {
      var r := Rewound(d);
      RewindStep(disc, d, clk);
      FeedStep(disc, Round(r, false), clk, n - 1);
      SendStep(disc, r, clk);
    } else {
      SendStep(disc, d, clk);
    }
  }

  lemma RewindStep(disc: AudioDisc, d: Player, clk: nat)
    requires Fits(d.queue) && HasNext(disc, d) && Room(d.queue) && Out(d)
    ensures var r := Rewound(d);
            && FeedOne(disc, d, clk) == Round(r, false) && Fits(r.queue) && Room(r.queue) && !Out(r)
            && HasNext(disc, r) && AfterSend(disc, r, clk) == AfterSend(disc, d, clk)
  {
    hide Push;
  }

  lemma FeedStep(disc: AudioDisc, t: Round, clk: nat, n: nat)
    requires Fits(t.player.queue) && !t.done && n > 0
    ensures Feed(disc, t, clk, n) == Feed(disc, FeedOne(disc, t.player, clk), clk, n - 1)
  {
  }

  lemma SendStep(disc: AudioDisc, d: Player, clk: nat)
    requires Fits(d.queue) && HasNext(disc, d) && Room(d.queue) && !Out(d)
    ensures var a := AfterSend(disc, d, clk); FeedOne(disc, d, clk) == Round(a, Pauses(a, clk))
  {
  }

  lemma FeedsNoRoom(disc: AudioDisc, d: Player, clk: nat, n: nat)
    requires Fits(d.queue) && !Room(d.queue)
    ensures Feed(disc, Round(d, false), clk, n).player.log == d.log
  {
    hide Feed;
    NoRoomFeeds(disc, Round(d, false), clk, n);
  }

  lemma {:induction false} NoRoomFeeds(disc: AudioDisc, t: Round, clk: nat, n: nat)
    requires Fits(t.player.queue) && (t.done || !Room(t.player.queue))
    ensures Feed(disc, t, clk, n).player.log == t.player.log
    decreases n
  {
    if n > 0 && !t.done {
      NoRoomFeeds(disc, FeedOne(disc, t.player, clk), clk, n - 1);
    }
  }

  // The exact number of sectors of one tick, as far as none, one or more: with
  // the clock running, the promise of one sector a sector time holds for a tick
  // if and only if something stops it after the first.
  lemma TickCount(disc: AudioDisc, d: Player, clk: nat)
    requires Fits(d.queue) && clk > 0
    ensures var log' := AudioTick(disc, d, clk).log;
            && |log'| >= |d.log| && GrownAt(d.log, log', clk, |log'| - |d.log|)
            && (|log'| == |d.log| <==> !TickSends(disc, d, clk))
            && (|log'| == |d.log| + 1 <==> TickSends(disc, d, clk) && StopsAtOne(disc, d, clk))
  {
    hide Feed, HasNext, AfterSend;
    if d.playing && d.cddaPlay && clk >= Latched(d, clk).nextCy {
      var l := Latched(d, clk);
      FeedGrows(disc, Round(l, false), clk, SECTORS_PER_TICK);
      if !HasNext(disc, l) {
        FeedsNothing(disc, Round(l, false), clk, SECTORS_PER_TICK);
      } else if !Room(l.queue) {
        FeedsNoRoom(disc, l, clk, SECTORS_PER_TICK);
      } else {
        TickCountSent(disc, l, clk);
      }
    }
  }

  lemma TickCountSent(disc: AudioDisc, d: Player, clk: nat)
    requires Fits(d.queue) && clk > 0 && clk >= d.nextCy && HasNext(disc, d) && Room(d.queue)
    ensures var log' := Feed(disc, Round(d, false), clk, SECTORS_PER_TICK).player.log;
            && |log'| >= |d.log| + 1
            && (|log'| == |d.log| + 1 <==>
                || clk < d.nextCy + SECTOR_CYCLES || |d.queue.held| + RAW_BYTES >= HIGH_WATER
                || !HasNext(disc, AfterSend(disc, d, clk)))
  {
    hide Feed, HasNext, AfterSend;
    FeedsFirst(disc, d, clk, SECTORS_PER_TICK);
    var a := AfterSend(disc, d, clk);
    AfterSendGrows(disc, d, clk);
    var t, m := Round(a, Pauses(a, clk)), SECTORS_PER_TICK - Rounds(d);
    if t.done || !HasNext(disc, a) {
      FeedsNothing(disc, t, clk, m);
    } else {
      FeedsFirst(disc, a, clk, m);
      var b := AfterSend(disc, a, clk);
      AfterSendGrows(disc, a, clk);
      FeedGrows(disc, Round(b, Pauses(b, clk)), clk, m - Rounds(a));
    }
  }

  lemma AfterSendGrows(disc: AudioDisc, d: Player, clk: nat)
    requires Fits(d.queue) && HasNext(disc, d) && Room(d.queue)
    ensures var a := AfterSend(disc, d, clk);
            && |a.log| == |d.log| + 1 && |a.queue.held| == |d.queue.held| + RAW_BYTES
            && a.nextCy == d.nextCy + SECTOR_CYCLES
  {
  }

  // A tick that finds the queue full leaves everything as it is and puts the drive
  // off by one sector time, counted from the tick.
  lemma FullQueueWaits(disc: AudioDisc, d: Player, clk: nat)
    requires Fits(d.queue) && d.playing && d.cddaPlay && d.nextCy > 0 && clk >= d.nextCy
    requires HasNext(disc, d) && !Out(d) && !Room(d.queue)
    ensures AudioTick(disc, d, clk) == d.(nextCy := clk + 381818)
  {
    hide Feed;
    FeedStep(disc, Round(d, false), clk, SECTORS_PER_TICK);
    FeedDone(disc, FeedOne(disc, d, clk), clk, SECTORS_PER_TICK - 1);
  }

  lemma FeedDone(disc: AudioDisc, t: Round, clk: nat, n: nat)
    requires Fits(t.player.queue) && t.done
    ensures Feed(disc, t, clk, n) == t
  {
  }

  // ----------------------------------------------------------- whole runs

  // The promise: consecutive sectors are at least a sector time apart.
  predicate Spaced(log: seq<Sent>) {
    forall k | 0 < k < |log| :: log[k].clk >= log[k - 1].clk + 381818
  }

  // A tick keeps the promise: it sends nothing, or it is stopped after one sector
  // and the last one went out a sector time ago.
  predicate OnTime(disc: AudioDisc, d: Player, clk: nat)
    requires Fits(d.queue)
  {
    TickSends(disc, d, clk) ==>
      StopsAtOne(disc, d, clk) && (d.log == [] || clk >= d.log[|d.log| - 1].clk + 381818)
  }

  predicate AllOnTime(disc: AudioDisc, d: Player, steps: seq<AudioStep>)
    requires Fits(d.queue)
    decreases |steps|
  {
    steps == [] ||
    (&& (steps[0].ClockTick? ==> OnTime(disc, d, steps[0].clk))
     && AllOnTime(disc, NextAudio(disc, d, steps[0]), steps[1..]))
  }

  lemma SpacedGrows(log: seq<Sent>, log': seq<Sent>, clk: nat, n: nat)
    requires GrownAt(log, log', clk, n)
    ensures Spaced(log') <==>
            Spaced(log) && (n == 0 || (n == 1 && (log == [] || clk >= log[|log| - 1].clk + SECTOR_CYCLES)))
  {
    assert forall k | 0 <= k < |log| :: log'[k] == log[k];
    if n > 0 && log != [] {
      assert log'[|log|].clk == clk && log'[|log| - 1] == log[|log| - 1];
    }
    if n > 1 {
      assert log'[|log| + 1].clk == log'[|log|].clk;
    }
  }

  lemma TickSpaced(disc: AudioDisc, d: Player, clk: nat)
    requires Fits(d.queue) && clk > 0
    ensures Spaced(AudioTick(disc, d, clk).log) <==> Spaced(d.log) && OnTime(disc, d, clk)
  {
    hide AudioTick, TickSends, StopsAtOne, Spaced;
    TickCount(disc, d, clk);
    var log' := AudioTick(disc, d, clk).log;
    SpacedGrows(d.log, log', clk, |log'| - |d.log|);
  }

  // For every run with the clock running, exactly the ticks that keep the
  // promise keep the run's sectors a sector time apart.
  lemma {:induction false} SpacedIff(disc: AudioDisc, d: Player, steps: seq<AudioStep>)
    requires Fits(d.queue) && ClockRuns(steps)
    ensures Spaced(RunAudio(disc, d, steps).log) <==> Spaced(d.log) && AllOnTime(disc, d, steps)
    decreases |steps|
  {
    hide AudioTick, Mixed, OnTime, Spaced;
    if steps != [] {
      if steps[0].ClockTick? {
        TickSpaced(disc, d, steps[0].clk);
      } else {
        MixedLog(d);
      }
      SpacedIff(disc, NextAudio(disc, d, steps[0]), steps[1..]);
    }
  }

  lemma MixedLog(d: Player)
    requires Fits(d.queue)
    ensures Mixed(d).log == d.log
  {
  }

  // ------------------------------------------------------------ the windows

  // No sector goes out before it is due, and what is due keeps the distance.
  predicate Windows(log: seq<Sent>) {
    && (forall k | 0 <= k < |log| :: log[k].clk >= log[k].due)
    && forall j, k | 0 <= j <= k < |log| :: log[k].due >= Deadline(log[j].due, k - j)
  }

  predicate Scheduled(d: Player) {
    && Windows(d.log)
    && (d.playing && d.cddaPlay ==> forall j | 0 <= j < |d.log| :: d.nextCy >= Deadline(d.log[j].due, |d.log| - j))
  }

  lemma SendScheduled(d: Player, r: Player, clk: nat)
    requires Scheduled(d) && d.playing && d.cddaPlay && clk >= d.nextCy && r.nextCy == d.nextCy + SECTOR_CYCLES
    requires |r.log| == |d.log| + 1 && r.log[..|d.log|] == d.log
    requires r.log[|d.log|].clk == clk && r.log[|d.log|].due == d.nextCy
    ensures Scheduled(r)
  {
    hide Deadline;
    var n := |d.log|;
    forall j, k | 0 <= j <= k < |r.log|
      ensures r.log[k].due >= Deadline(r.log[j].due, k - j)
      ensures r.nextCy >= Deadline(r.log[j].due, n + 1 - j)
    {
      DeadlineNext(r.log[j].due, n - j);
      assert j < n ==> r.log[j] == d.log[j];
      assert k < n ==> r.log[k] == d.log[k];
    }
    forall k | 0 <= k < |r.log|
      ensures r.log[k].clk >= r.log[k].due
    {
      assert k < n ==> r.log[k] == d.log[k];
    }
  }

  lemma FeedOneScheduled(disc: AudioDisc, d: Player, clk: nat)
    requires Fits(d.queue) && Scheduled(d) && d.playing && d.cddaPlay && clk > 0 && clk >= d.nextCy
    ensures var r := FeedOne(disc, d, clk);
            Scheduled(r.player) && (r.done || (clk >= r.player.nextCy && r.player.playing && r.player.cddaPlay))
  {
    hide Deadline, Windows, Push;
    var r := FeedOne(disc, d, clk).player;
    if |r.log| > |d.log| {
      SendScheduled(d, r, clk);
    }
  }

  lemma {:induction false} FeedScheduled(disc: AudioDisc, t: Round, clk: nat, n: nat)
    requires Fits(t.player.queue) && Scheduled(t.player) && clk > 0
    requires t.done || (t.player.playing && t.player.cddaPlay && clk >= t.player.nextCy)
    ensures Scheduled(Feed(disc, t, clk, n).player)
    decreases n
  {
    hide Scheduled, FeedOne;
    if n > 0 && !t.done {
      FeedOneScheduled(disc, t.player, clk);
      FeedScheduled(disc, FeedOne(disc, t.player, clk), clk, n - 1);
    }
  }

  // The clock is taken before the first sector goes out.
  predicate Started(d: Player) { d.playing && d.cddaPlay && d.nextCy == 0 ==> d.log == [] }

  lemma TickScheduled(disc: AudioDisc, d: Player, clk: nat)
    requires Fits(d.queue) && Scheduled(d) && Started(d) && clk > 0
    ensures Scheduled(AudioTick(disc, d, clk)) && Started(AudioTick(disc, d, clk))
  {
    hide Deadline, Windows, Feed;
    if d.playing && d.cddaPlay {
      var l := Latched(d, clk);
      if clk >= l.nextCy {
        FeedScheduled(disc, Round(l, false), clk, SECTORS_PER_TICK);
        FeedClock(disc, Round(l, false), clk, SECTORS_PER_TICK);
      }
    }
  }

  lemma {:induction false} RunScheduled(disc: AudioDisc, d: Player, steps: seq<AudioStep>)
    requires Fits(d.queue) && Scheduled(d) && Started(d) && ClockRuns(steps)
    ensures Scheduled(RunAudio(disc, d, steps))
    decreases |steps|
  {
    hide AudioTick, Windows, Drain;
    if steps != [] {
      if steps[0].ClockTick? {
        TickScheduled(disc, d, steps[0].clk);
      }
      RunScheduled(disc, NextAudio(disc, d, steps[0]), steps[1..]);
    }
  }

  // What does hold of every play while the clock runs: however late sector j
  // was, sector k comes no earlier than k - j sector times after j was due.
  lemma AudioWindows(disc: AudioDisc, d: Player, startLba: nat, want: nat, limit: nat, steps: seq<AudioStep>,
                     j: nat, k: nat)
    requires Fits(d.queue) && ClockRuns(steps)
    requires j <= k < |RunAudio(disc, Commanded(d, startLba, want, limit), steps).log|
    ensures var log := RunAudio(disc, Commanded(d, startLba, want, limit), steps).log;
            log[j].clk >= log[j].due && log[k].clk >= log[j].due + (k - j) * 381818
  {
    hide RunAudio;
    RunScheduled(disc, Commanded(d, startLba, want, limit), steps);
  }
}
