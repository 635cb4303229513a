// CD audio as the program keeps it: a byte ring in the sound chip, and the
// drive that feeds it one sector at a time.
module CdPlayback {
  import opened CdStream
  import opened Words
  import opened CdAudio
  import opened CdBlock

  // How many bytes lie between the read and the write position.
  function RingLength(wp: nat, rp: nat): (n: nat)
    requires wp < RING && rp < RING
    ensures n < RING
  {
    (wp + RING - rp) % RING
  }

  // The slot of the i-th waiting byte.
  function RingSlot(rp: nat, i: nat): (k: nat)
    ensures k < RING
  {
    (rp + i) % RING
  }

  lemma RingSlotsDiffer(rp: nat, i: nat, j: nat)
    requires rp < RING && i < RING && j < RING && i != j
    ensures RingSlot(rp, i) != RingSlot(rp, j)
  {
  }

  lemma WriteSlot(wp: nat, rp: nat)
    requires wp < RING && rp < RING
    ensures RingSlot(rp, RingLength(wp, rp)) == wp
  {
  }

  lemma LengthAfter(wp: nat, rp: nat)
    requires wp < RING && rp < RING
    ensures RingLength(wp, rp) + 1 < RING ==> RingLength((wp + 1) % RING, rp) == RingLength(wp, rp) + 1
    ensures RingLength(wp, rp) >= 4 ==> RingLength(wp, (rp + 4) % RING) == RingLength(wp, rp) - 4
    ensures RingLength(wp, rp) == 0 <==> wp == rp
  {
  }

  lemma SlotShift(from: nat, i: nat)
    requires from < RING
    ensures RingSlot((from + 4) % RING, i) == RingSlot(from, i + 4)
  {
    if from + 4 >= RING {
      assert (from + 4) % RING == from + 4 - RING;
      assert from + 4 + i == RING + (from + 4 - RING + i);
    }
  }

  lemma FirstSlots(from: nat)
    requires from < RING
    ensures RingSlot(from, 0) == from && RingSlot(from, 1) == (from + 1) % RING
    ensures RingSlot(from, 2) == (from + 2) % RING && RingSlot(from, 3) == (from + 3) % RING
  {
  }

  class SoundRing {
    const cdda: array<U8>
    var wp: nat
    var rp: nat
    var ready: bool

    ghost predicate Valid()
      reads this
    {
      cdda.Length == RING && wp < RING && rp < RING && RingLength(wp, rp) % 4 == 0
    }

    // The waiting bytes: `n` of them from position `from`.
    ghost function Window(from: nat, n: nat): (r: seq<U8>)
      requires cdda.Length == RING
      reads cdda
      ensures |r| == n && forall i | 0 <= i < n :: r[i] == cdda[RingSlot(from, i)]
    {
      seq(n, i requires 0 <= i && cdda.Length == RING reads cdda => cdda[RingSlot(from, i)])
    }

    ghost function Contents(): (q: Queue)
      requires Valid()
      reads this, cdda
      ensures Fits(q) && |q.held| == RingLength(wp, rp) && q.ready == ready
    {
      Queue(Window(rp, RingLength(wp, rp)), ready)
    }

    constructor ()
      ensures Valid() && fresh(cdda) && Contents() == Queue([], false)
    {
      cdda := new U8[RING](_ => 0);
      wp, rp, ready := 0, 0, false;
      new;
      assert Contents().held == [];
    }

    // One byte goes behind the waiting ones.
    method PutByte(b: U8)
      requires cdda.Length == RING && wp < RING && rp < RING && RingLength(wp, rp) + 1 < RING
      modifies `wp, cdda
      ensures wp < RING && RingLength(wp, rp) == RingLength(old(wp), rp) + 1
      ensures Window(rp, RingLength(wp, rp)) == old(Window(rp, RingLength(wp, rp))) + [b]
    {
      hide RingLength, RingSlot;
      ghost var n := RingLength(wp, rp);
      WriteSlot(wp, rp);
      LengthAfter(wp, rp);
      forall i | 0 <= i < n
        ensures RingSlot(rp, i) != wp
      {
        RingSlotsDiffer(rp, i, n);
      }
      cdda[wp] := b;
      wp := (wp + 1) % RING;
    }

    // `scsp_cdda_push`
    method PushSector(raw: RawSector) returns (fill: nat)
      requires Valid()
      modifies `wp, `ready, cdda
      ensures Valid() && Pushed(Contents(), fill) == Push(old(Contents()), raw)
    {
      hide RingLength, RingSlot;
      ghost var held := Contents().held;
      var len := RingLength(wp, rp);
      if len + RAW_BYTES >= RING {
        return 3;
      }
      var n := 0;
      while n < RAW_BYTES
        invariant n <= RAW_BYTES && ready == old(ready) && wp < RING && RingLength(wp, rp) == len + n
        invariant Window(rp, len + n) == held + raw[..n]
      {
        assert held + raw[..n] + [raw[n]] == held + raw[..n + 1];
        PutByte(raw[n]);
        n := n + 1;
      }
      assert raw[..n] == raw;
      len := RingLength(wp, rp);
      if len >= RAW_BYTES * 4 {
        ready := true;
      }
      fill := len * 3 / RING;
      assert Contents().held == held + raw;
      assert Contents().ready == (old(ready) || |held + raw| >= 4 * RAW_BYTES);
    }

    // The CD audio part of `scsp_render`: the frame for one output sample.
    method TakeFrame() returns (left: int, right: int, ghost frames: seq<Frame>)
      requires Valid()
      modifies `rp, `ready
      ensures Valid() && Drained(Contents(), frames) == Drain(old(Contents()))
      ensures Frame(left, right) == if frames == [] then Frame(0, 0) else frames[0]
    {
      hide RingLength, RingSlot, Window;
      left, right, frames := 0, 0, [];
      LengthAfter(wp, rp);
      if ready {
        if rp != wp {
          left, right := Oldest();
          frames := [Frame(left, right)];
          rp := (rp + 4) % RING;
        } else {
          ready := false;
        }
      }
    }

    // The two samples at the read position.
    method Oldest() returns (left: int, right: int)
      requires Valid() && RingLength(wp, rp) >= 4
      ensures Frame(left, right) == FrameOf(Window(rp, RingLength(wp, rp)))
      ensures Window((rp + 4) % RING, RingLength(wp, rp) - 4) == Window(rp, RingLength(wp, rp))[4..]
    {
      hide RingLength;
      left := Sample(cdda[rp], cdda[(rp + 1) % RING]);
      right := Sample(cdda[(rp + 2) % RING], cdda[(rp + 3) % RING]);
      TakeSlots(rp, RingLength(wp, rp));
    }

    lemma TakeSlots(from: nat, n: nat)
      requires cdda.Length == RING && from < RING && n >= 4
      ensures Window(from, n)[4..] == Window((from + 4) % RING, n - 4)
      ensures FrameOf(Window(from, n)) == Frame(Sample(cdda[from], cdda[(from + 1) % RING]),
                                                Sample(cdda[(from + 2) % RING], cdda[(from + 3) % RING]))
    {
      hide RingSlot;
      FirstSlots(from);
      forall i | 0 <= i < n - 4
        ensures Window((from + 4) % RING, n - 4)[i] == Window(from, n)[4..][i]
      {
        SlotShift(from, i);
      }
    }
  }

  // The drive while an audio track plays. `passes`, `log` and `out` record the
  // play; the sound chip's ring is another object.
  class AudioDrive {
    const disc: AudioDisc
    const ring: SoundRing
    var fad: nat
    var playing: bool
    var cddaPlay: bool
    var playEnd: nat
    var playRepeat: nat
    var playRptcnt: nat
    var nextCy: nat
    var loopStart: nat
    var status: int
    var hirq: set<Flag>

    ghost var passes: nat
    ghost var log: seq<Sent>
    ghost var out: seq<Frame>

    ghost predicate Valid()
      reads this, ring
    {
      ring.Valid()
    }

    ghost function Model(): (d: Player)
      requires Valid()
      reads this, ring, ring.cdda
      ensures Fits(d.queue)
    {
      Player(fad, playing, cddaPlay, playEnd, playRepeat, playRptcnt, nextCy, loopStart, ring.Contents(),
             passes, log, out)
    }

    constructor (disc: AudioDisc, ring: SoundRing)
      requires ring.Valid()
      ensures Valid() && this.disc == disc && this.ring == ring && !playing && nextCy == 0
    {
      this.disc, this.ring := disc, ring;
      fad, playing, cddaPlay, playEnd, playRepeat, playRptcnt := 0xFFFFFF, false, false, 0, 0, 0;
      nextCy, loopStart, status, hirq := 0, 0, ST_PAUSE, {};
      passes, log, out := 0, [], [];
    }

    // A record of a new play.
    ghost method Restart()
      requires Valid()
      modifies `passes, `log, `out
      ensures Valid() && Model() == old(Model()).(passes := 0, log := [], out := [])
    {
      passes, log, out := 0, [], [];
    }

    method SetRange(startLba: nat, want: nat, limit: nat)
      requires Valid()
      modifies `fad, `playing, `cddaPlay, `playEnd, `playRepeat, `playRptcnt
      ensures Valid()
      ensures Model() == old(Model()).(fad := startLba + FAD_BASE, playing := true, cddaPlay := true,
                                       playEnd := startLba + FAD_BASE + want, limit := limit, count := 0)
    {
      playing, cddaPlay := true, true;
      fad := startLba + FAD_BASE;
      playEnd := startLba + FAD_BASE + want;
      playRepeat := limit;
      playRptcnt := 0;
    }

    // The audio branch of command 0x10; `mode` is the play mode, CR3's high byte.
    method Play(startLba: nat, want: nat, mode: nat)
      requires Valid()
      modifies `fad, `playing, `cddaPlay, `playEnd, `playRepeat, `playRptcnt, `status, `hirq, `passes, `log, `out
      ensures Valid() && status == ST_PLAY && hirq == old(hirq) + {CMOK}
      ensures Model() == Commanded(old(Model()), startLba, want, mode % 16)
    {
      SetRange(startLba, want, mode % 16);
      Restart();
      status := ST_PLAY;
      hirq := hirq + {CMOK};
    }

    // The end of the play: no repeats left, or no more audio.
    method Stop()
      requires Valid()
      modifies `playing, `cddaPlay, `status, `hirq
      ensures Valid() && Model() == Stopped(old(Model()))
      ensures status == ST_PAUSE && hirq == old(hirq) + {PEND, EFLS}
    {
      cddaPlay := false;
      playing := false;
      status := ST_PAUSE;
      hirq := hirq + {PEND, EFLS};
    }

    method Rewind()
      requires Valid()
      modifies `fad, `playRptcnt, `passes
      ensures Valid()
      ensures Model() == old(Model()).(
                fad := old(loopStart), passes := old(passes) + 1,
                count := if old(playRptcnt) < REPEAT_FOREVER then old(playRptcnt) + 1 else old(playRptcnt))
    {
      fad := loopStart;
      if playRptcnt < REPEAT_FOREVER {
        playRptcnt := playRptcnt + 1;
      }
      passes := passes + 1;
    }

    method Refused(clk: nat)
      requires Valid()
      modifies `nextCy
      ensures Valid()
      ensures Model() == old(Model()).(nextCy := if clk > 0 then clk + SECTOR_CYCLES else old(nextCy))
    {
      if clk > 0 {
        nextCy := clk + SECTOR_CYCLES;
      }
    }

    method Accepted(clk: nat)
      requires Valid()
      modifies `fad, `nextCy, `log, `hirq
      ensures Valid() && hirq == old(hirq) + {CSCT}
      ensures Model() == old(Model()).(fad := old(fad) + 1, nextCy := old(nextCy) + SECTOR_CYCLES,
                                       log := old(log) + [Sent(old(fad), clk, old(nextCy))])
    {
      log := log + [Sent(fad, clk, nextCy)];
      fad := fad + 1;
      nextCy := nextCy + SECTOR_CYCLES;
      hirq := hirq + {CSCT};
    }

    // One round of the feeding loop.
    method FeedSector(clk: nat) returns (done: bool)
      requires Valid() && playing && cddaPlay
      modifies this, ring, ring.cdda
      ensures Valid() && Round(Model(), done) == FeedOne(disc, old(Model()), clk)
      ensures playing == cddaPlay && (PEND in hirq <==> PEND in old(hirq) || !playing) && (playing || done)
    {
      hide Push;
      if playEnd != 0 && fad >= playEnd {
        if playRepeat == REPEAT_FOREVER || playRptcnt < playRepeat {
          Rewind();
          return false;
        }
        Stop();
        return true;
      }
      var read := disc(LbaOf(fad));
      if read.NoAudio? {
        Stop();
        return true;
      }
      var fill := ring.PushSector(read.data);
      if fill >= 3 {
        Refused(clk);
        return true;
      }
      Accepted(clk);
      done := (clk > 0 && clk < nextCy) || fill >= 2;
    }

    lemma FeedUnfolds(t: Round, clk: nat, n: nat)
      requires Fits(t.player.queue)
      ensures n == 0 || t.done ==> Feed(disc, t, clk, n) == t
      ensures n > 0 && !t.done ==> Feed(disc, t, clk, n) == Feed(disc, FeedOne(disc, t.player, clk), clk, n - 1)
    {
    }

    // The feeding loop and its budget.
    method FeedSectors(clk: nat)
      requires Valid() && playing && cddaPlay
      modifies this, ring, ring.cdda
      ensures Valid() && Model() == Feed(disc, Round(old(Model()), false), clk, SECTORS_PER_TICK).player
      ensures playing == cddaPlay && (PEND in hirq <==> PEND in old(hirq) || !playing)
    {
      hide Feed, FeedOne;
      var budget, done := SECTORS_PER_TICK, false;
      ghost var start := Round(Model(), false);
      while budget > 0 && !done
        invariant Valid() && (done || playing) && playing == cddaPlay
        invariant Feed(disc, start, clk, SECTORS_PER_TICK) == Feed(disc, Round(Model(), done), clk, budget)
        invariant PEND in hirq <==> PEND in old(hirq) || !playing
        decreases budget
      {
        FeedUnfolds(Round(Model(), done), clk, budget);
        budget := budget - 1;
        done := FeedSector(clk);
      }
      FeedUnfolds(Round(Model(), done), clk, budget);
    }

    method Latch(clk: nat)
      requires Valid()
      modifies `nextCy, `loopStart
      ensures Valid() && Model() == Latched(old(Model()), clk)
    {
      if nextCy == 0 {
        nextCy := clk;
        loopStart := fad;
      }
    }

    // `cdda_tick`
    method TickAudio(clk: nat)
      requires Valid()
      modifies this, ring, ring.cdda
      ensures Valid() && Model() == AudioTick(disc, old(Model()), clk)
      ensures PEND in hirq <==> PEND in old(hirq) || (old(playing && cddaPlay) && !playing)
    {
      hide Feed;
      if !cddaPlay || !playing {
        nextCy := 0;
        return;
      }
      Latch(clk);
      if clk > 0 && clk < nextCy {
        return;
      }
      FeedSectors(clk);
    }

    // One output sample of the mixer.
    method MixFrame() returns (left: int, right: int)
      requires Valid()
      modifies `out, ring
      ensures Valid() && Model() == Mixed(old(Model()))
      ensures Frame(left, right) == if |out| > |old(out)| then out[|old(out)|] else Frame(0, 0)
    {
      hide Drain;
      ghost var frames;
      left, right, frames := ring.TakeFrame();
      out := out + frames;
    }
  }
}
