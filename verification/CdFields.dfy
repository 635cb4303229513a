// CD audio in regular operation: one tick a field, with output samples mixed in
// between.
module CdFields {
  import opened CdStream
  import opened CdAudio
  import opened CdPace

  // The machine time of one field.
  const FIELD_CYCLES: nat := 263 * 1820

  function Mixes(n: nat): (r: seq<AudioStep>)
    decreases n
  {
    if n == 0 then [] else [Mix] + Mixes(n - 1)
  }

  // A tick a field, the first at `c`, with mixes[i] output samples after tick i.
  function Fields(c: nat, mixes: seq<nat>): (r: seq<AudioStep>)
    decreases |mixes|
  {
    if mixes == [] then [] else [ClockTick(c)] + Mixes(mixes[0]) + Fields(c + FIELD_CYCLES, mixes[1..])
  }

  // ---------------------------------------------------------- the schedule

  // How many sectors have gone out with n ticks: those whose time has come by the last.
  function Sectors(n: nat): nat { if n == 0 then 0 else (n - 1) * FIELD_CYCLES / SECTOR_CYCLES + 1 }

  // The tick that sends sector k: the first at or after its time.
  function TickOf(k: nat): nat { (k * SECTOR_CYCLES + FIELD_CYCLES - 1) / FIELD_CYCLES }

  lemma SectorsOfTick(i: nat)
    ensures Sectors(i) + 1 <= Sectors(i + 1) <= Sectors(i) + 2
    ensures i > 0 ==> Sectors(i) * SECTOR_CYCLES > (i - 1) * FIELD_CYCLES
    ensures Sectors(i) * SECTOR_CYCLES <= i * FIELD_CYCLES < Sectors(i + 1) * SECTOR_CYCLES
    ensures i * FIELD_CYCLES >= (Sectors(i + 1) - 1) * SECTOR_CYCLES
  {
  }

  lemma TickOfSector(i: nat, k: nat)
    requires Sectors(i) <= k < Sectors(i + 1)
    ensures TickOf(k) == i
  {
    SectorsOfTick(i);
  }

  lemma TicksOnTime(n: nat)
    ensures n > 0 ==> (Sectors(n) - 1) * 381818 <= (n - 1) * 478660 < Sectors(n) * 381818
    ensures forall k: nat :: k * 381818 <= TickOf(k) * FIELD_CYCLES < k * 381818 + 478660
    ensures forall k: nat :: TickOf(k) * FIELD_CYCLES % 478660 == 0
  {
  }

  // ------------------------------------------------------------- the queue

  // The samples mixed before tick i.
  function Samples(mixes: seq<nat>, i: nat): nat
    requires i <= |mixes|
  {
    if i == 0 then 0 else Samples(mixes, i - 1) + mixes[i - 1]
  }

  // The most the queue can hold without being drained: what has been sent, or what
  // makes it ready.
  function Idle(j: nat): nat { if Sectors(j) < 4 then Sectors(j) * RAW_BYTES else 4 * RAW_BYTES }

  // The most it holds before tick i if it was last not being drained before tick j.
  function Level(mixes: seq<nat>, j: nat, i: nat): int
    requires j <= i <= |mixes|
  {
    Idle(j) + (Sectors(i) - Sectors(j)) * RAW_BYTES - 4 * (Samples(mixes, i) - Samples(mixes, j))
  }

  // Before tick i the queue has room for a sector below high water, however it came
  // to be drained.
  predicate Low(mixes: seq<nat>, i: nat)
    requires i <= |mixes|
  {
    forall j | 0 <= j <= i :: Level(mixes, j, i) + RAW_BYTES < HIGH_WATER
  }

  // ------------------------------------------------------------ the player

  // The disc has audio on `total` sectors from `start` on, and the range has them.
  ghost predicate Playable(disc: AudioDisc, playEnd: nat, start: nat, total: nat) {
    && (playEnd == 0 || start + total <= playEnd)
    && forall n | start <= n < start + total :: disc(LbaOf(n)).Raw?
  }

  // Sector k went out in order, by the first tick at or after its time.
  predicate OnSchedule(log: seq<Sent>, c: nat, start: nat) {
    forall k | 0 <= k < |log| :: log[k].fad == start + k && log[k].clk == c + TickOf(k) * FIELD_CYCLES
  }

  // The player once m sectors have gone out.
  ghost predicate Fed(disc: AudioDisc, d: Player, c: nat, start: nat, total: nat, m: nat) {
    && d.playing && d.cddaPlay && c > 0 && d.nextCy == c + m * SECTOR_CYCLES && m <= total
    && |d.log| == m && d.fad == start + m && Fits(d.queue) && OnSchedule(d.log, c, start)
    && Playable(disc, d.playEnd, start, total) && (!d.queue.ready ==> |d.queue.held| < 4 * RAW_BYTES)
  }

  lemma FedSends(disc: AudioDisc, d: Player, clk: nat, c: nat, start: nat, total: nat, m: nat)
    requires Fed(disc, d, c, start, total, m) && m < total && |d.queue.held| + RAW_BYTES < RING
    requires clk == c + TickOf(m) * FIELD_CYCLES
    ensures HasNext(disc, d) && Room(d.queue) && !Out(d)
    ensures var a := AfterSend(disc, d, clk);
            Fed(disc, a, c, start, total, m + 1) && |a.queue.held| == |d.queue.held| + RAW_BYTES
  {
    hide TickOf;
  }

  // Tick i, with the queue low.
  lemma FieldTick(disc: AudioDisc, d: Player, i: nat, c: nat, start: nat, total: nat) returns (r: Player)
    requires Fed(disc, d, c, start, total, Sectors(i)) && Sectors(i + 1) <= total
    requires |d.queue.held| + RAW_BYTES < HIGH_WATER
    ensures r == AudioTick(disc, d, c + i * FIELD_CYCLES) && Fed(disc, r, c, start, total, Sectors(i + 1))
    ensures |r.queue.held| == |d.queue.held| + (Sectors(i + 1) - Sectors(i)) * RAW_BYTES
  {
    SectorsOfTick(i);
    var m, clk := Sectors(i), c + i * FIELD_CYCLES;
    TickOfSector(i, m);
    hide HasNext, AfterSend, FeedOne, Sectors, TickOf, Playable, OnSchedule;
    FedSends(disc, d, clk, c, start, total, m);
    FeedsFirst(disc, d, clk, SECTORS_PER_TICK);
    r := AfterSend(disc, d, clk);
    if Sectors(i + 1) == m + 2 {
      TickOfSector(i, m + 1);
      var a := r;
      assert !Pauses(a, clk);
      FedSends(disc, a, clk, c, start, total, m + 1);
      FeedsFirst(disc, a, clk, SECTORS_PER_TICK - 1);
      r := AfterSend(disc, a, clk);
    }
    assert Pauses(r, clk);
  }

  // What n samples take out of the queue.
  lemma {:induction false} FieldMixes(disc: AudioDisc, d: Player, n: nat, c: nat, start: nat, total: nat, m: nat)
    requires Fed(disc, d, c, start, total, m)
    ensures var r, held := RunAudio(disc, d, Mixes(n)), |d.queue.held|;
            && Fed(disc, r, c, start, total, m)
            && |r.queue.held| == (if !d.queue.ready then held else if held >= 4 * n then held - 4 * n else 0)
    decreases n
  {
    hide Playable, OnSchedule;
    if n > 0 {
      assert Mixes(n)[1..] == Mixes(n - 1);
      MixTakes(d.queue);
      FieldMixes(disc, Mixed(d), n - 1, c, start, total, m);
    }
  }

  lemma MixTakes(q: Queue)
    requires Fits(q)
    ensures var r := Drain(q).queue;
            && (!q.ready ==> r == q)
            && (q.ready ==> r.ready == (q.held != []) && |r.held| == if q.held == [] then 0 else |q.held| - 4)
  {
  }

  // ------------------------------------------------------------- whole runs

  lemma {:induction false} RunAppends(disc: AudioDisc, d: Player, a: seq<AudioStep>, b: seq<AudioStep>)
    requires Fits(d.queue)
    ensures RunAudio(disc, d, a + b) == RunAudio(disc, RunAudio(disc, d, a), b)
    decreases |a|
  {
    hide NextAudio;
    if a == [] {
      assert a + b == b;
    } else {
      assert (a + b)[1..] == a[1..] + b;
      RunAppends(disc, NextAudio(disc, d, a[0]), a[1..], b);
    }
  }

  lemma RunField(disc: AudioDisc, d: Player, c: nat, mixes: seq<nat>)
    requires Fits(d.queue) && mixes != []
    ensures RunAudio(disc, d, Fields(c, mixes)) ==
            RunAudio(disc, RunAudio(disc, AudioTick(disc, d, c), Mixes(mixes[0])), Fields(c + FIELD_CYCLES, mixes[1..]))
  {
    hide AudioTick;
    var rest := Mixes(mixes[0]) + Fields(c + FIELD_CYCLES, mixes[1..]);
    assert Fields(c, mixes) == [ClockTick(c)] + rest && ([ClockTick(c)] + rest)[1..] == rest;
    RunAppends(disc, AudioTick(disc, d, c), Mixes(mixes[0]), Fields(c + FIELD_CYCLES, mixes[1..]));
  }

  // The level after one more field, and where to count it from.
  lemma LevelNext(mixes: seq<nat>, j: nat, i: nat, held: nat, ready: bool, held': nat) returns (j': nat)
    requires j <= i < |mixes| && held <= Sectors(i) * RAW_BYTES && held <= Level(mixes, j, i)
    requires var full: int := held + (Sectors(i + 1) - Sectors(i)) * RAW_BYTES;
             && held' == (if !ready then full else if full >= 4 * mixes[i] then full - 4 * mixes[i] else 0)
             && (!ready ==> full < 4 * RAW_BYTES)
    ensures j' <= i + 1 && held' <= Sectors(i + 1) * RAW_BYTES && held' <= Level(mixes, j', i + 1)
  {
    hide Sectors;
    j' := if ready && held' > 0 then j else i + 1;
  }

  // From tick i on; the queue was last not being drained before tick j.
  lemma {:induction false} FieldsFrom(disc: AudioDisc, d: Player, i: nat, j: nat, mixes: seq<nat>, c: nat, start: nat,
                                      total: nat)
    requires j <= i <= |mixes| && Fed(disc, d, c, start, total, Sectors(i)) && Sectors(|mixes|) <= total
    requires |d.queue.held| <= Sectors(i) * RAW_BYTES && |d.queue.held| <= Level(mixes, j, i)
    requires forall k | 0 <= k < |mixes| :: Low(mixes, k)
    ensures Fed(disc, RunAudio(disc, d, Fields(c + i * FIELD_CYCLES, mixes[i..])), c, start, total, Sectors(|mixes|))
    decreases |mixes| - i
  {
    hide AudioTick, RunAudio, Fields, Mixes, Sectors, OnSchedule, Playable;
    if i < |mixes| {
      assert Low(mixes, i) && Level(mixes, j, i) + RAW_BYTES < HIGH_WATER;
      SectorsGrow(i + 1, |mixes|);
      RunField(disc, d, c + i * FIELD_CYCLES, mixes[i..]);
      assert mixes[i..][0] == mixes[i] && mixes[i..][1..] == mixes[i + 1..];
      var r := FieldTick(disc, d, i, c, start, total);
      FieldMixes(disc, r, mixes[i], c, start, total, Sectors(i + 1));
      hide Fed, Level, Low;
      var q := RunAudio(disc, r, Mixes(mixes[i]));
      var j' := LevelNext(mixes, j, i, |d.queue.held|, r.queue.ready, |q.queue.held|);
      FieldsFrom(disc, q, i + 1, j', mixes, c, start, total);
    } else {
      assert mixes[i..] == [];
      RunNone(disc, d, c + i * FIELD_CYCLES);
    }
  }

  lemma SectorsGrow(i: nat, j: nat)
    requires i <= j
    ensures Sectors(i) <= Sectors(j)
  {
  }

  lemma RunNone(disc: AudioDisc, d: Player, c: nat)
    requires Fits(d.queue)
    ensures RunAudio(disc, d, Fields(c, [])) == d
  {
  }

  lemma LatchedTick(disc: AudioDisc, d: Player, clk: nat)
    requires Fits(d.queue) && d.playing && d.cddaPlay && clk > 0
    ensures AudioTick(disc, Latched(d, clk), clk) == AudioTick(disc, d, clk)
  {
  }

  // A play that starts with an empty queue, and has audio for the fields it runs.
  ghost predicate Starts(disc: AudioDisc, d: Player, total: nat) {
    && d.playing && d.cddaPlay && d.nextCy == 0 && d.log == [] && d.queue.held == []
    && Playable(disc, d.playEnd, d.fad, total)
  }

  lemma FieldsSent(disc: AudioDisc, d: Player, c: nat, mixes: seq<nat>)
    requires c > 0 && Starts(disc, d, Sectors(|mixes|)) && forall i | 0 <= i < |mixes| :: Low(mixes, i)
    ensures var log := RunAudio(disc, d, Fields(c, mixes)).log;
            |log| == Sectors(|mixes|) && OnSchedule(log, c, d.fad)
  {
    if mixes == [] {
      RunNone(disc, d, c);
    } else {
      var l, total := Latched(d, c), Sectors(|mixes|);
      assert mixes[0..] == mixes;
      LatchedTick(disc, d, c);
      RunField(disc, d, c, mixes);
      RunField(disc, l, c, mixes);
      hide AudioTick, RunAudio, Fields, Mixes, Playable;
      FieldsFrom(disc, l, 0, 0, mixes, c, d.fad, total);
    }
  }

  // Ticked once a field, a play has sent exactly the sectors whose time has come,
  // each by the first tick at or after it, as long as the queue stays low and
  // the range and its audio last.
  lemma FieldSchedule(disc: AudioDisc, d: Player, c: nat, mixes: seq<nat>)
    requires c > 0 && Starts(disc, d, Sectors(|mixes|)) && forall i | 0 <= i < |mixes| :: Low(mixes, i)
    ensures var log := RunAudio(disc, d, Fields(c, mixes)).log;
            && (mixes != [] ==> (|log| - 1) * 381818 <= (|mixes| - 1) * 478660 < |log| * 381818)
            && forall k | 0 <= k < |log| ::
                 && log[k].fad == d.fad + k && (log[k].clk - c) % 478660 == 0
                 && c + k * 381818 <= log[k].clk < c + k * 381818 + 478660
  {
    hide RunAudio, Fields, Sectors, TickOf, Low;
    FieldsSent(disc, d, c, mixes);
    TicksOnTime(|mixes|);
  }

  // A mixer that takes 738 samples a field keeps the queue low for ever.
  lemma SteadyMixing(mixes: seq<nat>, i: nat)
    requires i <= |mixes| && forall k | 0 <= k < |mixes| :: mixes[k] >= 738
    ensures Low(mixes, i)
  {
    hide Samples, Sectors;
    forall j | 0 <= j <= i
      ensures Level(mixes, j, i) + RAW_BYTES < HIGH_WATER
    {
      SamplesGrow(mixes, j, i);
      SectorsBetween(j, i);
    }
  }

  lemma {:induction false} SamplesGrow(mixes: seq<nat>, j: nat, i: nat)
    requires j <= i <= |mixes| && forall k | 0 <= k < |mixes| :: mixes[k] >= 738
    ensures Samples(mixes, i) - Samples(mixes, j) >= 738 * (i - j)
    decreases i
  {
    if j < i {
      SamplesGrow(mixes, j, i - 1);
    }
  }

  lemma SectorsBetween(j: nat, i: nat)
    requires j <= i
    ensures (Sectors(i) - Sectors(j)) * SECTOR_CYCLES <= (i - j) * FIELD_CYCLES + SECTOR_CYCLES
  {
  }

  // So such a play keeps its sectors a sector time apart for four fields, and no
  // longer.
  lemma FourFieldsSpaced(disc: AudioDisc, d: Player, c: nat, mixes: seq<nat>)
    requires c > 0 && Starts(disc, d, Sectors(|mixes|)) && forall i | 0 <= i < |mixes| :: Low(mixes, i)
    ensures Spaced(RunAudio(disc, d, Fields(c, mixes)).log) <==> |mixes| <= 4
  {
    hide RunAudio, Fields, Low;
    FieldsSent(disc, d, c, mixes);
    var log := RunAudio(disc, d, Fields(c, mixes)).log;
    if |mixes| > 4 {
      SectorsGrow(5, |mixes|);
      assert log[5].clk == log[4].clk;
    }
  }

  // In regular operation, whatever is mixed in between, the fifth tick of a play
  // from an empty queue hands over two sectors at once.
  lemma SectorsBunchUp(disc: AudioDisc, d: Player, c: nat, mixes: seq<nat>)
    requires c > 0 && |mixes| == 5 && Starts(disc, d, 6)
    ensures var log := RunAudio(disc, d, Fields(c, mixes)).log;
            |log| == 6 && log[4].clk == log[5].clk && !Spaced(log)
  {
    forall i | 0 <= i < 5
      ensures Low(mixes, i)
    {
      FewSectors(mixes, i);
    }
    hide RunAudio, Fields;
    FieldsSent(disc, d, c, mixes);
  }

  lemma FewSectors(mixes: seq<nat>, i: nat)
    requires i <= |mixes| && i < 5
    ensures Low(mixes, i)
  {
    hide Samples;
    forall j | 0 <= j <= i
      ensures Level(mixes, j, i) + RAW_BYTES < HIGH_WATER
    {
      SamplesMonotone(mixes, j, i);
    }
  }

  lemma {:induction false} SamplesMonotone(mixes: seq<nat>, j: nat, i: nat)
    requires j <= i <= |mixes|
    ensures Samples(mixes, j) <= Samples(mixes, i)
    decreases i
  {
    if j < i {
      SamplesMonotone(mixes, j, i - 1);
    }
  }
}
