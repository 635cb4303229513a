// How many data sectors one tick brings in, and how far apart they come.
module CdDrivePace {
  import opened CdSelector
  import opened CdStream

  // ------------------------------------------------------------- one tick

  // The next round brings a sector in: the range has not run out, the partition
  // looked at and the one routed to have room, and the disc can be read.
  predicate Arrives(disc: Disc, t: Turn)
    requires Ready(t.drive) && t.p < NUM_PARTS
  {
    var d := t.drive;
    && (d.playEnd == 0 || d.fad < d.playEnd) && |d.contents[t.p]| < 512
    && match disc(LbaOf(d.fad))
       case Unreadable => false
       case Sector(data, sub) =>
         var dest := Route(d.filters, d.conn, sub, d.fad);
         RouteInRange(d.filters, d.conn, sub, d.fad);
         dest < 0 || |d.contents[dest]| < 512
  }

  // So do the next k rounds.
  predicate ArriveAll(disc: Disc, t: Turn, clk: nat, k: nat)
    requires Ready(t.drive) && t.p < NUM_PARTS
    decreases k
  {
    k == 0 || (Arrives(disc, t) && ArriveAll(disc, StreamOne(disc, t, clk), clk, k - 1))
  }

  // The log has grown by `n` sectors, all at `clk`.
  predicate GrownAt(log: seq<Arrival>, log': seq<Arrival>, clk: nat, n: nat) {
    && |log'| == |log| + n && log <= log'
    && forall k | |log| <= k < |log'| :: log'[k].clk == clk
  }

  lemma RoundCounts(disc: Disc, t: Turn, clk: nat)
    requires Ready(t.drive) && t.p < NUM_PARTS
    ensures var r := StreamOne(disc, t, clk);
            && |r.drive.log| == |t.drive.log| + (if Arrives(disc, t) then 1 else 0)
            && GrownAt(t.drive.log, r.drive.log, clk, |r.drive.log| - |t.drive.log|)
            && (r.done <==> !Arrives(disc, t))
  {
    hide Route;
  }

  lemma {:induction false} StreamCounts(disc: Disc, t: Turn, clk: nat, n: nat)
    requires Ready(t.drive) && t.p < NUM_PARTS
    ensures var log, log' := t.drive.log, Stream(disc, t, clk, n).drive.log;
            |log'| >= |log| && GrownAt(log, log', clk, |log'| - |log|)
    ensures t.done ==> Stream(disc, t, clk, n) == t
    decreases n
  {
    hide StreamOne, Arrives, GrownAt;
    if n > 0 && !t.done {
      var r := StreamOne(disc, t, clk);
      RoundCounts(disc, t, clk);
      StreamCounts(disc, r, clk, n - 1);
      GrowthAdds(t.drive.log, r.drive.log, Stream(disc, t, clk, n).drive.log, clk);
    } else {
      NoGrowth(t.drive.log, clk);
    }
  }

  lemma NoGrowth(log: seq<Arrival>, clk: nat)
    ensures GrownAt(log, log, clk, 0)
  {
  }

  lemma GrowthAdds(a: seq<Arrival>, b: seq<Arrival>, c: seq<Arrival>, clk: nat)
    requires |a| <= |b| <= |c| && GrownAt(a, b, clk, |b| - |a|) && GrownAt(b, c, clk, |c| - |b|)
    ensures GrownAt(a, c, clk, |c| - |a|)
  {
  }

  lemma {:induction false} StreamBrings(disc: Disc, t: Turn, clk: nat, n: nat, k: nat)
    requires Ready(t.drive) && t.p < NUM_PARTS && !t.done && k > 0
    ensures |Stream(disc, t, clk, n).drive.log| >= |t.drive.log| + k <==> k <= n && ArriveAll(disc, t, clk, k)
    decreases n
  {
    hide StreamOne, Arrives, GrownAt;
    if n > 0 {
      var r := StreamOne(disc, t, clk);
      RoundCounts(disc, t, clk);
      StreamCounts(disc, r, clk, n - 1);
      if k > 1 && !r.done {
        StreamBrings(disc, r, clk, n - 1, k - 1);
      }
    }
  }

  // What comes in does not depend on the drive clock.
  lemma {:induction false} ArriveIgnoresClock(disc: Disc, t: Turn, clk: nat, k: nat, next: nat)
    requires Ready(t.drive) && t.p < NUM_PARTS
    ensures var u := t.(drive := t.drive.(driveNext := next));
            Ready(u.drive) && (ArriveAll(disc, u, clk, k) <==> ArriveAll(disc, t, clk, k))
    decreases k
  {
    hide Route;
    if k > 0 && Arrives(disc, t) {
      var u := t.(drive := t.drive.(driveNext := next));
      var r := StreamOne(disc, t, clk);
      assert StreamOne(disc, u, clk) == r.(drive := r.drive.(driveNext := next));
      ArriveIgnoresClock(disc, r, clk, k - 1, next);
    }
  }

  lemma QuotaIs(first: nat, per: nat, clk: nat, n: nat, k: nat)
    requires k > 0
    ensures Tokens(first, per, clk, n) >= k <==> k <= n && Due(first, per, k - 1) <= clk
  {
    hide Tokens, Due;
    var q := Tokens(first, per, clk, n);
    TokensAreDue(first, per, clk, n);
    if q < k {
      DueGrows(first, per, q, k - 1);
    }
  }

  // A tick at `clk` brings in k sectors or more: that many are due by the drive
  // clock, at most sixteen, and nothing stops the stream before.
  predicate Brings(disc: Disc, d: Drive, clk: nat, k: nat)
    requires Ready(d) && TickSafe(d) && k > 0
  {
    && Streams(d) && k <= 16 && Due(FirstDue(d, clk), Period(d), k - 1) <= clk
    && ArriveAll(disc, Turn(d, d.conn, false), clk, k)
  }

  lemma DataTickCount(disc: Disc, d: Drive, clk: nat, k: nat)
    requires Ready(d) && TickSafe(d) && k > 0
    ensures var log' := Ticked(disc, d, clk).log;
            && |log'| >= |d.log| && GrownAt(d.log, log', clk, |log'| - |d.log|)
            && (|log'| >= |d.log| + k <==> Brings(disc, d, clk, k))
  {
    hide Stream, ArriveAll, Tokens, Due;
    if Streams(d) {
      var c := Charged(d, clk);
      var t := Turn(c, d.conn, false);
      StreamCounts(disc, t, clk, Quota(d, clk));
      StreamBrings(disc, t, clk, Quota(d, clk), k);
      QuotaIs(FirstDue(d, clk), Period(d), clk, SECTORS_PER_TICK, k);
      ArriveIgnoresClock(disc, Turn(d, d.conn, false), clk, k, c.driveNext);
    }
  }

  // ---------------------------------------------------------- an idle drive

  // The power-on selector sends what can be read to the connection's partition.
  lemma {:induction false} PowerOnArrives(disc: Disc, t: Turn, clk: nat, k: nat)
    requires Ready(t.drive) && t.p < NUM_PARTS && t.p == t.drive.conn && t.drive.filters == POWER_ON
    requires |t.drive.contents[t.p]| + k <= PART_SECTORS
    requires t.drive.playEnd == 0 || t.drive.fad + k <= t.drive.playEnd
    requires forall n | t.drive.fad <= n < t.drive.fad + k :: disc(LbaOf(n)).Sector?
    ensures ArriveAll(disc, t, clk, k)
    decreases k
  {
    hide Route;
    if k > 0 {
      assert disc(LbaOf(t.drive.fad)).Sector?;
      ResetDeliversToOwnPartition(t.drive.conn, disc(LbaOf(t.drive.fad)).sub, t.drive.fad);
      PowerOnArrives(disc, StreamOne(disc, t, clk), clk, k - 1);
    }
  }

  lemma DueAt(first: nat, per: nat, i: nat)
    ensures Due(first, per, i) == first + i * per
  {
  }

  // The drive keeps its clock between plays: fifteen periods after it was last
  // due, the first tick of a new play brings in sixteen sectors at once.
  lemma IdleDriveBursts(disc: Disc, d: Drive, startLba: nat, want: nat, clk: nat)
    requires Ready(d) && d.conn < NUM_PARTS && d.filters == POWER_ON && d.contents == NoneTaken() && want >= 16
    requires forall n | startLba <= n < startLba + 16 :: disc(n).Sector?
    requires d.driveNext > 0 && clk >= d.driveNext + 15 * (381818 / (if d.readSpeed == 0 then 2 else d.readSpeed))
    ensures var log := Ticked(disc, Played(d, startLba, want), clk).log;
            |log| == 16 && forall k | 0 <= k < 16 :: log[k].clk == clk
  {
    hide Ticked, ArriveAll, Due;
    var p := Played(d, startLba, want);
    DueAt(d.driveNext, Period(d), 15);
    assert forall n | p.fad <= n < p.fad + 16 :: LbaOf(n) == n - FAD_BASE && disc(LbaOf(n)).Sector?;
    PowerOnArrives(disc, Turn(p, p.conn, false), clk, 16);
    DataTickCount(disc, p, clk, 16);
    DataTickCount(disc, p, clk, 17);
  }

  // ------------------------------------------------------------- whole runs

  predicate Spaced(log: seq<Arrival>, per: nat) {
    forall k | 0 < k < |log| :: log[k].clk >= log[k - 1].clk + per
  }

  predicate OnTime(disc: Disc, d: Drive, clk: nat)
    requires Ready(d) && TickSafe(d)
  {
    Brings(disc, d, clk, 1) ==>
      !Brings(disc, d, clk, 2) && (d.log == [] || clk >= d.log[|d.log| - 1].clk + Period(d))
  }

  predicate AllOnTime(disc: Disc, d: Drive, steps: seq<Step>)
    requires Ready(d) && Safe(disc, d, steps)
    decreases |steps|
  {
    steps == [] ||
    (&& (steps[0].Tick? ==> OnTime(disc, d, steps[0].clk))
     && AllOnTime(disc, Next(disc, d, steps[0]), steps[1..]))
  }

  lemma SpacedGrows(log: seq<Arrival>, log': seq<Arrival>, clk: nat, n: nat, per: nat)
    requires GrownAt(log, log', clk, n) && per > 0
    ensures Spaced(log', per) <==>
            Spaced(log, per) && (n == 0 || (n == 1 && (log == [] || clk >= log[|log| - 1].clk + per)))
  {
    assert forall k | 0 <= k < |log| :: log'[k] == log[k];
    if n > 0 && log != [] {
      assert log'[|log|].clk == clk && log'[|log| - 1] == log[|log| - 1];
    }
    if n > 1 {
      assert log'[|log| + 1].clk == log'[|log|].clk;
    }
  }

  // For every run: its sectors are a drive period apart if and only if each tick
  // brings in none, or only one and a period after the last.
  lemma {:induction false} DataSpacedIff(disc: Disc, d: Drive, steps: seq<Step>)
    requires Ready(d) && Safe(disc, d, steps) && Period(d) > 0
    ensures Spaced(Run(disc, d, steps).log, Period(d)) <==> Spaced(d.log, Period(d)) && AllOnTime(disc, d, steps)
    decreases |steps|
  {
    hide Ticked, Brings, Deleted, Emptied, Spaced, Period;
    if steps != [] {
      var n := Next(disc, d, steps[0]);
      NextConn(disc, d, steps[0]);
      SamePeriod(d, n);
      if steps[0].Tick? {
        var clk := steps[0].clk;
        DataTickCount(disc, d, clk, 1);
        DataTickCount(disc, d, clk, 2);
        SpacedGrows(d.log, n.log, clk, |n.log| - |d.log|, Period(d));
      }
      DataSpacedIff(disc, n, steps[1..]);
    }
  }

  lemma SamePeriod(d: Drive, n: Drive)
    requires n.readSpeed == d.readSpeed
    ensures Period(n) == Period(d)
  {
  }
}
