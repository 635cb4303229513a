// The data drive as a state machine: sectors stream off the disc into
// partitions, the host takes slices out of them.
module CdStream {
  import opened CdSelector
  import opened Words

  const PART_SECTORS: nat := 512
  const SECTORS_PER_TICK: nat := 16
  const SECTOR_CYCLES: nat := 381818
  const FAD_BASE: nat := 150

  type Sector = s: seq<U8> | |s| == 2048 witness seq(2048, i => 0)

  // `read_sector_sub` for one logical block.
  datatype SectorRead = Unreadable | Sector(data: Sector, sub: Subheader)
  type Disc = nat -> SectorRead

  function LbaOf(fad: nat): nat { if fad >= FAD_BASE then fad - FAD_BASE else 0 }

  // A sector that came off the disc, the partition it was routed to, the
  // selector that was in force and the machine time of the tick.
  datatype Arrival = Arrival(fad: nat, dest: int, filters: Filters, conn: nat, clk: nat)

  // `contents[p]` are the frame addresses in partition p; `log` and `taken`
  // record what has come in and gone out since the play was commanded. The
  // next sector is due at `driveNext`; 0 says that no time has been taken yet.
  datatype Drive = Drive(
    contents: seq<seq<nat>>, fad: nat, playing: bool, cddaPlay: bool, playEnd: nat,
    conn: nat, filters: Filters, driveNext: nat, readSpeed: nat, log: seq<Arrival>, taken: seq<seq<nat>>)

  predicate Ready(d: Drive) {
    && |d.contents| == |d.taken| == NUM_PARTS
    && forall p | 0 <= p < NUM_PARTS :: |d.contents[p]| <= PART_SECTORS
  }

  // ------------------------------------------------------ the drive tick

  // `p` is the partition the room test looks at: the connection at first,
  // then wherever the last sector went.
  datatype Turn = Turn(drive: Drive, p: nat, done: bool)

  function StreamOne(disc: Disc, t: Turn, clk: nat): (r: Turn)
    requires Ready(t.drive) && t.p < NUM_PARTS
    ensures Ready(r.drive) && r.p < NUM_PARTS
  {
    var d := t.drive;
    if d.playEnd != 0 && d.fad >= d.playEnd then Turn(d.(playing := false, playEnd := 0), t.p, true)
    else if |d.contents[t.p]| >= PART_SECTORS then Turn(d, t.p, true)
    else
      match disc(LbaOf(d.fad))
      case Unreadable => Turn(d.(playing := false), t.p, true)
      case Sector(data, sub) =>
        var dest := Route(d.filters, d.conn, sub, d.fad);
        RouteInRange(d.filters, d.conn, sub, d.fad);
        var log := d.log + [Arrival(d.fad, dest, d.filters, d.conn, clk)];
        if dest < 0 then Turn(d.(fad := d.fad + 1, log := log), t.p, false)
        else if |d.contents[dest]| >= PART_SECTORS then Turn(d, dest, true)
        else Turn(d.(contents := d.contents[dest := d.contents[dest] + [d.fad]], fad := d.fad + 1, log := log),
                  dest, false)
  }

  function Stream(disc: Disc, t: Turn, clk: nat, n: nat): (r: Turn)
    requires Ready(t.drive) && t.p < NUM_PARTS
    ensures Ready(r.drive)
    decreases n
  {
    if n == 0 || t.done then t else Stream(disc, StreamOne(disc, t, clk), clk, n - 1)
  }

  // The tick looks up the connected partition whenever a data play is on; a
  // disconnected drive has none.
  predicate TickSafe(d: Drive) { !d.playing || d.cddaPlay || d.conn < NUM_PARTS }

  predicate Streams(d: Drive)
    requires Ready(d) && TickSafe(d)
  {
    d.playing && !d.cddaPlay && |d.contents[d.conn]| < PART_SECTORS
  }

  // The time of one sector at the read speed.
  function Period(d: Drive): nat { SECTOR_CYCLES / (if d.readSpeed == 0 then 2 else d.readSpeed) }

  // When the i-th sector from `first` is due.
  function Due(first: nat, per: nat, i: nat): nat { first + i * per }

  // How many sectors, of at most n, are due by `clk`.
  function Tokens(first: nat, per: nat, clk: nat, n: nat): (q: nat)
    ensures q <= n
    decreases n
  {
    if n == 0 || first > clk then 0 else 1 + Tokens(first + per, per, clk, n - 1)
  }

  function FirstDue(d: Drive, clk: nat): nat { if d.driveNext == 0 then clk else d.driveNext }

  function Quota(d: Drive, clk: nat): nat { Tokens(FirstDue(d, clk), Period(d), clk, SECTORS_PER_TICK) }

  // The drive once it has counted what is due.
  function Charged(d: Drive, clk: nat): (r: Drive)
    requires Ready(d)
    ensures Ready(r)
  {
    d.(driveNext := Due(FirstDue(d, clk), Period(d), Quota(d, clk)))
  }

  function Ticked(disc: Disc, d: Drive, clk: nat): (r: Drive)
    requires Ready(d) && TickSafe(d)
    ensures Ready(r)
  {
    if Streams(d) then Stream(disc, Turn(Charged(d, clk), d.conn, false), clk, Quota(d, clk)).drive else d
  }

  // ------------------------------------------------------- host commands

  function ClampOffset(d: Drive, p: nat, off: nat): (o: nat)
    requires Ready(d) && p < NUM_PARTS
    ensures o <= |d.contents[p]|
  {
    if off > |d.contents[p]| then |d.contents[p]| else off
  }

  function ClampCount(d: Drive, p: nat, off: nat, cnt: nat): (c: nat)
    requires Ready(d) && p < NUM_PARTS
    ensures ClampOffset(d, p, off) + c <= |d.contents[p]|
  {
    var o := ClampOffset(d, p, off);
    if o + cnt > |d.contents[p]| then |d.contents[p]| - o else cnt
  }

  function Slice(d: Drive, p: nat, off: nat, cnt: nat): seq<nat>
    requires Ready(d) && p < NUM_PARTS
  {
    var o := ClampOffset(d, p, off);
    d.contents[p][o..o + ClampCount(d, p, off, cnt)]
  }

  function Deleted(d: Drive, p: nat, off: nat, cnt: nat): (r: Drive)
    requires Ready(d) && p < NUM_PARTS
    ensures Ready(r)
  {
    var o := ClampOffset(d, p, off);
    var c := d.contents[p];
    d.(contents := d.contents[p := c[..o] + c[o + ClampCount(d, p, off, cnt)..]],
       taken := d.taken[p := d.taken[p] + Slice(d, p, off, cnt)])
  }

  datatype Step =
    | Tick(clk: nat)
    | GetSectors(p: nat, off: nat, cnt: nat)
    | DeleteSectors(p: nat, off: nat, cnt: nat)
    | GetThenDelete(p: nat, off: nat, cnt: nat)
    | Discard(p: nat)
    | DiscardAll
    | Program(filters: Filters, conn: nat)

  predicate ValidStep(s: Step) {
    match s
    case Tick(_) => true
    case DiscardAll => true
    case Program(_, _) => true
    case _ => s.p < NUM_PARTS
  }

  // Every partition emptied at once.
  function Emptied(d: Drive): (r: Drive)
    requires Ready(d)
    ensures Ready(r)
  {
    d.(contents := NoneTaken(),
       taken := seq(NUM_PARTS, p requires 0 <= p < NUM_PARTS && Ready(d) => d.taken[p] + d.contents[p]))
  }

  function Next(disc: Disc, d: Drive, s: Step): (r: Drive)
    requires Ready(d) && ValidStep(s) && (s.Tick? ==> TickSafe(d))
    ensures Ready(r)
  {
    match s
    case Tick(clk) => Ticked(disc, d, clk)
    case GetSectors(_, _, _) => d
    case DeleteSectors(p, off, cnt) => Deleted(d, p, off, cnt)
    case GetThenDelete(p, off, cnt) => Deleted(d, p, off, cnt)
    case Discard(p) => Deleted(d, p, 0, PART_SECTORS)
    case DiscardAll => Emptied(d)
    case Program(filters, conn) => d.(filters := filters, conn := conn)
  }

  // No tick of the run looks up a partition that does not exist.
  predicate Safe(disc: Disc, d: Drive, steps: seq<Step>)
    requires Ready(d)
    decreases |steps|
  {
    steps == [] ||
    (ValidStep(steps[0]) && (steps[0].Tick? ==> TickSafe(d)) && Safe(disc, Next(disc, d, steps[0]), steps[1..]))
  }

  function Run(disc: Disc, d: Drive, steps: seq<Step>): (r: Drive)
    requires Ready(d) && Safe(disc, d, steps)
    ensures Ready(r)
    decreases |steps|
  {
    if steps == [] then d else Run(disc, Next(disc, d, steps[0]), steps[1..])
  }

  function NoneTaken(): (r: seq<seq<nat>>)
    ensures |r| == NUM_PARTS && forall p | 0 <= p < NUM_PARTS :: r[p] == []
  {
    seq(NUM_PARTS, i => [])
  }

  // A data PlayDisc of `want` sectors, as the asynchronous drive takes it.
  function Played(d: Drive, startLba: nat, want: nat): (r: Drive)
    requires Ready(d)
    ensures Ready(r)
  {
    d.(fad := startLba + FAD_BASE, playing := true, cddaPlay := false, playEnd := startLba + FAD_BASE + want,
       log := [], taken := NoneTaken())
  }

  // ------------------------------------------------------ what runs keep

  function RoutedTo(log: seq<Arrival>, p: nat): seq<nat>
    decreases |log|
  {
    if log == [] then [] else
    var rest := RoutedTo(log[..|log| - 1], p);
    var a := log[|log| - 1];
    if a.dest == p then rest + [a.fad] else rest
  }

  lemma RoutedToAppend(log: seq<Arrival>, a: Arrival, p: nat)
    ensures RoutedTo(log + [a], p) == if a.dest == p then RoutedTo(log, p) + [a.fad] else RoutedTo(log, p)
  {
    assert (log + [a])[..|log|] == log;
  }

  // `part` is what is left of `whole` after deletions: its elements are some of
  // those of `whole`, in the same order, at the positions `at`.
  predicate Picks(part: seq<nat>, whole: seq<nat>, at: seq<nat>) {
    && |at| == |part|
    && (forall i | 0 <= i < |at| :: at[i] < |whole| && part[i] == whole[at[i]])
    && forall i, j | 0 <= i < j < |at| :: at[i] < at[j]
  }

  ghost predicate LeftOver(part: seq<nat>, whole: seq<nat>) { exists at :: Picks(part, whole, at) }

  lemma LeftOverWhole(s: seq<nat>)
    ensures LeftOver(s, s)
  {
    assert Picks(s, s, seq(|s|, i => i));
  }

  lemma LeftOverGrows(part: seq<nat>, whole: seq<nat>, x: nat)
    requires LeftOver(part, whole)
    ensures LeftOver(part + [x], whole + [x])
  {
    var at: seq<nat> :| Picks(part, whole, at);
    assert Picks(part + [x], whole + [x], at + [|whole|]);
  }

  lemma LeftOverShrinks(part: seq<nat>, whole: seq<nat>, i: nat, j: nat)
    requires LeftOver(part, whole) && i <= j <= |part|
    ensures LeftOver(part[..i] + part[j..], whole)
  {
    var at: seq<nat> :| Picks(part, whole, at);
    assert Picks(part[..i] + part[j..], whole, at[..i] + at[j..]);
  }

  // Every frame from the start of the play to the head came in once, in order,
  // and went where the selector in force said; the head stays inside the range.
  predicate InOrder(disc: Disc, d: Drive, start: nat, end: nat) {
    && start <= d.fad <= end && |d.log| == d.fad - start
    && forall k | 0 <= k < |d.log| ::
         && d.log[k].fad == start + k
         && var read := disc(LbaOf(start + k));
            read.Sector? && d.log[k].dest == Route(d.log[k].filters, d.log[k].conn, read.sub, start + k)
  }

  // A partition holds, in order, what it held before the play and what has
  // been routed to it since, less what the host has taken out; nothing is lost
  // and nothing appears twice.
  ghost predicate Conserved(d: Drive, before: seq<seq<nat>>)
    requires Ready(d) && |before| == NUM_PARTS
  {
    forall p | 0 <= p < NUM_PARTS :: ConservedAt(d, before, p)
  }

  ghost predicate ConservedAt(d: Drive, before: seq<seq<nat>>, p: nat)
    requires Ready(d) && |before| == NUM_PARTS && p < NUM_PARTS
  {
    && LeftOver(d.contents[p], before[p] + RoutedTo(d.log, p))
    && multiset(d.contents[p]) + multiset(d.taken[p]) == multiset(before[p] + RoutedTo(d.log, p))
  }

  // While playing, the commanded end stands; a stopped drive has either
  // reached it or met a sector it could not read.
  predicate Bounded(disc: Disc, d: Drive, end: nat) {
    if d.playing then d.playEnd == end else d.fad >= end || disc(LbaOf(d.fad)).Unreadable?
  }

  ghost predicate PlayInvariant(disc: Disc, d: Drive, before: seq<seq<nat>>, start: nat, end: nat)
    requires Ready(d) && |before| == NUM_PARTS
  {
    InOrder(disc, d, start, end) && Conserved(d, before) && Bounded(disc, d, end)
  }

  // A sector that goes to a partition, or nowhere, keeps the account of it.
  lemma ArrivalConserves(d: Drive, r: Drive, a: Arrival, before: seq<seq<nat>>)
    requires Ready(d) && Ready(r) && |before| == NUM_PARTS && Conserved(d, before)
    requires r.log == d.log + [a] && r.taken == d.taken
    requires r.contents == if 0 <= a.dest < NUM_PARTS then d.contents[a.dest := d.contents[a.dest] + [a.fad]]
                           else d.contents
    ensures Conserved(r, before)
  {
    hide LeftOver, RoutedTo;
    forall p | 0 <= p < NUM_PARTS
      ensures ConservedAt(r, before, p)
    {
      assert ConservedAt(d, before, p);
      RoutedToAppend(d.log, a, p);
      if a.dest == p {
        LeftOverGrows(d.contents[p], before[p] + RoutedTo(d.log, p), a.fad);
        assert before[p] + RoutedTo(r.log, p) == (before[p] + RoutedTo(d.log, p)) + [a.fad];
      }
    }
  }

  lemma SameConserves(d: Drive, r: Drive, before: seq<seq<nat>>)
    requires Ready(d) && Ready(r) && |before| == NUM_PARTS && Conserved(d, before)
    requires r.log == d.log && r.taken == d.taken && r.contents == d.contents
    ensures Conserved(r, before)
  {
    hide LeftOver, RoutedTo;
    forall p | 0 <= p < NUM_PARTS
      ensures ConservedAt(r, before, p)
    {
      assert ConservedAt(d, before, p);
    }
  }

  lemma StreamOneKeeps(disc: Disc, t: Turn, clk: nat, before: seq<seq<nat>>, start: nat, end: nat)
    requires Ready(t.drive) && t.p < NUM_PARTS && |before| == NUM_PARTS && end > 0
    requires PlayInvariant(disc, t.drive, before, start, end) && t.drive.playing && !t.done
    ensures PlayInvariant(disc, StreamOne(disc, t, clk).drive, before, start, end)
    ensures StreamOne(disc, t, clk).done || StreamOne(disc, t, clk).drive.playing
  {
    hide Route, Conserved;
    var d, r := t.drive, StreamOne(disc, t, clk).drive;
    if r.fad != d.fad {
      var a := r.log[|r.log| - 1];
      assert r.log == d.log + [a];
      ArrivalConserves(d, r, a, before);
    } else {
      SameConserves(d, r, before);
    }
  }

  lemma {:induction false} StreamKeeps(disc: Disc, t: Turn, clk: nat, n: nat, before: seq<seq<nat>>,
                                       start: nat, end: nat)
    requires Ready(t.drive) && t.p < NUM_PARTS && |before| == NUM_PARTS && end > 0
    requires PlayInvariant(disc, t.drive, before, start, end) && (t.done || t.drive.playing)
    ensures PlayInvariant(disc, Stream(disc, t, clk, n).drive, before, start, end)
    decreases n
  {
    hide PlayInvariant, StreamOne;
    if n > 0 && !t.done {
      StreamOneKeeps(disc, t, clk, before, start, end);
      StreamKeeps(disc, StreamOne(disc, t, clk), clk, n - 1, before, start, end);
    }
  }

  lemma TickKeeps(disc: Disc, d: Drive, clk: nat, before: seq<seq<nat>>, start: nat, end: nat)
    requires Ready(d) && TickSafe(d) && |before| == NUM_PARTS && end > 0
    requires PlayInvariant(disc, d, before, start, end)
    ensures PlayInvariant(disc, Ticked(disc, d, clk), before, start, end)
  {
    hide Conserved, Stream, Route;
    if Streams(d) {
      var c := Charged(d, clk);
      SameConserves(d, c, before);
      StreamKeeps(disc, Turn(c, d.conn, false), clk, Quota(d, clk), before, start, end);
    }
  }

  lemma DeleteKeeps(disc: Disc, d: Drive, q: nat, off: nat, cnt: nat, before: seq<seq<nat>>, start: nat, end: nat)
    requires Ready(d) && |before| == NUM_PARTS && q < NUM_PARTS
    requires PlayInvariant(disc, d, before, start, end)
    ensures PlayInvariant(disc, Deleted(d, q, off, cnt), before, start, end)
  {
    hide Route, LeftOver, RoutedTo, ConservedAt, ClampOffset, ClampCount;
    var r := Deleted(d, q, off, cnt);
    forall p | 0 <= p < NUM_PARTS
      ensures ConservedAt(r, before, p)
    {
      assert ConservedAt(d, before, p);
      if p == q {
        DeleteConserves(d, q, off, cnt, before);
      } else {
        OtherConserves(d, r, before, p);
      }
    }
  }

  lemma DeleteConserves(d: Drive, q: nat, off: nat, cnt: nat, before: seq<seq<nat>>)
    requires Ready(d) && |before| == NUM_PARTS && q < NUM_PARTS && ConservedAt(d, before, q)
    ensures ConservedAt(Deleted(d, q, off, cnt), before, q)
  {
    hide LeftOver, RoutedTo, ClampOffset, ClampCount;
    var c, o, n := d.contents[q], ClampOffset(d, q, off), ClampCount(d, q, off, cnt);
    LeftOverShrinks(c, before[q] + RoutedTo(d.log, q), o, o + n);
    assert c == c[..o] + c[o..o + n] + c[o + n..];
  }

  lemma OtherConserves(d: Drive, r: Drive, before: seq<seq<nat>>, p: nat)
    requires Ready(d) && Ready(r) && |before| == NUM_PARTS && p < NUM_PARTS && ConservedAt(d, before, p)
    requires r.contents[p] == d.contents[p] && r.taken[p] == d.taken[p] && r.log == d.log
    ensures ConservedAt(r, before, p)
  {
    hide LeftOver, RoutedTo;
  }

  lemma EmptyKeeps(disc: Disc, d: Drive, before: seq<seq<nat>>, start: nat, end: nat)
    requires Ready(d) && |before| == NUM_PARTS && PlayInvariant(disc, d, before, start, end)
    ensures PlayInvariant(disc, Emptied(d), before, start, end)
  {
    hide Route, LeftOver, RoutedTo;
    var r := Emptied(d);
    forall p | 0 <= p < NUM_PARTS
      ensures ConservedAt(r, before, p)
    {
      assert ConservedAt(d, before, p);
      LeftOverShrinks(d.contents[p], before[p] + RoutedTo(d.log, p), 0, |d.contents[p]|);
      assert d.contents[p][..0] + d.contents[p][|d.contents[p]|..] == [];
    }
  }

  lemma ProgramKeeps(disc: Disc, d: Drive, filters: Filters, conn: nat, before: seq<seq<nat>>, start: nat, end: nat)
    requires Ready(d) && |before| == NUM_PARTS && PlayInvariant(disc, d, before, start, end)
    ensures PlayInvariant(disc, d.(filters := filters, conn := conn), before, start, end)
  {
    hide Route, Conserved;
    SameConserves(d, d.(filters := filters, conn := conn), before);
  }

  lemma PlayStarts(disc: Disc, d: Drive, startLba: nat, want: nat)
    requires Ready(d) && want > 0
    ensures PlayInvariant(disc, Played(d, startLba, want), d.contents, startLba + FAD_BASE, startLba + FAD_BASE + want)
  {
    var r := Played(d, startLba, want);
    forall p | 0 <= p < NUM_PARTS
      ensures ConservedAt(r, d.contents, p)
    {
      LeftOverWhole(d.contents[p]);
      assert d.contents[p] + RoutedTo(r.log, p) == d.contents[p];
      assert multiset(r.taken[p]) == multiset{};
    }
  }

  lemma {:induction false} RunKeeps(disc: Disc, d: Drive, steps: seq<Step>, before: seq<seq<nat>>, start: nat, end: nat)
    requires Ready(d) && Safe(disc, d, steps)
    requires |before| == NUM_PARTS && end > 0 && PlayInvariant(disc, d, before, start, end)
    ensures PlayInvariant(disc, Run(disc, d, steps), before, start, end)
    decreases |steps|
  {
    hide PlayInvariant, Deleted, Ticked, Emptied, TickSafe;
    if steps != [] {
      match steps[0]
      case Tick(clk) =>
        TickKeeps(disc, d, clk, before, start, end);
        RunKeeps(disc, Next(disc, d, steps[0]), steps[1..], before, start, end);
      case GetSectors(_, _, _) =>
        RunKeeps(disc, d, steps[1..], before, start, end);
      case DeleteSectors(p, off, cnt) =>
        DeleteKeeps(disc, d, p, off, cnt, before, start, end);
        RunKeeps(disc, Next(disc, d, steps[0]), steps[1..], before, start, end);
      case GetThenDelete(p, off, cnt) =>
        DeleteKeeps(disc, d, p, off, cnt, before, start, end);
        RunKeeps(disc, Next(disc, d, steps[0]), steps[1..], before, start, end);
      case Discard(p) =>
        DeleteKeeps(disc, d, p, 0, PART_SECTORS, before, start, end);
        RunKeeps(disc, Next(disc, d, steps[0]), steps[1..], before, start, end);
      case DiscardAll =>
        EmptyKeeps(disc, d, before, start, end);
        RunKeeps(disc, Next(disc, d, steps[0]), steps[1..], before, start, end);
      case Program(filters, conn) =>
        ProgramKeeps(disc, d, filters, conn, before, start, end);
        RunKeeps(disc, Next(disc, d, steps[0]), steps[1..], before, start, end);
    }
  }

  // From a PlayDisc on, under any interleaving of drive ticks and host
  // commands, the stream stays in order, complete and inside its range.
  lemma PlayStreamsInOrder(disc: Disc, d: Drive, startLba: nat, want: nat, steps: seq<Step>)
    requires Ready(d) && want > 0 && Safe(disc, Played(d, startLba, want), steps)
    ensures PlayInvariant(disc, Run(disc, Played(d, startLba, want), steps), d.contents,
                          startLba + 150, startLba + 150 + want)
  {
    hide PlayInvariant;
    PlayStarts(disc, d, startLba, want);
    RunKeeps(disc, Played(d, startLba, want), steps, d.contents, startLba + FAD_BASE, startLba + FAD_BASE + want);
  }

  // ----------------------------------------------------------- the slices

  // The slice of a command: from its offset, its count of sectors, as far as the
  // partition goes.
  lemma SliceIs(d: Drive, p: nat, off: nat, cnt: nat)
    requires Ready(d) && p < NUM_PARTS
    ensures var s, c := Slice(d, p, off, cnt), d.contents[p];
            && |s| == (if off >= |c| then 0 else if off + cnt >= |c| then |c| - off else cnt)
            && forall i | 0 <= i < |s| :: s[i] == c[off + i]
  {
  }

  // A deletion takes that slice out, closes the gap and leaves the other
  // partitions alone.
  lemma DeletedLeaves(d: Drive, p: nat, off: nat, cnt: nat)
    requires Ready(d) && p < NUM_PARTS
    ensures var r, s, c := Deleted(d, p, off, cnt), Slice(d, p, off, cnt), d.contents[p];
            && |r.contents[p]| == |c| - |s|
            && (forall i | 0 <= i < |r.contents[p]| :: r.contents[p][i] == c[if i < off then i else i + |s|])
            && (forall q | 0 <= q < NUM_PARTS && q != p :: r.contents[q] == d.contents[q])
            && r == d.(contents := r.contents, taken := d.taken[p := d.taken[p] + s])
  {
  }

  // ------------------------------------------------- an unchanged selector

  // Every arrival since the n-th went by this selector, which is in force.
  predicate SteadySince(d: Drive, filters: Filters, conn: nat, n: nat) {
    d.filters == filters && d.conn == conn
    && forall k | n <= k < |d.log| :: d.log[k].filters == filters && d.log[k].conn == conn
  }

  lemma {:induction false} StreamSteadySince(disc: Disc, t: Turn, clk: nat, m: nat, filters: Filters, conn: nat, n: nat)
    requires Ready(t.drive) && t.p < NUM_PARTS && SteadySince(t.drive, filters, conn, n)
    ensures SteadySince(Stream(disc, t, clk, m).drive, filters, conn, n)
    decreases m
  {
    hide Route;
    if m > 0 && !t.done {
      StreamSteadySince(disc, StreamOne(disc, t, clk), clk, m - 1, filters, conn, n);
    }
  }

  lemma {:induction false} RunSteadySince(disc: Disc, d: Drive, steps: seq<Step>, filters: Filters, conn: nat, n: nat)
    requires Ready(d) && Safe(disc, d, steps) && forall i | 0 <= i < |steps| :: !steps[i].Program?
    requires SteadySince(d, filters, conn, n)
    ensures SteadySince(Run(disc, d, steps), filters, conn, n)
    decreases |steps|
  {
    hide Stream;
    if steps != [] {
      if steps[0].Tick? && Streams(d) {
        var clk := steps[0].clk;
        StreamSteadySince(disc, Turn(Charged(d, clk), d.conn, false), clk, Quota(d, clk), filters, conn, n);
      }
      RunSteadySince(disc, Next(disc, d, steps[0]), steps[1..], filters, conn, n);
    }
  }

  // Unless the host reprograms the selector, every sector of the play went where
  // the selector of its start says.
  lemma SteadyPlayRoutesAsSet(disc: Disc, d: Drive, startLba: nat, want: nat, steps: seq<Step>, k: nat)
    requires Ready(d) && want > 0 && Safe(disc, Played(d, startLba, want), steps)
    requires forall i | 0 <= i < |steps| :: !steps[i].Program?
    requires k < |Run(disc, Played(d, startLba, want), steps).log|
    ensures var a, read := Run(disc, Played(d, startLba, want), steps).log[k], disc(startLba + k);
            a.fad == startLba + 150 + k && read.Sector? && a.dest == Route(d.filters, d.conn, read.sub, a.fad)
  {
    hide Run, Route, Conserved;
    PlayStreamsInOrder(disc, d, startLba, want, steps);
    RunSteadySince(disc, Played(d, startLba, want), steps, d.filters, d.conn, 0);
  }

  // A selector programmed in the middle of a play routes every sector from then on.
  lemma ReprogrammedPlayRoutes(disc: Disc, d: Drive, before: seq<seq<nat>>, start: nat, end: nat, filters: Filters,
                               conn: nat, steps: seq<Step>, k: nat)
    requires Ready(d) && |before| == NUM_PARTS && end > 0 && PlayInvariant(disc, d, before, start, end)
    requires Safe(disc, d, [Program(filters, conn)] + steps) && forall i | 0 <= i < |steps| :: !steps[i].Program?
    requires |d.log| <= k < |Run(disc, d, [Program(filters, conn)] + steps).log|
    ensures var a, read := Run(disc, d, [Program(filters, conn)] + steps).log[k], disc(LbaOf(start + k));
            a.fad == start + k && read.Sector? && a.dest == Route(filters, conn, read.sub, a.fad)
  {
    hide Run, Route, Safe, Conserved;
    RunKeeps(disc, d, [Program(filters, conn)] + steps, before, start, end);
    ProgramFirst(disc, d, filters, conn, steps);
    RunSteadySince(disc, d.(filters := filters, conn := conn), steps, filters, conn, |d.log|);
  }

  lemma ProgramFirst(disc: Disc, d: Drive, filters: Filters, conn: nat, steps: seq<Step>)
    requires Ready(d) && Safe(disc, d, [Program(filters, conn)] + steps)
    ensures var n := d.(filters := filters, conn := conn);
            Safe(disc, n, steps) && Run(disc, d, [Program(filters, conn)] + steps) == Run(disc, n, steps)
  {
    assert ([Program(filters, conn)] + steps)[1..] == steps;
  }

  // ------------------------------------------------- a disconnected drive

  // While the drive is connected and stays so, every run is safe.
  lemma {:induction false} ConnectedIsSafe(disc: Disc, d: Drive, steps: seq<Step>)
    requires Ready(d) && d.conn < NUM_PARTS
    requires forall i | 0 <= i < |steps| :: ValidStep(steps[i]) && (steps[i].Program? ==> steps[i].conn < NUM_PARTS)
    ensures Safe(disc, d, steps)
    decreases |steps|
  {
    hide Stream, Quota, Deleted, Emptied;
    if steps != [] {
      if steps[0].Tick? && Streams(d) {
        var clk := steps[0].clk;
        StreamSteadyConn(disc, Turn(Charged(d, clk), d.conn, false), clk, Quota(d, clk));
      }
      NextConn(disc, d, steps[0]);
      ConnectedIsSafe(disc, Next(disc, d, steps[0]), steps[1..]);
    }
  }

  lemma {:induction false} StreamSteadyConn(disc: Disc, t: Turn, clk: nat, n: nat)
    requires Ready(t.drive) && t.p < NUM_PARTS
    ensures var r := Stream(disc, t, clk, n).drive;
            r.conn == t.drive.conn && r.readSpeed == t.drive.readSpeed && r.driveNext == t.drive.driveNext
    decreases n
  {
    hide Route;
    if n > 0 && !t.done {
      StreamSteadyConn(disc, StreamOne(disc, t, clk), clk, n - 1);
    }
  }

  lemma NextConn(disc: Disc, d: Drive, s: Step)
    requires Ready(d) && ValidStep(s) && (s.Tick? ==> TickSafe(d))
    ensures Next(disc, d, s).conn == if s.Program? then s.conn else d.conn
    ensures Next(disc, d, s).readSpeed == d.readSpeed
    ensures !s.Tick? || !Streams(d) ==> Next(disc, d, s).log == d.log && Next(disc, d, s).driveNext == d.driveNext
  {
    hide Stream, Quota;
    if s.Tick? && Streams(d) {
      StreamSteadyConn(disc, Turn(Charged(d, s.clk), d.conn, false), s.clk, Quota(d, s.clk));
    }
  }

  // The unsafe tick is reached by a full selector reset and a data play after
  // it; reconnecting the drive before the tick prevents it.
  lemma DisconnectedPlayIsUnsafe(disc: Disc, d: Drive, startLba: nat, want: nat, conn: nat, clk: nat)
    requires Ready(d) && want > 0
    ensures var p := Played(d.(filters := ResetAll(d.filters, 0xFC), conn := DISCONNECTED), startLba, want);
            && !Safe(disc, p, [Tick(clk)])
            && (Safe(disc, p, [Program(p.filters, conn), Tick(clk)]) <==> conn < 24)
  {
    hide ResetAll, Ticked;
    var p := Played(d.(filters := ResetAll(d.filters, 0xFC), conn := DISCONNECTED), startLba, want);
    var q := p.(conn := conn);
    assert [Tick(clk)][1..] == [];
    assert [Program(p.filters, conn), Tick(clk)][1..] == [Tick(clk)];
    assert Safe(disc, q, [Tick(clk)]) <==> TickSafe(q);
  }

  // The connection after these steps: the last one programmed.
  function LastConn(conn: nat, steps: seq<Step>): nat
    decreases |steps|
  {
    if steps == [] then conn else LastConn(if steps[0].Program? then steps[0].conn else conn, steps[1..])
  }

  // Step i is no tick that finds a data play still on and the last programmed
  // connection missing.
  predicate SafeAt(disc: Disc, d: Drive, steps: seq<Step>, i: nat)
    requires Ready(d) && i < |steps|
  {
    steps[i].Tick? && Safe(disc, d, steps[..i]) ==>
      var r := Run(disc, d, steps[..i]);
      !r.playing || r.cddaPlay || LastConn(d.conn, steps[..i]) < 24
  }

  // A run is safe if and only if the last connection programmed before each tick
  // of a data play that is still on names a partition.
  lemma {:induction false} SafeExactly(disc: Disc, d: Drive, steps: seq<Step>)
    requires Ready(d) && forall i | 0 <= i < |steps| :: ValidStep(steps[i])
    ensures Safe(disc, d, steps) <==> forall i | 0 <= i < |steps| :: SafeAt(disc, d, steps, i)
    decreases |steps|
  {
    hide Ticked, Deleted, Emptied;
    if steps != [] {
      assert steps[..0] == [];
      assert SafeAt(disc, d, steps, 0) <==> (steps[0].Tick? ==> TickSafe(d));
      if steps[0].Tick? ==> TickSafe(d) {
        var n, tail := Next(disc, d, steps[0]), steps[1..];
        SafeExactly(disc, n, tail);
        forall i | 0 <= i < |tail|
          ensures SafeAt(disc, d, steps, i + 1) <==> SafeAt(disc, n, tail, i)
        {
          SafeLater(disc, d, steps, i);
        }
        hide SafeAt, Next;
        assert forall i | 0 < i < |steps| :: SafeAt(disc, d, steps, i) <==> SafeAt(disc, n, tail, i - 1) by {
          forall i | 0 < i < |steps|
            ensures SafeAt(disc, d, steps, i) <==> SafeAt(disc, n, tail, i - 1)
          {
            assert SafeAt(disc, d, steps, (i - 1) + 1) <==> SafeAt(disc, n, tail, i - 1);
          }
        }
      }
    }
  }

  lemma SafeLater(disc: Disc, d: Drive, steps: seq<Step>, i: nat)
    requires Ready(d) && i + 1 < |steps| && ValidStep(steps[0]) && (steps[0].Tick? ==> TickSafe(d))
    ensures SafeAt(disc, d, steps, i + 1) <==> SafeAt(disc, Next(disc, d, steps[0]), steps[1..], i)
  {
    NextConn(disc, d, steps[0]);
    hide Next;
    assert steps[..i + 1][0] == steps[0] && steps[..i + 1][1..] == steps[1..][..i];
  }

  // ------------------------------------------------------------ the pace

  lemma DueNext(first: nat, per: nat, i: nat)
    ensures Due(first, per, i + 1) == Due(first, per, i) + per && Due(first, per, 0) == first
    ensures Due(first, per, i + 1) == Due(first + per, per, i)
  {
  }

  lemma DueFrom(first: nat, base: nat, per: nat, n: nat, i: nat)
    requires base >= Due(first, per, n)
    ensures Due(base, per, i) >= Due(first, per, n + i)
  {
    assert (n + i) * per == n * per + i * per;
  }

  lemma DueGrows(first: nat, per: nat, i: nat, j: nat)
    requires i <= j
    ensures Due(first, per, i) <= Due(first, per, j)
  {
    assert (j - i) * per >= 0;
  }

  // Exactly the sectors due by `clk` are counted, at most n of them.
  lemma {:induction false} TokensAreDue(first: nat, per: nat, clk: nat, n: nat)
    ensures var q := Tokens(first, per, clk, n);
            (forall i: nat | i < q :: Due(first, per, i) <= clk) && (q < n ==> Due(first, per, q) > clk)
    decreases n
  {
    hide Due;
    DueNext(first, per, 0);
    if n > 0 && first <= clk {
      var q := Tokens(first, per, clk, n);
      TokensAreDue(first + per, per, clk, n - 1);
      forall i: nat | i < q
        ensures Due(first, per, i) <= clk
      {
        if i > 0 {
          DueNext(first, per, i - 1);
        }
      }
      DueNext(first, per, q - 1);
    }
  }

  // No sector of the play has come in before its time, counted from `first`, and
  // the next one will not either.
  ghost predicate OnSchedule(d: Drive, first: nat) {
    && d.driveNext >= Due(first, Period(d), |d.log|)
    && forall k | 0 <= k < |d.log| :: d.log[k].clk >= Due(first, Period(d), k)
  }

  lemma {:induction false} StreamOnSchedule(disc: Disc, t: Turn, clk: nat, n: nat, first: nat)
    requires Ready(t.drive) && t.p < NUM_PARTS && OnSchedule(t.drive, first)
    requires t.drive.driveNext >= Due(first, Period(t.drive), |t.drive.log| + n)
    requires n > 0 ==> clk >= Due(first, Period(t.drive), |t.drive.log| + n - 1)
    ensures OnSchedule(Stream(disc, t, clk, n).drive, first)
    decreases n
  {
    hide Route, Due;
    if n > 0 && !t.done {
      var r := StreamOne(disc, t, clk);
      var len := |t.drive.log|;
      DueGrows(first, Period(t.drive), len, len + n);
      DueGrows(first, Period(t.drive), len + 1, len + n);
      DueGrows(first, Period(t.drive), len, len + n - 1);
      if r.done {
        StreamDone(disc, r, clk, n - 1);
      } else {
        StreamOnSchedule(disc, r, clk, n - 1, first);
      }
    }
  }

  lemma StreamDone(disc: Disc, t: Turn, clk: nat, n: nat)
    requires Ready(t.drive) && t.p < NUM_PARTS && t.done
    ensures Stream(disc, t, clk, n) == t
  {
  }

  lemma TickOnSchedule(disc: Disc, d: Drive, clk: nat, first: nat)
    requires Ready(d) && TickSafe(d) && Streams(d)
    requires FirstDue(d, clk) >= Due(first, Period(d), |d.log|)
    requires forall k | 0 <= k < |d.log| :: d.log[k].clk >= Due(first, Period(d), k)
    ensures OnSchedule(Ticked(disc, d, clk), first)
  {
    hide Stream, Due;
    var base, per, q, len := FirstDue(d, clk), Period(d), Quota(d, clk), |d.log|;
    TokensAreDue(base, per, clk, SECTORS_PER_TICK);
    if q > 0 {
      DueFrom(first, base, per, len, q - 1);
    }
    DueFrom(first, base, per, len, q);
    DueGrows(first, per, len, len + q);
    StreamOnSchedule(disc, Turn(Charged(d, clk), d.conn, false), clk, q, first);
  }

  lemma {:induction false} RunOnSchedule(disc: Disc, d: Drive, steps: seq<Step>, first: nat)
    requires Ready(d) && Safe(disc, d, steps) && OnSchedule(d, first)
    ensures OnSchedule(Run(disc, d, steps), first)
    decreases |steps|
  {
    hide Stream, Due, Deleted, Emptied;
    if steps != [] {
      if steps[0].Tick? && Streams(d) {
        hide Quota, Charged;
        TickOnSchedule(disc, d, steps[0].clk, first);
      }
      NextConn(disc, d, steps[0]);
      RunOnSchedule(disc, Next(disc, d, steps[0]), steps[1..], first);
    }
  }

  // The machine time from which a play counts: the time the drive still has from
  // an earlier play, or else that of the first tick that streams.
  function PlayClock(disc: Disc, d: Drive, steps: seq<Step>): nat
    requires Ready(d) && Safe(disc, d, steps)
    decreases |steps|
  {
    if d.driveNext != 0 || steps == [] then d.driveNext
    else if steps[0].Tick? && Streams(d) then steps[0].clk
    else PlayClock(disc, Next(disc, d, steps[0]), steps[1..])
  }

  // However the ticks are spaced and whatever the host does, the k-th sector of a
  // play never comes in earlier than k sector times after its first.
  lemma {:induction false} DataNeverEarly(disc: Disc, d: Drive, steps: seq<Step>, k: nat)
    requires Ready(d) && Safe(disc, d, steps) && d.log == []
    requires k < |Run(disc, d, steps).log|
    ensures Run(disc, d, steps).log[k].clk >=
            PlayClock(disc, d, steps) + k * (381818 / (if d.readSpeed == 0 then 2 else d.readSpeed))
    decreases |steps|
  {
    hide Stream, Deleted, Emptied;
    if d.driveNext != 0 {
      RunOnSchedule(disc, d, steps, d.driveNext);
      RunPeriod(disc, d, steps);
    } else {
      var n := Next(disc, d, steps[0]);
      NextConn(disc, d, steps[0]);
      if steps[0].Tick? && Streams(d) {
        var clk := steps[0].clk;
        TickOnSchedule(disc, d, clk, clk);
        RunOnSchedule(disc, n, steps[1..], clk);
        RunPeriod(disc, n, steps[1..]);
      } else {
        DataNeverEarly(disc, n, steps[1..], k);
      }
    }
  }

  lemma {:induction false} RunPeriod(disc: Disc, d: Drive, steps: seq<Step>)
    requires Ready(d) && Safe(disc, d, steps)
    ensures Period(Run(disc, d, steps)) == Period(d)
    decreases |steps|
  {
    hide Ticked, Deleted, Emptied;
    if steps != [] {
      NextConn(disc, d, steps[0]);
      RunPeriod(disc, Next(disc, d, steps[0]), steps[1..]);
    }
  }
}
