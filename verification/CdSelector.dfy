// The CD block's selector: a chain of filters that decides which partition an
// incoming sector goes to.
module CdSelector {

  const NUM_FILTERS: nat := 24
  const NUM_PARTS: nat := 24
  const DISCONNECTED: nat := 0xFF

  datatype Filter = Filter(startFad: nat, fadCount: nat, mode: bv8, fileNum: bv8, chanNum: bv8,
                           submodeMask: bv8, submodeVal: bv8, codingMask: bv8, codingVal: bv8,
                           passOut: nat, failOut: nat)

  datatype Subheader = Subheader(file: bv8, chan: bv8, submode: bv8, coding: bv8)

  // `filter_reset_one`
  function ResetFilter(i: nat): Filter { Filter(0, 0, 0, 0, 0, 0, 0, 0, 0, i, DISCONNECTED) }

  const POWER_ON: Filters := seq(NUM_FILTERS, (i: nat) => ResetFilter(i))

  type Filters = fs: seq<Filter> | |fs| == NUM_FILTERS witness seq(NUM_FILTERS, i => ResetFilter(0))

  predicate Asks(mode: bv8, bit: bv8) { mode & bit != 0 }

  predicate Masked(x: bv8, mask: bv8, val: bv8) { x & mask == val }

  predicate SubheaderMatches(f: Filter, sub: Subheader) {
    && (Asks(f.mode, 0x01) ==> sub.file == f.fileNum)
    && (Asks(f.mode, 0x02) ==> sub.chan == f.chanNum)
    && (Asks(f.mode, 0x04) ==> Masked(sub.submode, f.submodeMask, f.submodeVal))
    && (Asks(f.mode, 0x08) ==> Masked(sub.coding, f.codingMask, f.codingVal))
  }

  // `filter_test`; the range sum is a 32-bit one.
  predicate Passes(f: Filter, sub: Subheader, fad: nat) {
    && (if Asks(f.mode, 0x10) then !SubheaderMatches(f, sub) else SubheaderMatches(f, sub))
    && (Asks(f.mode, 0x40) ==> f.startFad <= fad < (f.startFad + f.fadCount) % 0x1_0000_0000)
  }

  function PassDestination(f: Filter): int {
    if f.passOut >= NUM_PARTS then -1 else f.passOut
  }

  // ------------------------------------------------------- the reference

  // Where following fail outputs without end stands after k hops. A number
  // from NUM_FILTERS up is no filter: the chain has run out.
  function After(fs: Filters, conn: nat, k: nat): nat {
    if k == 0 then conn else
    var fn := After(fs, conn, k - 1);
    if fn < NUM_FILTERS then fs[fn].failOut else fn
  }

  ghost predicate PassesAt(fs: Filters, conn: nat, sub: Subheader, fad: nat, k: nat) {
    After(fs, conn, k) < NUM_FILTERS && Passes(fs[After(fs, conn, k)], sub, fad)
  }

  // The first filter on the endless walk that lets the sector pass.
  ghost predicate FirstPass(fs: Filters, conn: nat, sub: Subheader, fad: nat, k: nat) {
    PassesAt(fs, conn, sub, fad, k) && forall j: nat | j < k :: !PassesAt(fs, conn, sub, fad, j)
  }

  ghost predicate Delivers(fs: Filters, conn: nat, sub: Subheader, fad: nat, dest: int) {
    if exists k :: FirstPass(fs, conn, sub, fad, k)
    then exists k :: FirstPass(fs, conn, sub, fad, k)
                     && dest == var p := fs[After(fs, conn, k)].passOut; if p < 24 then p else -1
    else dest == -1
  }

  // ------------------------------------------------------------ the code

  function RouteFrom(fs: Filters, fn: nat, sub: Subheader, fad: nat, hops: nat): int
    decreases hops
  {
    if hops == 0 || fn >= NUM_FILTERS then -1
    else if Passes(fs[fn], sub, fad) then PassDestination(fs[fn])
    else RouteFrom(fs, fs[fn].failOut, sub, fad, hops - 1)
  }

  function Route(fs: Filters, conn: nat, sub: Subheader, fad: nat): int {
    RouteFrom(fs, conn, sub, fad, NUM_FILTERS)
  }

  method RouteSector(fs: Filters, conn: nat, sub: Subheader, fad: nat) returns (dest: int)
    ensures dest == Route(fs, conn, sub, fad)
  {
    var fn: nat := conn;
    for hops := 0 to NUM_FILTERS
      invariant Route(fs, conn, sub, fad) == RouteFrom(fs, fn, sub, fad, NUM_FILTERS - hops)
    {
      if fn >= NUM_FILTERS {
        return -1;
      }
      if Passes(fs[fn], sub, fad) {
        var out := fs[fn].passOut;
        return if out >= NUM_PARTS then -1 else out;
      }
      fn := fs[fn].failOut;
    }
    return -1;
  }

  // --------------------------------------------- 24 hops are always enough

  function Range(n: nat): (r: set<nat>)
    ensures forall i: nat :: i in r <==> i < n
  {
    if n == 0 then {} else Range(n - 1) + {n - 1}
  }

  lemma {:induction false} RangeSize(n: nat)
    ensures |Range(n)| == n
  {
    if n > 0 {
      RangeSize(n - 1);
    }
  }

  function Visited(fs: Filters, conn: nat, k: nat): set<nat> { set j: nat | j < k :: After(fs, conn, j) }

  // No stop before the first pass is met twice, so it comes within the number
  // of filters.
  lemma {:induction false} DistinctStops(fs: Filters, conn: nat, k: nat)
    requires forall i: nat, j: nat | i < j < k :: After(fs, conn, i) != After(fs, conn, j)
    ensures |Visited(fs, conn, k)| == k
  {
    if k > 0 {
      DistinctStops(fs, conn, k - 1);
      assert Visited(fs, conn, k) == Visited(fs, conn, k - 1) + {After(fs, conn, k - 1)};
    } else {
      assert Visited(fs, conn, k) == {};
    }
  }

  lemma {:induction false} SameStopSameFuture(fs: Filters, conn: nat, i: nat, j: nat, m: nat)
    requires After(fs, conn, i) == After(fs, conn, j)
    ensures After(fs, conn, i + m) == After(fs, conn, j + m)
  {
    if m > 0 {
      SameStopSameFuture(fs, conn, i, j, m - 1);
    }
  }

  lemma {:induction false} DeadStaysDead(fs: Filters, conn: nat, i: nat, m: nat)
    requires After(fs, conn, i) >= NUM_FILTERS
    ensures After(fs, conn, i + m) == After(fs, conn, i)
  {
    if m > 0 {
      DeadStaysDead(fs, conn, i, m - 1);
    }
  }

  lemma RevisitPassesEarlier(fs: Filters, conn: nat, sub: Subheader, fad: nat, i: nat, j: nat, k: nat)
    requires After(fs, conn, i) == After(fs, conn, j) && j <= k && PassesAt(fs, conn, sub, fad, k)
    ensures PassesAt(fs, conn, sub, fad, i + (k - j))
  {
    SameStopSameFuture(fs, conn, i, j, k - j);
  }

  lemma StopsBeforePass(fs: Filters, conn: nat, sub: Subheader, fad: nat, k: nat)
    requires FirstPass(fs, conn, sub, fad, k)
    ensures forall i: nat, j: nat | i < j < k + 1 :: After(fs, conn, i) != After(fs, conn, j)
    ensures forall j: nat | j < k + 1 :: After(fs, conn, j) < NUM_FILTERS
  {
    hide After, Passes;
    forall i: nat, j: nat | i < j < k + 1
      ensures After(fs, conn, i) != After(fs, conn, j)
    {
      if After(fs, conn, i) == After(fs, conn, j) {
        RevisitPassesEarlier(fs, conn, sub, fad, i, j, k);
      }
    }
    forall j: nat | j < k + 1
      ensures After(fs, conn, j) < NUM_FILTERS
    {
      if After(fs, conn, j) >= NUM_FILTERS {
        DeadStaysDead(fs, conn, j, k - j);
      }
    }
  }

  lemma FirstPassIsEarly(fs: Filters, conn: nat, sub: Subheader, fad: nat, k: nat)
    requires FirstPass(fs, conn, sub, fad, k)
    ensures k < 24
  {
    hide After, Range, FirstPass;
    StopsBeforePass(fs, conn, sub, fad, k);
    DistinctStops(fs, conn, k + 1);
    RangeSize(NUM_FILTERS);
    assert Visited(fs, conn, k + 1) <= Range(NUM_FILTERS);
    SubsetIsSmaller(Visited(fs, conn, k + 1), Range(NUM_FILTERS));
  }

  lemma SubsetIsSmaller(a: set<nat>, b: set<nat>)
    requires a <= b
    ensures |a| <= |b|
  {
    assert b == a + (b - a);
  }

  lemma {:induction false} RouteFollowsWalk(fs: Filters, conn: nat, sub: Subheader, fad: nat, k: nat)
    requires k <= NUM_FILTERS
    requires forall j: nat | j < k :: After(fs, conn, j) < NUM_FILTERS && !PassesAt(fs, conn, sub, fad, j)
    ensures Route(fs, conn, sub, fad) == RouteFrom(fs, After(fs, conn, k), sub, fad, NUM_FILTERS - k)
  {
    if k > 0 {
      RouteFollowsWalk(fs, conn, sub, fad, k - 1);
      assert !PassesAt(fs, conn, sub, fad, k - 1);
    }
  }

  lemma {:induction false} LeastPass(fs: Filters, conn: nat, sub: Subheader, fad: nat, k: nat) returns (m: nat)
    requires PassesAt(fs, conn, sub, fad, k)
    ensures m <= k && FirstPass(fs, conn, sub, fad, m)
  {
    if j: nat :| j < k && PassesAt(fs, conn, sub, fad, j) {
      m := LeastPass(fs, conn, sub, fad, j);
    } else {
      m := k;
    }
  }

  // The bounded walk answers as the endless one would, cycles included.
  lemma RouteIsComplete(fs: Filters, conn: nat, sub: Subheader, fad: nat)
    ensures Delivers(fs, conn, sub, fad, Route(fs, conn, sub, fad))
  {
    if k: nat :| FirstPass(fs, conn, sub, fad, k) {
      FirstPassIsEarly(fs, conn, sub, fad, k);
      StopsBeforePass(fs, conn, sub, fad, k);
      RouteFollowsWalk(fs, conn, sub, fad, k);
      assert PassesAt(fs, conn, sub, fad, k);
    } else {
      NeverPasses(fs, conn, sub, fad, 0);
    }
  }

  lemma {:induction false} NeverPasses(fs: Filters, conn: nat, sub: Subheader, fad: nat, k: nat)
    requires k <= NUM_FILTERS && forall m :: !FirstPass(fs, conn, sub, fad, m)
    ensures RouteFrom(fs, After(fs, conn, k), sub, fad, NUM_FILTERS - k) == -1
    decreases NUM_FILTERS - k
  {
    if PassesAt(fs, conn, sub, fad, k) {
      var m := LeastPass(fs, conn, sub, fad, k);
      assert false;
    }
    if k < NUM_FILTERS && After(fs, conn, k) < NUM_FILTERS {
      NeverPasses(fs, conn, sub, fad, k + 1);
    }
  }

  lemma FirstPassIsUnique(fs: Filters, conn: nat, sub: Subheader, fad: nat, k: nat, m: nat)
    requires FirstPass(fs, conn, sub, fad, k) && FirstPass(fs, conn, sub, fad, m)
    ensures k == m
  {
  }

  // The answer is a partition number or -1, never anything else.
  lemma RouteInRange(fs: Filters, conn: nat, sub: Subheader, fad: nat)
    ensures -1 <= Route(fs, conn, sub, fad) < NUM_PARTS
  {
    RouteIsComplete(fs, conn, sub, fad);
  }

  // At power-on filter n delivers everything to partition n.
  lemma ResetDeliversToOwnPartition(conn: nat, sub: Subheader, fad: nat)
    requires conn < NUM_FILTERS
    ensures Route(POWER_ON, conn, sub, fad) == conn
  {
  }

  // ----------------------------------------------- programming the filters

  // The bytes of a command word.
  function LowByte(cr: nat): bv8 { (cr % 0x100) as bv8 }

  function HighByte(cr: nat): bv8 { (cr / 0x100 % 0x100) as bv8 }

  // A 24-bit field: the low byte of one word above the whole of another.
  function Field24(high: nat, low: nat): (n: nat)
    requires low < 0x1_0000
    ensures n < 0x100_0000
  {
    high % 0x100 * 0x1_0000 + low
  }

  function Ranged(f: Filter, start: nat, count: nat): Filter { f.(startFad := start, fadCount := count) }

  function Conditioned(f: Filter, cr1: nat, cr2: nat, cr3: nat, cr4: nat): Filter {
    f.(chanNum := LowByte(cr1), submodeMask := HighByte(cr2), codingMask := LowByte(cr2),
       fileNum := LowByte(cr3), submodeVal := HighByte(cr4), codingVal := LowByte(cr4))
  }

  // Bit 7 asks for the conditions to be reset and is not stored.
  function Moded(f: Filter, i: nat, mode: bv8): Filter {
    var g := if mode & 0x80 != 0 then ResetFilter(i).(passOut := f.passOut, failOut := f.failOut) else f;
    g.(mode := mode & 0x5F)
  }

  function Wired(f: Filter, which: bv8, pass: nat, fail: nat): Filter {
    var g := if which & 0x01 != 0 then f.(passOut := pass) else f;
    if which & 0x02 != 0 then g.(failOut := fail) else g
  }

  // What `ResetSelector` does to a filter.
  function Reset(f: Filter, i: nat, flags: bv8): Filter {
    var g := if flags & 0x10 != 0 then ResetFilter(i).(passOut := f.passOut, failOut := f.failOut) else f;
    var h := if flags & 0x40 != 0 then g.(passOut := i) else g;
    if flags & 0x20 != 0 || flags & 0x80 != 0 then h.(failOut := DISCONNECTED) else h
  }

  function ResetAll(fs: Filters, flags: bv8): (r: Filters)
    ensures forall i | 0 <= i < NUM_FILTERS :: r[i] == Reset(fs[i], i, flags)
  {
    seq(NUM_FILTERS, i requires 0 <= i < NUM_FILTERS => Reset(fs[i], i, flags))
  }

  // Resetting a filter's conditions lets every sector pass and leaves the chain
  // as it was wired.
  lemma ResetModePassesAll(f: Filter, i: nat, sub: Subheader, fad: nat)
    ensures var g := Moded(f, i, 0x80);
            Passes(g, sub, fad) && g.passOut == f.passOut && g.failOut == f.failOut
  {
  }

  // A range filter passes exactly its range: the two 24-bit fields cannot wrap.
  lemma RangeModeSelectsRange(f: Filter, i: nat, start: nat, count: nat, sub: Subheader, fad: nat)
    requires start < 0x100_0000 && count < 0x100_0000
    ensures Passes(Moded(Ranged(f, start, count), i, 0x40), sub, fad) <==> start <= fad < start + count
  {
  }

  // A full reset restores the power-on filters, but not the drive's connection
  // to the first of them: it leaves the drive disconnected, where nothing passes.
  lemma FullResetIsPowerOn(fs: Filters, sub: Subheader, fad: nat)
    ensures ResetAll(fs, 0xFC) == POWER_ON
    ensures Route(ResetAll(fs, 0xFC), DISCONNECTED, sub, fad) == -1 && Route(POWER_ON, 0, sub, fad) == 0
  {
    forall i | 0 <= i < NUM_FILTERS
      ensures ResetAll(fs, 0xFC)[i] == POWER_ON[i]
    {
      assert Reset(fs[i], i, 0xFC) == ResetFilter(i);
    }
  }

  // The low bits of a mode, one by one, and neither of the two high ones.
  predicate AsksOnly(mode: bv8, file: bool, chan: bool, submode: bool, coding: bool) {
    && Asks(mode, 1) == file && Asks(mode, 2) == chan && Asks(mode, 4) == submode && Asks(mode, 8) == coding
    && !Asks(mode, 16) && !Asks(mode, 64)
  }

  // Modes 1, 2, 4 and 8 ask for one condition each.
  lemma SingleBits()
    ensures AsksOnly(0, false, false, false, false) && AsksOnly(1, true, false, false, false)
    ensures AsksOnly(2, false, true, false, false) && AsksOnly(4, false, false, true, false)
    ensures AsksOnly(8, false, false, false, true)
  {
  }

  lemma MaskedIs(x: bv8, mask: bv8, val: bv8)
    ensures Masked(x, mask, val) <==> x & mask == val
  {
  }

  // What each low bit of the mode asks for, set alone.
  lemma FileCondition(f: Filter, sub: Subheader, fad: nat)
    requires AsksOnly(f.mode, true, false, false, false)
    ensures Passes(f, sub, fad) <==> sub.file == f.fileNum
  {
    hide Asks, Masked;
  }

  lemma ChannelCondition(f: Filter, sub: Subheader, fad: nat)
    requires AsksOnly(f.mode, false, true, false, false)
    ensures Passes(f, sub, fad) <==> sub.chan == f.chanNum
  {
    hide Asks, Masked;
  }

  lemma SubmodeCondition(f: Filter, sub: Subheader, fad: nat)
    requires AsksOnly(f.mode, false, false, true, false)
    ensures Passes(f, sub, fad) <==> sub.submode & f.submodeMask == f.submodeVal
  {
    MaskedIs(sub.submode, f.submodeMask, f.submodeVal);
    hide Asks, Masked;
  }

  lemma CodingCondition(f: Filter, sub: Subheader, fad: nat)
    requires AsksOnly(f.mode, false, false, false, true)
    ensures Passes(f, sub, fad) <==> sub.coding & f.codingMask == f.codingVal
  {
    MaskedIs(sub.coding, f.codingMask, f.codingVal);
    hide Asks, Masked;
  }

  // Several bits ask for all of theirs, and bit 4 for what fails them.
  lemma ConditionsCombine(f: Filter, g: Filter, h: Filter, sub: Subheader, fad: nat)
    requires f.mode <= 15 && g == f.(mode := g.mode) && g.mode <= 15 && h == f.(mode := f.mode | g.mode)
    ensures Passes(h, sub, fad) <==> Passes(f, sub, fad) && Passes(g, sub, fad)
  {
    BitsCombine(f.mode, g.mode);
    hide Asks, Masked;
    LowMode(f, sub, fad);
    LowMode(g, sub, fad);
    LowMode(h, sub, fad);
  }

  lemma InverseFails(f: Filter, g: Filter, sub: Subheader, fad: nat)
    requires f.mode <= 15 && g == f.(mode := f.mode | 16)
    ensures Passes(g, sub, fad) <==> !Passes(f, sub, fad)
  {
    BitsCombine(f.mode, f.mode);
    hide Asks, Masked;
    LowMode(f, sub, fad);
    assert SubheaderMatches(g, sub) == SubheaderMatches(f, sub);
  }

  lemma LowMode(f: Filter, sub: Subheader, fad: nat)
    requires !Asks(f.mode, 16) && !Asks(f.mode, 64)
    ensures Passes(f, sub, fad) <==> SubheaderMatches(f, sub)
  {
    hide SubheaderMatches;
  }

  lemma BitsCombine(a: bv8, b: bv8)
    requires a <= 15 && b <= 15
    ensures Asks(a | b, 1) == (Asks(a, 1) || Asks(b, 1)) && Asks(a | b, 2) == (Asks(a, 2) || Asks(b, 2))
    ensures Asks(a | b, 4) == (Asks(a, 4) || Asks(b, 4)) && Asks(a | b, 8) == (Asks(a, 8) || Asks(b, 8))
    ensures !Asks(a, 16) && !Asks(b, 16) && !Asks(a | b, 16) && !Asks(a, 64) && !Asks(b, 64) && !Asks(a | b, 64)
    ensures Asks(a | 16, 16) && !Asks(a | 16, 64) && Asks(a | 16, 1) == Asks(a, 1) && Asks(a | 16, 2) == Asks(a, 2)
    ensures Asks(a | 16, 4) == Asks(a, 4) && Asks(a | 16, 8) == Asks(a, 8)
  {
  }

  // The command words put each byte where its condition looks for it: the channel
  // in CR1, the two masks in CR2, the file in CR3 and the two values in CR4.
  lemma ConditionsStored(f: Filter, i: nat, chan: nat, submodeMask: nat, codingMask: nat, file: nat, submodeVal: nat,
                         codingVal: nat)
    requires chan < 256 && submodeMask < 256 && codingMask < 256 && file < 256 && submodeVal < 256 && codingVal < 256
    ensures Conditioned(f, 0x4200 + chan, 256 * submodeMask + codingMask, 256 * i + file,
                        256 * submodeVal + codingVal) ==
            f.(chanNum := chan as bv8, submodeMask := submodeMask as bv8, codingMask := codingMask as bv8,
               fileNum := file as bv8, submodeVal := submodeVal as bv8, codingVal := codingVal as bv8)
  {
    WordBytes(0x42, chan);
    WordBytes(submodeMask, codingMask);
    WordBytes(i, file);
    WordBytes(submodeVal, codingVal);
    hide LowByte, HighByte;
  }

  lemma WordBytes(high: nat, low: nat)
    requires low < 256
    ensures LowByte(256 * high + low) == low as bv8
    ensures high < 256 ==> HighByte(256 * high + low) == high as bv8
  {
    assert (256 * high + low) % 256 == low && (256 * high + low) / 256 == high;
  }

  // The mode keeps its seven lower bits but 0x20; without bit 7 nothing else changes.
  lemma ModeStored(f: Filter, i: nat, mode: bv8)
    ensures var g := Moded(f, i, mode);
            && (forall bit: bv8 | bit in {1, 2, 4, 8, 16, 64} :: Asks(g.mode, bit) == Asks(mode, bit))
            && !Asks(g.mode, 32) && !Asks(g.mode, 128)
            && (!Asks(mode, 128) ==> g == f.(mode := g.mode))
  {
  }

  // What each flag of the reset does to a filter: 0x10 clears its conditions, 0x40
  // wires it to its own partition, 0x20 or 0x80 cut its false output.
  lemma ResetByFlag(f: Filter, i: nat, flags: bv8, sub: Subheader, fad: nat)
    ensures var r := Reset(f, i, flags);
            && (Asks(flags, 16) ==> Passes(r, sub, fad))
            && (!Asks(flags, 16) ==> r == f.(passOut := r.passOut, failOut := r.failOut))
            && r.passOut == (if Asks(flags, 64) then i else f.passOut)
            && r.failOut == (if Asks(flags, 32) || Asks(flags, 128) then 255 else f.failOut)
  {
    var r := Reset(f, i, flags);
    NoModePasses(ResetFilter(i).(passOut := r.passOut, failOut := r.failOut), sub, fad);
  }

  lemma NoModePasses(f: Filter, sub: Subheader, fad: nat)
    requires f.mode == 0
    ensures Passes(f, sub, fad)
  {
  }

  // A filter's outputs are set one by one, as CR1 asks.
  lemma OutputsAreSet(f: Filter, which: bv8, pass: nat, fail: nat)
    ensures var g := Wired(f, which, pass, fail);
            && g.passOut == (if which & 1 != 0 then pass else f.passOut)
            && g.failOut == (if which & 2 != 0 then fail else f.failOut)
            && g.(passOut := f.passOut, failOut := f.failOut) == f
  {
  }
}
