// Slicing a span of cycles of the free-running timer while compare A clears the
// counter (CCLRA set).
module BusSlices {
  import opened BusTimer
  import opened Multiples
  import opened Words

  // ---------------------------------------------------- counts in closed form

  // The next n counts reach compare A.
  predicate Reaches(t: Timer, n: nat) { n > Gap(t, t.ocra) }

  // How many counts compare A takes to clear the counter again.
  function Turn(t: Timer): (p: nat)
    ensures 0 < p <= 0x1_0000
  {
    if t.ocra == 0 then 0x1_0000 else t.ocra as int
  }

  // The counter after n counts; `since` of them come after the first clear.
  function CountAfter(t: Timer, n: nat): (frc: U16) {
    var since := n - (Gap(t, t.ocra) + 1);
    if t.clearA && since >= 0 then
      TurnModulo(since, Turn(t));
      since % Turn(t)
    else (t.frc as int + n) % 0x1_0000
  }

  lemma TurnModulo(k: nat, p: nat)
    requires 0 < p <= 0x1_0000
    ensures 0 <= k % p < 0x1_0000
  {
  }

  // The flags: a value past compare A is only met on the way to the first clear,
  // one below it also in the turns after it.
  function FlagsAfter(t: Timer, n: nat): Bits {
    var since, f := n - (Gap(t, t.ocra) + 1), t.flags;
    if t.clearA && since >= 0 then
      f.(overflow := f.overflow || t.frc as int + Gap(t, t.ocra) + 1 >= 0x1_0000, compareA := true,
         compareB := f.compareB || Gap(t, t.ocrb) < Gap(t, t.ocra)
                     || (t.ocrb as int < Turn(t) && t.ocrb as int <= since))
    else
      f.(overflow := f.overflow || t.frc as int + n >= 0x1_0000, compareA := f.compareA || n > Gap(t, t.ocra),
         compareB := f.compareB || n > Gap(t, t.ocrb))
  }

  function Ended(t: Timer, n: nat): Timer {
    if n == 0 then t
    else
      Polled(t.(frc := CountAfter(t, n), flags := FlagsAfter(t, n),
                pre := if t.clearA && Reaches(t, n) then 0 else t.pre))
  }

  // Any number of counts at once, in both modes.
  lemma {:induction false} TicksEnd(t: Timer, n: nat)
    ensures Ticks(t, n) == Ended(t, n)
    decreases n
  {
    if n == 0 {
    } else if !t.clearA {
      TicksCount(t, n);
    } else {
      hide Tick, Ended;
      TicksEnd(t, n - 1);
      TicksAdd(t, n - 1, 1);
      TicksOnce(Ticks(t, n - 1));
      EndedNext(t, n - 1);
    }
  }

  lemma EndedNext(t: Timer, n: nat)
    requires t.clearA
    ensures Tick(Ended(t, n)) == Ended(t, n + 1)
  {
    var g := Gap(t, t.ocra);
    if n < g {
      NextBefore(t, n);
    } else if n == g {
      NextMatch(t);
    } else {
      NextAfter(t, n);
    }
  }

  lemma NextBefore(t: Timer, n: nat)
    requires t.clearA && n < Gap(t, t.ocra)
    ensures Tick(Ended(t, n)) == Ended(t, n + 1)
  {
    NextValue(t, t.ocra, n);
    NextValue(t, t.ocrb, n);
    hide Gap, Pending;
  }

  // One count on from the n-th, and whether it reaches x.
  lemma NextValue(t: Timer, x: U16, n: nat)
    requires n < 0x1_0000
    ensures var v: int := (t.frc as int + n) % 0x1_0000;
            var next := if v == 0xFFFF then 0 else v + 1;
            && next == (t.frc as int + n + 1) % 0x1_0000 && (next == x <==> Gap(t, x) == n)
            && (next < v <==> t.frc as int + n + 1 == 0x1_0000)
  {
  }

  lemma NextMatch(t: Timer)
    requires t.clearA
    ensures Tick(Ended(t, Gap(t, t.ocra))) == Ended(t, Gap(t, t.ocra) + 1)
  {
    RemainderIs(0, 0, 0, Turn(t));
  }

  lemma NextAfter(t: Timer, n: nat)
    requires t.clearA && n > Gap(t, t.ocra)
    ensures Tick(Ended(t, n)) == Ended(t, n + 1)
  {
    var since := n - (Gap(t, t.ocra) + 1);
    NextModulo(since, Turn(t));
  }

  lemma NextModulo(k: nat, p: nat)
    requires p > 0
    ensures var r := k % p;
            && 0 <= r <= k && (k < p ==> r == k) && r < p
            && (k + 1) % p == if r + 1 == p then 0 else r + 1
  {
    var q, r := k / p, k % p;
    assert k == q * p + r;
    if r + 1 == p {
      assert k + 1 == (q + 1) * p + 0;
      RemainderIs(k + 1, q + 1, 0, p);
    } else {
      RemainderIs(k + 1, q, r + 1, p);
    }
    if k < p {
      RemainderIs(k, 0, k, p);
    }
  }

  lemma AfterFirstClear(t: Timer, n: nat)
    requires t.clearA && Reaches(t, n)
    ensures var u := Ticks(t, n); u.frc == (n - (Gap(t, t.ocra) + 1)) % Turn(t) && u.frc as int < Turn(t)
  {
    TicksEnd(t, n);
  }

  lemma ReachesInTurn(t: Timer, n: nat)
    requires t.clearA && t.frc as int < Turn(t)
    ensures Reaches(t, n) <==> n >= Turn(t) - t.frc as int
  {
  }

  // With compare A clearing the counter, the phase of the prescaler is lost at
  // a match: two slices, 20 and 4 cycles, leave 0 counted and 4 in the
  // prescaler where one of 24 leaves 1 and nothing.
  lemma ClearLosesPhase()
    ensures var none := Bits(false, false, false, false);
            var t := Timer(none, none, true, 0, 2, 0x8000, 0, 0, false, false);
            var split, whole := Advance(Advance(t, 20), 4), Advance(t, 24);
            split.frc == 0 && split.pre == 4 && whole.frc == 1 && whole.pre == 0
  {
    hide Advance, Ticks;
    var none := Bits(false, false, false, false);
    var t := Timer(none, none, true, 0, 2, 0x8000, 0, 0, false, false);
    AdvanceIs(t, 20);
    AdvanceIs(t, 24);
    FewTicks(t.(pre := 4));
    FewTicks(t);
    var u := Advance(t, 20);
    assert u.frc == 0 && u.pre == 0;
    AdvanceIs(u, 4);
    TicksNone(u.(pre := 4));
  }

  lemma FewTicks(t: Timer)
    ensures Ticks(t, 2) == Tick(Tick(t)) && Ticks(t, 3) == Tick(Tick(Tick(t)))
  {
    hide Tick;
    assert Ticks(t, 2) == Ticks(Tick(t), 1) == Ticks(Tick(Tick(t)), 0);
    assert Ticks(t, 3) == Ticks(Tick(t), 2) == Ticks(Tick(Tick(t)), 1);
    assert Ticks(Tick(Tick(t)), 1) == Ticks(Tick(Tick(Tick(t))), 0);
  }

  lemma TickReaches(t: Timer, n: nat)
    requires n > 0
    ensures var a := (if t.frc == 0xFFFF then 0 else t.frc as int + 1) == t.ocra;
            && (a <==> Gap(t, t.ocra) == 0)
            && (!a ==> (Reaches(t, n) <==> Reaches(Tick(t), n - 1)))
            && (a ==> Reaches(t, n))
  {
  }

  lemma {:induction false} ZeroStays(t: Timer, n: nat)
    requires t.pre == 0
    ensures Ticks(t, n).pre == 0
    decreases n
  {
    if n > 0 {
      ZeroStays(Tick(t), n - 1);
    }
  }

  // What the prescaler holds after n counts, and that counting ignores it.
  lemma {:induction false} PreAfter(t: Timer, n: nat, x: U32)
    ensures var lost := t.clearA && Reaches(t, n);
            && Ticks(t, n).pre == (if lost then 0 else t.pre)
            && Ticks(t.(pre := x), n) == if lost then Ticks(t, n) else Ticks(t, n).(pre := x)
    decreases n
  {
    if n > 0 {
      TickReaches(t, n);
      PreAfter(Tick(t), n - 1, x);
      if t.clearA && Gap(t, t.ocra) == 0 {
        ZeroStays(Tick(t), n - 1);
        assert Tick(t.(pre := x)) == Tick(t);
      } else {
        assert Tick(t.(pre := x)) == Tick(t).(pre := x);
      }
    }
  }

  // Counters that a match has cleared: with compare value 1 they stand still.
  predicate Cleared(t: Timer) {
    && t.clearA && t.flags.compareA && t.pend == Pending(t) && t.pre == 0
    && (t.ocra == 1 ==> t.frc == 0 && (t.ocrb == 0 ==> t.flags.compareB))
  }

  lemma {:induction false} StaysCleared(t: Timer, n: nat)
    requires t.clearA
    ensures Reaches(t, n) ==> Cleared(Ticks(t, n))
    ensures Cleared(t) ==> Cleared(Ticks(t, n))
    decreases n
  {
    if n > 0 {
      TickReaches(t, n);
      StaysCleared(Tick(t), n - 1);
    }
  }

  lemma TickMoves(t: Timer)
    ensures t.ocra != 1 ==> Tick(t).frc != t.frc
    ensures t.ocra == 1 && Cleared(t) ==> Tick(t) == t
  {
  }

  lemma {:induction false} TicksKeep(t: Timer, n: nat)
    ensures var r := Ticks(t, n); r.clearA == t.clearA && r.ocra == t.ocra && Divider(r) == Divider(t)
    decreases n
  {
    if n > 0 {
      TicksKeep(Tick(t), n - 1);
    }
  }

  // While the prescaler does not wrap over the slices and the span differently, two
  // slices equal one span exactly when no match clears the counter in the first,
  // or the lost phase makes no difference. `since` counts go by between the first
  // clear and the end of the first slice.
  predicate PhaseSafe(t: Timer, a: U32, b: U32)
    requires Divider(t) != 0
  {
    var div, p: int := Divider(t), Loaded(t.pre, a);
    var rest: int := b as int % div;
    var since: int := p / div - (Gap(t, t.ocra) + 1);
    !(t.clearA && Reaches(t, p / div))
    || ((p % div + rest < div || t.ocra == 1) && (rest == 0 || b as int / div >= Turn(t) - since % Turn(t)))
  }

  lemma AddsUnwrapped(t: Timer, a: U32, b: U32)
    requires Divider(t) != 0 && NoWrap(t, a, b)
    ensures Advance(Advance(t, a), b) == Advance(t, a as int + b as int) <==> PhaseSafe(t, a, b)
  {
    hide Advance, Ticks, Tick, Reaches, Cleared, Gap, Turn, Divider;
    var div := Divider(t);
    var p: int := t.pre as int + a as int;
    var t1: nat, r1: int := p / div, p % div;
    AdvanceIs(t, a);
    ReachesIgnoresPre(t, r1, t1);
    assert Loaded(t.pre, a) as int == p;
    if t.clearA && Reaches(t, t1) {
      SliceAfterClear(t, a, b, div, t1, r1);
      ClearedPlace(t, a, t1, r1, b as int / div);
    } else {
      SliceKeepsPhase(t, a, b, div, t1, r1);
    }
  }

  // Where the counter stands after a first slice that cleared it, and when it
  // reaches the match again.
  lemma ClearedPlace(t: Timer, a: U32, n: nat, r: U32, m: nat)
    requires t.clearA && Reaches(t.(pre := r), n) && Advance(t, a) == Ticks(t.(pre := r), n)
    ensures n >= Gap(t, t.ocra) + 1
    ensures Reaches(Advance(t, a), m) <==> m >= Turn(t) - (n - (Gap(t, t.ocra) + 1)) % Turn(t)
  {
    assert n > Gap(t.(pre := r), t.ocra);
    hide Advance, Ticks, Tick, Reaches, Turn, Gap;
    TurnIgnoresPre(t, r);
    TicksKeep(t.(pre := r), n);
    AfterFirstClear(t.(pre := r), n);
    SameTurn(t, Advance(t, a));
    ReachesInTurn(Advance(t, a), m);
  }

  lemma TurnIgnoresPre(t: Timer, x: U32)
    ensures Turn(t.(pre := x)) == Turn(t) && Gap(t.(pre := x), t.ocra) == Gap(t, t.ocra)
  {
  }

  lemma SameTurn(t: Timer, u: Timer)
    requires t.ocra == u.ocra
    ensures Turn(t) == Turn(u)
  {
  }

  // The phase outlives the first slice.
  lemma SliceKeepsPhase(t: Timer, a: U32, b: U32, div: nat, t1: nat, r1: int)
    requires NoWrap(t, a, b) && Divider(t) == div != 0
    requires t1 == (t.pre as int + a as int) / div && 0 <= r1 == (t.pre as int + a as int) % div < div
    requires Advance(t, a) == Ticks(t.(pre := r1), t1) && !(t.clearA && Reaches(t.(pre := r1), t1))
    ensures Advance(Advance(t, a), b) == Advance(t, a as int + b as int)
  {
    hide Advance, Ticks, Tick, Reaches;
    var t2: nat, x: int := (r1 + b as int) / div, (r1 + b as int) % div;
    SplitTicks(t.pre as int + a as int, b, div);
    AdvanceIs(t, a as int + b as int);
    TicksKeep(t.(pre := r1), t1);
    TicksAdd(t.(pre := x), t1, t2);
    PreAfter(t.(pre := r1), t1, x);
    AdvanceIs(Advance(t, a), b);
  }

  // The first slice has cleared it.
  lemma SliceAfterClear(t: Timer, a: U32, b: U32, div: nat, t1: nat, r1: int)
    requires NoWrap(t, a, b) && Divider(t) == div != 0 && t.clearA
    requires t1 == (t.pre as int + a as int) / div && 0 <= r1 == (t.pre as int + a as int) % div < div
    requires Advance(t, a) == Ticks(t.(pre := r1), t1) && Reaches(t.(pre := r1), t1)
    ensures Advance(Advance(t, a), b) == Advance(t, a as int + b as int) <==>
            (r1 + b as int % div < div || t.ocra == 1) &&
            (b as int % div == 0 || Reaches(Advance(t, a), b as int / div))
  {
    hide Advance, Ticks, Tick, Reaches, Cleared, Turn, Gap;
    var u := Advance(t, a);
    var t2: nat, x: int := (r1 + b as int) / div, (r1 + b as int) % div;
    SplitTicks(t.pre as int + a as int, b, div);
    AdvanceIs(t, a as int + b as int);
    TicksKeep(t.(pre := r1), t1);
    TicksAdd(t.(pre := x), t1, t2);
    PreAfter(t.(pre := r1), t1, x);
    StaysCleared(t.(pre := r1), t1);
    ClearedPre(u);
    AdvanceIs(u, b);
    AfterClear(u, r1, b, div);
  }

  lemma ClearedPre(t: Timer)
    requires Cleared(t)
    ensures t.pre == 0
  {
  }

  lemma ReachesIgnoresPre(t: Timer, x: U32, n: nat)
    ensures Reaches(t.(pre := x), n) == Reaches(t, n)
  {
  }

  // The second slice after a clear in the first: u is the cleared timer, r the
  // phase that was lost.
  lemma AfterClear(u: Timer, r: int, b: U32, div: nat)
    requires Cleared(u) && 0 <= r < div && (div == 8 || div == 32 || div == 128)
    ensures var rest: U32 := b as int % div;
            Ticks(u.(pre := rest), b as int / div) == Ticks(u, (r + b as int) / div) <==>
            (r + rest < div || u.ocra == 1) && (rest == 0 || Reaches(u, b as int / div))
  {
    hide Ticks, Tick, Reaches;
    var rest: U32, n: nat := b as int % div, b as int / div;
    var w := Ticks(u, n);
    PreAfter(u, n, rest);
    StaysCleared(u, n);
    TicksKeep(u, n);
    TickMoves(w);
    TicksAdd(u, n, 1);
    TicksOnce(w);
    OneMore(r, b, div);
    ZeroStays(u, n + 1);
  }

  lemma TicksOnce(t: Timer)
    ensures Ticks(t, 1) == Tick(t)
  {
    assert Ticks(Tick(t), 0) == Tick(t);
  }

  lemma OneMore(r: int, b: int, div: nat)
    requires 0 <= r < div && b >= 0 && (div == 8 || div == 32 || div == 128)
    ensures (r + b) / div == b / div + if r + b % div < div then 0 else 1
  {
  }

  // ------------------------------------------------- the prescaler's wrap

  // The counts a slice makes, and the cycles it leaves over.
  function Counts(pre: U32, c: U32, div: nat): (n: nat)
    requires div > 0
  {
    var p: nat := Loaded(pre, c);
    p / div
  }

  function Rest(pre: U32, c: U32, div: nat): (x: U32)
    requires div > 0
  {
    Loaded(pre, c) % div
  }

  // What the prescaler holds after the first slice.
  function Kept(t: Timer, a: U32): (k: U32)
    requires Divider(t) != 0
  {
    if t.clearA && Reaches(t, Counts(t.pre, a, Divider(t))) then 0 else Rest(t.pre, a, Divider(t))
  }

  // The 32-bit register wraps over the span and over neither slice, so that the
  // span counts 2^32 cycles less.
  predicate Skips(t: Timer, a: U32, b: U32)
    requires Divider(t) != 0
  {
    && t.pre as int + a as int < 0x1_0000_0000 <= t.pre as int + a as int + b as int
    && Kept(t, a) as int + b as int < 0x1_0000_0000
  }

  // n counts and m counts leave the same but for the prescaler.
  predicate SameCounts(t: Timer, n: nat, m: nat) {
    && CountAfter(t, n) == CountAfter(t, m) && FlagsAfter(t, n) == FlagsAfter(t, m)
    && ((n == 0) == (m == 0) || t.pend == Pending(t))
  }

  // After n counts the next m reach compare A.
  predicate ReachesAgain(t: Timer, n: nat, m: nat) {
    var since := n - (Gap(t, t.ocra) + 1);
    if since >= 0 then m >= Turn(t) - since % Turn(t) else Reaches(t, n + m)
  }

  // What the prescaler holds after both slices.
  function KeptAfter(t: Timer, a: U32, b: U32): (k: U32)
    requires Divider(t) != 0
  {
    var div, k: U32 := Divider(t), Kept(t, a);
    if t.clearA && ReachesAgain(t, Counts(t.pre, a, div), Counts(k, b, div)) then 0 else Rest(k, b, div)
  }

  // Two slices equal one span, in either mode and for every prescaler.
  predicate SliceSafe(t: Timer, a: U32, b: U32)
    requires Divider(t) != 0 && a as int + b as int < 0x1_0000_0000
  {
    if Skips(t, a, b) then
      var div, span: U32 := Divider(t), a as int + b as int;
      SameCounts(t, Counts(t.pre, a, div) + Counts(Kept(t, a), b, div), Counts(t.pre, span, div))
      && KeptAfter(t, a, b) == Kept(t, span)
    else PhaseSafe(t, a, b)
  }

  // n counts that start with x in the prescaler.
  lemma WithPre(t: Timer, n: nat, x: U32)
    ensures Ticks(t.(pre := x), n) == Ticks(t, n).(pre := if t.clearA && Reaches(t, n) then 0 else x)
  {
    hide Ticks, Reaches;
    PreAfter(t, n, x);
  }

  lemma AdvanceLoaded(t: Timer, c: U32, div: nat)
    requires Divider(t) == div != 0
    ensures Advance(t, c) == Ticks(t.(pre := Rest(t.pre, c, div)), Counts(t.pre, c, div))
  {
    hide Ticks, Tick;
    var t': Timer := t.(pre := Loaded(t.pre, c));
    assert Advance(t, c) == Advance(t', 0);
    hide Advance;
    AdvanceIs(t', 0);
  }

  lemma SpanForm(t: Timer, c: U32)
    requires Divider(t) != 0
    ensures Advance(t, c) == Ticks(t, Counts(t.pre, c, Divider(t))).(pre := Kept(t, c))
  {
    hide Ticks, Reaches, Advance, Counts, Rest, Divider;
    var div := Divider(t);
    AdvanceLoaded(t, c, div);
    WithPre(t, Counts(t.pre, c, div), Rest(t.pre, c, div));
  }

  lemma SplitForm(t: Timer, a: U32, b: U32)
    requires Divider(t) != 0
    ensures Advance(Advance(t, a), b) ==
            Ticks(t, Counts(t.pre, a, Divider(t)) + Counts(Kept(t, a), b, Divider(t))).(pre := KeptAfter(t, a, b))
  {
    hide Advance, Ticks, Reaches, ReachesAgain, Counts, Rest, Divider, Kept;
    var div, k: U32 := Divider(t), Kept(t, a);
    var n := Counts(t.pre, a, div);
    SpanForm(t, a);
    SameDivider(t, n, k);
    AdvanceLoaded(Ticks(t, n).(pre := k), b, div);
    TwoRuns(t, n, Counts(k, b, div), Rest(k, b, div));
  }

  lemma TwoRuns(t: Timer, n: nat, m: nat, x: U32)
    ensures Ticks(Ticks(t, n).(pre := x), m) ==
            Ticks(t, n + m).(pre := if t.clearA && ReachesAgain(t, n, m) then 0 else x)
  {
    hide Ticks, Reaches, ReachesAgain;
    WithPre(Ticks(t, n), m, x);
    TicksKeep(t, n);
    TicksAdd(t, n, m);
    if t.clearA {
      ReachesLater(t, n, m);
    }
  }

  lemma SameDivider(t: Timer, n: nat, x: U32)
    ensures Divider(Ticks(t, n).(pre := x)) == Divider(t)
  {
    hide Ticks;
    TicksKeep(t, n);
  }

  // Reaching compare A again, from the registers at the start.
  lemma ReachesLater(t: Timer, n: nat, m: nat)
    requires t.clearA
    ensures Reaches(Ticks(t, n), m) <==> ReachesAgain(t, n, m)
  {
    hide Ticks, Tick, Turn, Gap;
    TicksKeep(t, n);
    if Reaches(t, n) {
      AfterFirstClear(t, n);
      SameTurn(t, Ticks(t, n));
      ReachesInTurn(Ticks(t, n), m);
    } else {
      GapAfter(t, n);
    }
  }

  lemma GapAfter(t: Timer, n: nat)
    requires !Reaches(t, n)
    ensures var u := Ticks(t, n); Gap(u, u.ocra) == Gap(t, t.ocra) - n
  {
    hide Ticks, Tick, FlagsAfter, Pending;
    TicksEnd(t, n);
  }

  lemma SameEnds(t: Timer, n: nat, m: nat, x: U32, y: U32)
    ensures Ticks(t, n).(pre := x) == Ticks(t, m).(pre := y) <==> SameCounts(t, n, m) && x == y
  {
    hide Ticks, CountAfter, FlagsAfter;
    TicksEnd(t, n);
    TicksEnd(t, m);
    NoneAfter(t);
  }

  lemma NoneAfter(t: Timer)
    ensures CountAfter(t, 0) == t.frc && FlagsAfter(t, 0) == t.flags
  {
  }

  // The register wraps in the second slice as it does in the span.
  lemma WrapsInSecond(t: Timer, a: U32, b: U32)
    requires Divider(t) != 0 && t.pre as int + a as int < 0x1_0000_0000 <= Kept(t, a) as int + b as int
    requires a as int + b as int < 0x1_0000_0000
    ensures PhaseSafe(t, a, b) && Advance(Advance(t, a), b) == Advance(t, a as int + b as int)
  {
    hide Advance, Ticks, Reaches, Turn, Gap, Counts, Rest, Divider;
    var div, span: U32 := Divider(t), a as int + b as int;
    assert !(t.clearA && Reaches(t, Counts(t.pre, a, div))) && Kept(t, a) == Rest(t.pre, a, div);
    WrapsAlike(t.pre, a, b, div, Kept(t, a));
    SplitForm(t, a, b);
    SpanForm(t, span);
    NotReached(t, Counts(t.pre, a, div));
    UnreachedIsSafe(t, a, b);
  }

  lemma UnreachedIsSafe(t: Timer, a: U32, b: U32)
    requires Divider(t) != 0 && !(t.clearA && Reaches(t, Counts(t.pre, a, Divider(t))))
    ensures PhaseSafe(t, a, b)
  {
    hide Turn, Gap, Reaches;
  }

  lemma WrapsAlike(pre: U32, a: U32, b: U32, div: nat, k: U32)
    requires (div == 8 || div == 32 || div == 128) && k == Rest(pre, a, div)
    requires pre as int + a as int < 0x1_0000_0000 <= k as int + b as int && a as int + b as int < 0x1_0000_0000
    ensures Counts(pre, a as int + b as int, div) == Counts(pre, a, div) + Counts(k, b, div)
    ensures Rest(pre, a as int + b as int, div) == Rest(k, b, div)
  {
    hide Loaded;
    var p: nat, span: U32 := pre as int + a as int, a as int + b as int;
    LoadedIs(pre, a);
    LoadedIs(k, b);
    LoadedIs(pre, span);
    RestBelow(p, div);
    var q: nat, w: nat := k as int + b as int - 0x1_0000_0000, p + b as int - 0x1_0000_0000;
    RestsOf(p, q, w, div);
  }

  lemma LoadedIs(pre: U32, c: U32)
    ensures var p: int := pre as int + c as int;
            Loaded(pre, c) == if p < 0x1_0000_0000 then p else p - 0x1_0000_0000
  {
  }

  lemma RestBelow(p: nat, div: nat)
    requires div > 0
    ensures 0 <= p % div <= p && p % div < div
  {
    assert p == p / div * div + p % div && p / div * div >= 0;
  }

  lemma RestsOf(p: nat, q: nat, w: nat, div: nat)
    requires (div == 8 || div == 32 || div == 128) && w - q == p - p % div
    ensures w / div == p / div + q / div && w % div == q % div
  {
    if div == 8 {
    } else if div == 32 {
    } else {
    }
  }

  lemma NotReached(t: Timer, n: nat)
    ensures Reaches(t, n) <==> n - (Gap(t, t.ocra) + 1) >= 0
  {
  }

  lemma SkipsIff(t: Timer, a: U32, b: U32)
    requires Divider(t) != 0 && a as int + b as int < 0x1_0000_0000 && Skips(t, a, b)
    ensures Advance(Advance(t, a), b) == Advance(t, a as int + b as int) <==> SliceSafe(t, a, b)
  {
    hide Advance, Skips, SameCounts, KeptAfter, Counts, Divider, Kept, Ticks;
    var div, span: U32 := Divider(t), a as int + b as int;
    SplitForm(t, a, b);
    SpanForm(t, span);
    SameEnds(t, Counts(t.pre, a, div) + Counts(Kept(t, a), b, div), Counts(t.pre, span, div),
             KeptAfter(t, a, b), Kept(t, span));
  }

  // The register wraps in the first slice as it does in the span, or not at all.
  lemma SameLoad(t: Timer, a: U32, b: U32)
    requires Divider(t) != 0 && a as int + b as int < 0x1_0000_0000
    requires t.pre as int + a as int >= 0x1_0000_0000 || NoWrap(t, a, b)
    ensures Advance(Advance(t, a), b) == Advance(t, a as int + b as int) <==> PhaseSafe(t, a, b)
  {
    hide Advance, PhaseSafe, Loaded, Divider;
    var t': Timer := t.(pre := Loaded(t.pre, a));
    LoadTwice(t.pre, a, b);
    AdvanceLoads(t, a, t', 0);
    AdvanceLoads(t, a as int + b as int, t', b);
    assert Divider(t') == Divider(t) by {
      DividerIgnoresPre(t, t'.pre);
    }
    AddsUnwrapped(t', 0, b);
    PhaseIgnoresLoad(t, a, b);
  }

  lemma DividerIgnoresPre(t: Timer, x: U32)
    ensures Divider(t.(pre := x)) == Divider(t)
  {
  }

  lemma LoadTwice(pre: U32, a: U32, b: U32)
    requires a as int + b as int < 0x1_0000_0000
    requires pre as int + a as int >= 0x1_0000_0000 || pre as int + a as int + b as int < 0x1_0000_0000
    ensures var p := Loaded(pre, a);
            && p as int + b as int < 0x1_0000_0000
            && Loaded(p, b) == Loaded(pre, a as int + b as int) && Loaded(p, 0) == p
  {
  }

  // What a span does depends on the prescaler and the span only through their sum.
  lemma AdvanceLoads(t: Timer, c: U32, u: Timer, c': U32)
    requires u == t.(pre := u.pre) && Loaded(t.pre, c) == Loaded(u.pre, c') && Divider(t) != 0
    ensures Advance(u, c') == Advance(t, c)
  {
    hide Ticks;
    DividerIgnoresPre(t, u.pre);
    hide Divider;
    var p := Loaded(t.pre, c);
    assert t.(pre := p) == u.(pre := p);
  }

  lemma PhaseIgnoresLoad(t: Timer, a: U32, b: U32)
    requires Divider(t) != 0
    ensures PhaseSafe(t.(pre := Loaded(t.pre, a)), 0, b) <==> PhaseSafe(t, a, b)
  {
    hide Turn, Gap;
    var t' := t.(pre := Loaded(t.pre, a));
    assert Loaded(t'.pre, 0) == Loaded(t.pre, a);
    TurnIgnoresPre(t, Loaded(t.pre, a));
  }

  // Exactly when two slices equal one span.
  lemma AdvanceAddsIff(t: Timer, a: U32, b: U32)
    requires Divider(t) != 0 && a as int + b as int < 0x1_0000_0000
    ensures Advance(Advance(t, a), b) == Advance(t, a as int + b as int) <==> SliceSafe(t, a, b)
  {
    hide Advance, PhaseSafe, SameCounts, KeptAfter, Loaded, Kept;
    if Skips(t, a, b) {
      SkipsIff(t, a, b);
    } else if t.pre as int + a as int < 0x1_0000_0000 <= t.pre as int + a as int + b as int {
      WrapsInSecond(t, a, b);
    } else {
      SameLoad(t, a, b);
    }
  }
}
