// The free-running timer: counting tick by tick, the span-skipping fast path, and
// slicing a span of cycles while compare A does not clear the counter.
module BusTimer {
  import opened Words

  // The flag bits of FTCSR and the enable bits of TIER, in the same places.
  datatype Bits = Bits(capture: bool, compareA: bool, compareB: bool, overflow: bool)

  // `clock` are TCR's two clock bits, `pre` the prescaler, `pend` the cached
  // "an enabled interrupt is pending", `deliver` the switch that allows it.
  datatype Timer = Timer(
    enable: Bits, flags: Bits, clearA: bool, frc: U16, ocra: U16, ocrb: U16, clock: nat,
    pre: U32, pend: bool, deliver: bool)

  function Divider(t: Timer): (d: nat)
    ensures d == 0 || d == 8 || d == 32 || d == 128
  {
    if t.clock % 4 == 0 then 8 else if t.clock % 4 == 1 then 32 else if t.clock % 4 == 2 then 128 else 0
  }

  // `frt_update_pend`
  predicate Pending(t: Timer) {
    t.deliver &&
    ((t.enable.capture && t.flags.capture) || (t.enable.compareA && t.flags.compareA)
     || (t.enable.compareB && t.flags.compareB) || (t.enable.overflow && t.flags.overflow))
  }

  function Polled(t: Timer): Timer { t.(pend := Pending(t)) }

  // One count: overflow, compare A with its clear, compare B, in this order.
  function Tick(t: Timer): Timer {
    var next: U16 := if t.frc == 0xFFFF then 0 else t.frc + 1;
    var f := if next < t.frc then t.flags.(overflow := true) else t.flags;
    var a := next == t.ocra;
    var f' := if a then f.(compareA := true) else f;
    var clear := a && t.clearA;
    var frc := if clear then 0 else next;
    var f'' := if frc == t.ocrb then f'.(compareB := true) else f';
    Polled(t.(frc := frc, flags := f'', pre := if clear then 0 else t.pre))
  }

  function Ticks(t: Timer, n: nat): (r: Timer)
    decreases n
  {
    if n == 0 then t else Ticks(Tick(t), n - 1)
  }

  // `frt_advance` without its fast path: a prescaler and a loop of counts.
  function Advance(t: Timer, cycles: U32): Timer {
    var div := Divider(t);
    if div == 0 then t else
    var pre: int := (t.pre as int + cycles as int) % 0x1_0000_0000;
    var ticks := pre / div;
    if ticks == 0 then t.(pre := pre) else Ticks(t.(pre := pre - ticks * div), ticks)
  }

  // ----------------------------------------------------------- the fast path

  // How many counts go by before the next one reaches x; an equal value is a
  // whole turn away.
  function Gap(t: Timer, x: U16): (g: nat)
    ensures g < 0x1_0000
  {
    (x as int - t.frc as int - 1) % 0x1_0000
  }

  predicate NothingHappens(t: Timer, n: nat) {
    n < 0x1_0000 - t.frc as int && n <= Gap(t, t.ocra) && n <= Gap(t, t.ocrb)
  }

  lemma TickQuietly(t: Timer)
    requires t.frc < 0xFFFF && Gap(t, t.ocra) > 0 && Gap(t, t.ocrb) > 0
    ensures var next: U16 := t.frc + 1;
            && Tick(t) == Polled(t.(frc := next))
            && Gap(Tick(t), t.ocra) == Gap(t, t.ocra) - 1 && Gap(Tick(t), t.ocrb) == Gap(t, t.ocrb) - 1
  {
    GapMoves(t, t.ocra);
    GapMoves(t, t.ocrb);
  }

  lemma GapMoves(t: Timer, x: U16)
    requires t.frc < 0xFFFF
    ensures var u := t.(frc := t.frc + 1);
            if Gap(t, x) == 0 then x == u.frc else x != u.frc && Gap(u, x) == Gap(t, x) - 1
  {
  }

  // When nothing happens in a span, counting through it is one addition.
  lemma {:induction false} FastPathIsLoop(t: Timer, n: nat)
    requires NothingHappens(t, n) && n > 0
    ensures Ticks(t, n) == Polled(t.(frc := t.frc as int + n))
    decreases n
  {
    hide Tick, Gap;
    TickQuietly(t);
    if n > 1 {
      FastPathIsLoop(Tick(t), n - 1);
    } else {
      assert Ticks(Tick(t), 0) == Tick(t);
    }
  }

  // ------------------------------------------------------------ closed form

  // What n counts do while compare A does not clear the counter.
  function Counted(t: Timer, n: nat): Timer {
    Polled(t.(frc := (t.frc as int + n) % 0x1_0000,
              flags := t.flags.(overflow := t.flags.overflow || t.frc as int + n >= 0x1_0000,
                                compareA := t.flags.compareA || n > Gap(t, t.ocra),
                                compareB := t.flags.compareB || n > Gap(t, t.ocrb))))
  }

  lemma TickCounts(t: Timer)
    requires !t.clearA
    ensures Tick(t) == Counted(t, 1)
  {
  }

  lemma GapAfterOne(t: Timer, u: Timer, x: U16)
    requires u.frc as int == (t.frc as int + 1) % 0x1_0000
    ensures Gap(u, x) == if Gap(t, x) == 0 then 0xFFFF else Gap(t, x) - 1
  {
  }

  // Any number of counts at once: each flag is set exactly when its value was
  // reached, the overflow when the counter wrapped.
  lemma {:induction false} TicksCount(t: Timer, n: nat)
    requires !t.clearA && n > 0
    ensures Ticks(t, n) == Counted(t, n)
    decreases n
  {
    if n == 1 {
      TickCounts(t);
      assert Ticks(Tick(t), 0) == Tick(t);
    } else {
      TickCounts(t);
      TicksCount(Tick(t), n - 1);
      CountedOn(t, n - 1);
    }
  }

  lemma CountedOn(t: Timer, n: nat)
    requires n > 0
    ensures Counted(Counted(t, 1), n) == Counted(t, n + 1)
  {
    hide Gap;
    var u := Counted(t, 1);
    GapAfterOne(t, u, t.ocra);
    GapAfterOne(t, u, t.ocrb);
  }

  // -------------------------------------------------------------- slicing

  lemma {:induction false} TicksAdd(t: Timer, m: nat, n: nat)
    ensures Ticks(Ticks(t, m), n) == Ticks(t, m + n)
    decreases m
  {
    hide Tick;
    if m > 0 {
      TicksAdd(Tick(t), m - 1, n);
    }
  }

  // The prescaler plays no part in counting.
  lemma {:induction false} TicksIgnorePre(t: Timer, n: nat, pre: U32)
    requires !t.clearA
    ensures Ticks(t.(pre := pre), n) == Ticks(t, n).(pre := pre) && Ticks(t, n).pre == t.pre
    ensures Divider(Ticks(t, n)) == Divider(t) && !Ticks(t, n).clearA
    decreases n
  {
    if n > 0 {
      TicksIgnorePre(Tick(t), n - 1, pre);
    }
  }

  // The ticks of a whole span and of its two slices.
  lemma SplitTicks(p: nat, b: nat, div: nat)
    requires div == 8 || div == 32 || div == 128
    ensures (p + b) / div == p / div + (p % div + b) / div && (p + b) % div == (p % div + b) % div
  {
    if div == 8 {
      assert (p + b) / 8 == p / 8 + (p % 8 + b) / 8;
    } else if div == 32 {
      assert (p + b) / 32 == p / 32 + (p % 32 + b) / 32;
    } else {
      assert (p + b) / 128 == p / 128 + (p % 128 + b) / 128;
    }
  }

  // An advance is a number of counts with the remainder in the prescaler.
  lemma AdvanceIs(t: Timer, cycles: U32)
    requires Divider(t) != 0 && t.pre as int + cycles as int < 0x1_0000_0000
    ensures var p: int := t.pre as int + cycles as int;
            0 <= p % Divider(t) < 0x1_0000_0000
            && Advance(t, cycles) == Ticks(t.(pre := p % Divider(t)), p / Divider(t))
  {
    hide Ticks, Tick;
    var p: int := t.pre as int + cycles as int;
    assert p - p / 8 * 8 == p % 8 && p - p / 32 * 32 == p % 32 && p - p / 128 * 128 == p % 128;
    TicksNone(t.(pre := p));
  }

  lemma TicksNone(t: Timer)
    ensures Ticks(t, 0) == t
  {
  }

  predicate NoWrap(t: Timer, a: U32, b: U32) { t.pre as int + a as int + b as int < 0x1_0000_0000 }

  function Total(s: seq<U32>): nat
    decreases |s|
  {
    if s == [] then 0 else s[0] as int + Total(s[1..])
  }

  function AdvanceAll(t: Timer, s: seq<U32>): Timer
    decreases |s|
  {
    if s == [] then t else AdvanceAll(Advance(t, s[0]), s[1..])
  }

  // n counts that leave `pre` in the prescaler.
  function After(t: Timer, n: nat, pre: U32): Timer { Ticks(t, n).(pre := pre) }

  // What the 32-bit prescaler register makes of a span of cycles.
  function Loaded(pre: U32, cycles: U32): (p: U32) { (pre as int + cycles as int) % 0x1_0000_0000 }

  lemma AdvanceIsAfter(t: Timer, cycles: U32, p: int)
    requires !t.clearA && Divider(t) != 0 && p == Loaded(t.pre, cycles)
    ensures 0 <= p % Divider(t) < 128 && Advance(t, cycles) == After(t, p / Divider(t), p % Divider(t))
  {
    hide Ticks, Tick;
    assert p - p / 8 * 8 == p % 8 && p - p / 32 * 32 == p % 32 && p - p / 128 * 128 == p % 128;
    TicksNone(t);
    TicksIgnorePre(t, p / Divider(t), p % Divider(t));
  }

  lemma AfterAfter(t: Timer, m: nat, x: U32, n: nat, y: U32)
    requires !t.clearA
    ensures After(After(t, m, x), n, y) == After(t, m + n, y)
    ensures Divider(After(t, m, x)) == Divider(t) && !After(t, m, x).clearA
  {
    hide Ticks;
    TicksIgnorePre(t, m, x);
    TicksIgnorePre(Ticks(t, m), n, x);
    TicksAdd(t, m, n);
  }

  // How often the register wraps over these slices; each wrap loses 2^32 cycles.
  function Wraps(pre: U32, s: seq<U32>, div: nat): (w: nat)
    requires div > 0
    decreases |s|
  {
    if s == [] then 0 else
    (if pre as int + s[0] as int >= 0x1_0000_0000 then 1 else 0) + Wraps(Loaded(pre, s[0]) % div, s[1..], div)
  }

  // What a timer with `cycles` in all has counted and kept.
  lemma {:induction false} AdvanceAllIs(t: Timer, s: seq<U32>, div: nat) returns (n: nat, x: U32)
    requires !t.clearA && Divider(t) == div != 0 && s != []
    ensures AdvanceAll(t, s) == After(t, n, x) && x < div
    ensures n * div + x == t.pre as int + Total(s) - 0x1_0000_0000 * Wraps(t.pre, s, div)
    decreases |s|
  {
    hide Advance, After;
    var p := Loaded(t.pre, s[0]);
    AdvanceIsAfter(t, s[0], p);
    n, x := p / div, p % div;
    assert n * div + x == p;
    var u := Advance(t, s[0]);
    if |s| == 1 {
      assert s[1..] == [] && AdvanceAll(u, s[1..]) == u && Total(s) == s[0] && Wraps(x, s[1..], div) == 0;
    } else {
      AfterAfter(t, n, x, 0, x);
      AfterPre(t, n, x);
      var m, y := AdvanceAllIs(u, s[1..], div);
      AfterAfter(t, n, x, m, y);
      assert (n + m) * div == n * div + m * div;
      n, x := n + m, y;
    }
  }

  lemma AfterPre(t: Timer, n: nat, x: U32)
    ensures After(t, n, x).pre == x
  {
  }

  // Nothing is left for a further turn of the counter to set.
  predicate AllSet(t: Timer, n: nat) {
    && (t.flags.overflow || t.frc as int + n >= 0x1_0000)
    && (t.flags.compareA || n > Gap(t, t.ocra)) && (t.flags.compareB || n > Gap(t, t.ocrb))
    && (n > 0 || t.pend == Pending(t))
  }

  // 2^32 cycles are a whole number of turns of the counter.
  lemma TurnsMore(t: Timer, n: nat, k: nat, x: U32)
    requires !t.clearA && k >= 0x1_0000 && k % 0x1_0000 == 0
    ensures After(t, n + k, x) == After(t, n, x) <==> AllSet(t, n)
  {
    hide Ticks, Tick, Pending;
    TicksCount(t, n + k);
    TurnsModulo(t.frc, n, k);
    if n > 0 {
      TicksCount(t, n);
      PendingByFlags(Counted(t, n), Counted(t, n + k));
    } else {
      TicksNone(t);
      PendingByFlags(t, Counted(t, k));
    }
  }

  lemma TurnsModulo(frc: U16, n: nat, k: nat)
    requires k % 0x1_0000 == 0
    ensures (frc as int + n + k) % 0x1_0000 == (frc as int + n) % 0x1_0000
    ensures (frc as int + k) % 0x1_0000 == frc
  {
  }

  lemma PendingByFlags(t: Timer, u: Timer)
    ensures t.flags == u.flags && t.enable == u.enable && t.deliver == u.deliver ==> Pending(t) == Pending(u)
  {
  }

  // n counts with x kept, after w wraps, against one load of the register.
  lemma CountsAgainst(v: nat, w: nat, n: nat, x: nat, div: nat, p: nat)
    requires div == 8 || div == 32 || div == 128
    requires n * div + x == v - 0x1_0000_0000 * w && x < div && v < 0x2_0000_0000 && p == v % 0x1_0000_0000
    ensures x == p % div
    ensures n == if v < 0x1_0000_0000 || w > 0 then p / div else p / div + 0x1_0000_0000 / div
  {
    var k := 0x1_0000_0000 / div;
    assert k * div == 0x1_0000_0000;
    if v < 0x1_0000_0000 || w > 0 {
      QuotientIs(p, n, x, div);
    } else {
      assert (n - k) * div == n * div - k * div;
      QuotientIs(p, n - k, x, div);
    }
  }

  lemma QuotientIs(v: nat, n: int, x: nat, div: nat)
    requires div == 8 || div == 32 || div == 128
    requires v == n * div + x && x < div
    ensures v / div == n && v % div == x
  {
  }

  // Any way of cutting a span into slices, while compare A does not clear the
  // counter: it cannot be told from the timer if and only if the 32-bit prescaler
  // wraps over the slices as often as over the span, or the turns of the counter
  // that the span then misses would have set nothing more.
  lemma SlicesDoNotMatter(t: Timer, s: seq<U32>)
    requires !t.clearA && Divider(t) != 0 && s != [] && Total(s) < 0x1_0000_0000
    ensures var p: int := Loaded(t.pre, Total(s));
            AdvanceAll(t, s) == Advance(t, Total(s)) <==>
            || t.pre as int + Total(s) < 0x1_0000_0000 || Wraps(t.pre, s, Divider(t)) > 0
            || AllSet(t, p / Divider(t))
  {
    hide Advance, After, AllSet, AdvanceAll, Wraps, Total, Gap, Ticks;
    var div, p: int := Divider(t), Loaded(t.pre, Total(s));
    var n, x := AdvanceAllIs(t, s, div);
    AdvanceIsAfter(t, Total(s), p);
    CountsAgainst(t.pre as int + Total(s), Wraps(t.pre, s, div), n, x, div, p);
    TurnsMore(t, p / div, 0x1_0000_0000 / div, x);
  }

  lemma TwoSlices(t: Timer, a: U32, b: U32, div: nat)
    requires div > 0
    ensures Total([a, b]) == a as int + b as int && AdvanceAll(t, [a, b]) == Advance(Advance(t, a), b)
    ensures Wraps(t.pre, [a, b], div) > 0 <==>
            || t.pre as int + a as int >= 0x1_0000_0000
            || Loaded(t.pre, a) % div + b as int >= 0x1_0000_0000
  {
    hide Advance;
    var s: seq<U32> := [a, b];
    assert s[1..] == [b] && [b][1..] == [];
    assert Total([b]) == b && Total(s) == a as int + b as int;
    var x: U32 := Loaded(t.pre, a) % div;
    assert Wraps(x, [b], div) == if x as int + b as int >= 0x1_0000_0000 then 1 else 0;
    assert AdvanceAll(Advance(t, a), [b]) == Advance(Advance(t, a), b);
  }

  lemma NoClock(t: Timer, a: U32, b: U32)
    requires Divider(t) == 0 && a as int + b as int < 0x1_0000_0000
    ensures Advance(Advance(t, a), b) == Advance(t, a as int + b as int) == t
  {
  }

  // Two slices.
  lemma AdvanceAdds(t: Timer, a: U32, b: U32)
    requires !t.clearA && a as int + b as int < 0x1_0000_0000
    ensures var div, p: int := Divider(t), Loaded(t.pre, a as int + b as int);
            Advance(Advance(t, a), b) == Advance(t, a as int + b as int) <==>
            || div == 0 || NoWrap(t, a, b)
            || t.pre as int + a as int >= 0x1_0000_0000
            || Loaded(t.pre, a) % div + b as int >= 0x1_0000_0000
            || AllSet(t, p / div)
  {
    hide AllSet, Total, Wraps, AdvanceAll, Advance;
    if Divider(t) != 0 {
      TwoSlices(t, a, b, Divider(t));
      SlicesDoNotMatter(t, [a, b]);
    } else {
      NoClock(t, a, b);
    }
  }

  // ------------------------------------------------------- as it is run

  class FreeRunningTimer {
    var enable: Bits
    var flags: Bits
    var clearA: bool
    var frc: U16
    var ocra: U16
    var ocrb: U16
    var clock: nat
    var pre: U32
    var pend: bool
    const deliver: bool

    ghost function Model(): Timer
      reads this
    {
      Timer(enable, flags, clearA, frc, ocra, ocrb, clock, pre, pend, deliver)
    }

    method UpdatePend()
      modifies `pend
      ensures Model() == Polled(old(Model()))
    {
      pend := deliver && ((enable.capture && flags.capture) || (enable.compareA && flags.compareA)
                          || (enable.compareB && flags.compareB) || (enable.overflow && flags.overflow));
    }

    method Count()
      modifies `frc, `flags, `pre, `pend
      ensures Model() == Tick(old(Model()))
    {
      var prev := frc;
      frc := if frc == 0xFFFF then 0 else frc + 1;
      if frc < prev {
        flags := flags.(overflow := true);
      }
      if frc == ocra {
        flags := flags.(compareA := true);
        if clearA {
          frc, pre := 0, 0;
        }
      }
      if frc == ocrb {
        flags := flags.(compareB := true);
      }
      UpdatePend();
    }

    lemma TicksUnfold(t: Timer, n: nat)
      ensures n > 0 ==> Ticks(t, n) == Ticks(Tick(t), n - 1)
      ensures n == 0 ==> Ticks(t, n) == t
    {
    }

    method CountAll(n: nat)
      modifies `frc, `flags, `pre, `pend
      ensures Model() == Ticks(old(Model()), n)
    {
      hide Tick, Ticks;
      var ticks := n;
      TicksUnfold(Model(), ticks);
      while ticks > 0
        invariant Ticks(Model(), ticks) == Ticks(old(Model()), n)
      {
        TicksUnfold(Model(), ticks);
        ticks := ticks - 1;
        Count();
      }
      TicksUnfold(Model(), 0);
    }

    // The span of `ticks` counts has neither a compare nor an overflow in it.
    predicate Quiet(ticks: nat)
      reads this
    {
      ticks > 1 && ticks < 0x1_0000 - frc as int
      && ticks <= (ocra as int - frc as int - 1) % 0x1_0000 && ticks <= (ocrb as int - frc as int - 1) % 0x1_0000
    }

    // `frt_advance`, skipping a quiet span in one step.
    method AdvanceTimer(cycles: U32)
      modifies `frc, `flags, `pre, `pend
      ensures Model() == Advance(old(Model()), cycles)
    {
      hide Ticks, Tick, Pending;
      var div := if clock % 4 == 0 then 8 else if clock % 4 == 1 then 32 else if clock % 4 == 2 then 128 else 0;
      if div == 0 {
        return;
      }
      pre := (pre as int + cycles as int) % 0x1_0000_0000;
      var ticks := pre as int / div;
      if ticks == 0 {
        return;
      }
      pre := pre as int - ticks * div;
      if Quiet(ticks) {
        FastPathIsLoop(Model(), ticks);
        frc := frc as int + ticks;
        UpdatePend();
        return;
      }
      CountAll(ticks);
    }
  }

  // An interrupt is pending exactly when one of the four flags is set whose enable
  // bit is set too, if delivery is on at all.
  function Bit(b: Bits, k: nat): bool
    requires k < 4
  {
    if k == 0 then b.capture else if k == 1 then b.compareA else if k == 2 then b.compareB else b.overflow
  }

  lemma PendingMeans(t: Timer)
    ensures Pending(t) <==> t.deliver && exists k: nat | k < 4 :: Bit(t.enable, k) && Bit(t.flags, k)
  {
    assert Bit(t.enable, 0) == t.enable.capture && Bit(t.enable, 1) == t.enable.compareA;
    assert Bit(t.enable, 2) == t.enable.compareB && Bit(t.enable, 3) == t.enable.overflow;
  }

  // The clock bits choose how many cycles a count takes: 8, 32, 128, or none at all
  // for the external clock.
  lemma CyclesPerCount(t: Timer, n: nat, c: U32)
    requires t.pre == 0 && 128 * n < 0x1_0000_0000
    ensures t.clock % 4 == 0 ==> Advance(t, 8 * n) == Ticks(t, n)
    ensures t.clock % 4 == 1 ==> Advance(t, 32 * n) == Ticks(t, n)
    ensures t.clock % 4 == 2 ==> Advance(t, 128 * n) == Ticks(t, n)
    ensures t.clock % 4 == 3 ==> Advance(t, c) == t
  {
    hide Advance;
    if t.clock % 4 == 0 {
      WholeCounts(t, n, 8);
    } else if t.clock % 4 == 1 {
      WholeCounts(t, n, 32);
    } else if t.clock % 4 == 2 {
      WholeCounts(t, n, 128);
    } else {
      ExternalClock(t, c);
    }
  }

  lemma WholeCounts(t: Timer, n: nat, div: nat)
    requires t.pre == 0 && div > 0 && Divider(t) == div && n * div < 0x1_0000_0000
    ensures Advance(t, n * div) == Ticks(t, n)
  {
    hide Tick, Divider;
    assert n * div / div == n;
    assert t.(pre := 0) == t;
  }

  lemma ExternalClock(t: Timer, c: U32)
    requires Divider(t) == 0
    ensures Advance(t, c) == t
  {
  }
}
