// The 68000's add, subtract and compare, what their flags mean, and what a
// chain of extended adds or subtracts computes on numbers of any width.
module M68kAlu {
  import opened Multiples

  datatype Size = Byte | Word | Long

  function Modulus(sz: Size): (m: nat)
    ensures m >= 256 && m % 2 == 0
  {
    match sz
    case Byte => 0x100
    case Word => 0x1_0000
    case Long => 0x1_0000_0000
  }

  datatype Flags = Flags(x: bool, n: bool, z: bool, v: bool, c: bool)

  function Bit(b: bool): nat { if b then 1 else 0 }

  // The signed reading of a residue.
  function Signed(v: int, m: int): int { if 2 * v >= m then v - m else v }

  predicate InSignedRange(t: int, m: int) { -m <= 2 * t < m }

  datatype Result = Result(r: nat, f: Flags)

  // b + a, as the manual describes it: the residue, the carry out, whether the
  // signed sum fits, and with X a zero flag that only survives.
  function Sum(f: Flags, a: nat, b: nat, m: nat, withX: bool): (o: Result)
    requires a < m && b < m
    ensures o.r < m
  {
    var x := Bit(withX && f.x);
    var full := a + b + x;
    var r := if full >= m then full - m else full;
    var c := full >= m;
    Result(r, Flags(c, 2 * r >= m, r == 0 && (withX ==> f.z),
                    !InSignedRange(Signed(a, m) + Signed(b, m) + x, m), c))
  }

  // b - a likewise, with the borrow out.
  function Difference(f: Flags, a: nat, b: nat, m: nat, withX: bool): (o: Result)
    requires a < m && b < m
    ensures o.r < m
  {
    var x := Bit(withX && f.x);
    var full := b - a - x;
    var r := if full < 0 then full + m else full;
    var c := full < 0;
    Result(r, Flags(c, 2 * r >= m, r == 0 && (withX ==> f.z),
                    !InSignedRange(Signed(b, m) - Signed(a, m) - x, m), c))
  }

  // ------------------------------------------------ conditions on flags

  datatype Condition = T | F | HI | LS | CC | CS | NE | EQ | VC | VS | PL | MI | GE | LT | GT | LE

  // `cond_true`
  predicate Holds(f: Flags, c: Condition) {
    match c
    case T => true
    case F => false
    case HI => !f.c && !f.z
    case LS => f.c || f.z
    case CC => !f.c
    case CS => f.c
    case NE => !f.z
    case EQ => f.z
    case VC => !f.v
    case VS => f.v
    case PL => !f.n
    case MI => f.n
    case GE => f.n == f.v
    case LT => f.n != f.v
    case GT => !f.z && f.n == f.v
    case LE => f.z || f.n != f.v
  }

  function ConditionOf(code: nat): Condition {
    match code
    case 0 => T
    case 1 => F
    case 2 => HI
    case 3 => LS
    case 4 => CC
    case 5 => CS
    case 6 => NE
    case 7 => EQ
    case 8 => VC
    case 9 => VS
    case 10 => PL
    case 11 => MI
    case 12 => GE
    case 13 => LT
    case 14 => GT
    case _ => LE
  }

  // What the conditions ask of two numbers after b - a; `ua`, `ub` are their
  // unsigned and `sa`, `sb` their signed values, m the modulus.
  predicate Compares(c: Condition, ua: int, ub: int, sa: int, sb: int, m: nat) {
    match c
    case T => true
    case F => false
    case HI => ub > ua
    case LS => ub <= ua
    case CC => ub >= ua
    case CS => ub < ua
    case NE => ub != ua
    case EQ => ub == ua
    case VC => InSignedRange(sb - sa, m)
    case VS => !InSignedRange(sb - sa, m)
    case PL => InSignedRange(sb - sa, m) == (sb >= sa)
    case MI => InSignedRange(sb - sa, m) == (sb < sa)
    case GE => sb >= sa
    case LT => sb < sa
    case GT => sb > sa
    case LE => sb <= sa
  }

  // ------------------------------------------------------------- numbers

  function Pow(m: nat, n: nat): (p: nat)
    requires m > 0
    ensures p > 0
  {
    if n == 0 then 1 else m * Pow(m, n - 1)
  }

  predicate Limbs(s: seq<nat>, m: nat) { forall i | 0 <= i < |s| :: s[i] < m }

  // The number whose digits in base m are s, least significant first.
  function Value(s: seq<nat>, m: nat): int
    requires m > 0
    decreases |s|
  {
    if s == [] then 0 else Value(s[..|s| - 1], m) + Times(s[|s| - 1], Pow(m, |s| - 1))
  }

  function SignedValue(s: seq<nat>, m: nat): int
    requires m > 0
  {
    Signed(Value(s, m), Pow(m, |s|))
  }

  // The digits and flags a run of extended operations leaves, from X clear and Z set.
  datatype Chained = Chained(digits: seq<nat>, f: Flags)

  const START := Flags(false, false, true, false, false)

  function AddChain(a: seq<nat>, b: seq<nat>, m: nat): (o: Chained)
    requires m > 0 && |a| == |b| && Limbs(a, m) && Limbs(b, m)
    ensures |o.digits| == |a| && Limbs(o.digits, m)
    decreases |a|
  {
    if a == [] then Chained([], START) else
    var n := |a| - 1;
    var low := AddChain(a[..n], b[..n], m);
    var top := Sum(low.f, a[n], b[n], m, true);
    Chained(low.digits + [top.r], top.f)
  }

  function SubChain(a: seq<nat>, b: seq<nat>, m: nat): (o: Chained)
    requires m > 0 && |a| == |b| && Limbs(a, m) && Limbs(b, m)
    ensures |o.digits| == |a| && Limbs(o.digits, m)
    decreases |a|
  {
    if a == [] then Chained([], START) else
    var n := |a| - 1;
    var low := SubChain(a[..n], b[..n], m);
    var top := Difference(low.f, a[n], b[n], m, true);
    Chained(low.digits + [top.r], top.f)
  }

  // ------------------------------------------------------------- the sums

  // One more digit on top: what happens to a sum and to a difference.
  lemma AddOnTop(va: int, vb: int, vr: int, k: int, a: int, b: int, r: int, k': int, p: int, m: int)
    requires va + vb == vr + Times(k, p) && a + b + k == r + k' * m
    ensures (va + Times(a, p)) + (vb + Times(b, p)) == (vr + Times(r, p)) + Times(k', m * p)
  {
    assert (a + b + k) * p == a * p + b * p + k * p;
    assert (r + k' * m) * p == r * p + (k' * m) * p;
    assert (k' * m) * p == k' * (m * p);
  }

  lemma SubOnTop(va: int, vb: int, vr: int, k: int, a: int, b: int, r: int, k': int, p: int, m: int)
    requires vb - va == vr - Times(k, p) && r + a + k == b + k' * m
    ensures (vb + Times(b, p)) - (va + Times(a, p)) == (vr + Times(r, p)) - Times(k', m * p)
  {
    assert (r + a + k) * p == r * p + a * p + k * p;
    assert (b + k' * m) * p == b * p + (k' * m) * p;
    assert (k' * m) * p == k' * (m * p);
  }

  lemma ValueOnTop(s: seq<nat>, d: nat, m: nat)
    requires m > 0
    ensures Value(s + [d], m) == Value(s, m) + Times(d, Pow(m, |s|))
  {
    assert (s + [d])[..|s|] == s;
  }

  lemma SumCarry(f: Flags, a: nat, b: nat, m: nat)
    requires a < m && b < m
    ensures var o := Sum(f, a, b, m, true); a + b + Bit(f.x) == o.r + Bit(o.f.c) * m && o.f.x == o.f.c
  {
  }

  lemma DifferenceBorrow(f: Flags, a: nat, b: nat, m: nat)
    requires a < m && b < m
    ensures var o := Difference(f, a, b, m, true); o.r + a + Bit(f.x) == b + Bit(o.f.c) * m && o.f.x == o.f.c
  {
  }

  lemma {:induction false} AddChainSum(a: seq<nat>, b: seq<nat>, m: nat)
    requires m > 0 && |a| == |b| && Limbs(a, m) && Limbs(b, m)
    ensures var o := AddChain(a, b, m);
            Value(a, m) + Value(b, m) == Value(o.digits, m) + Times(Bit(o.f.c), Pow(m, |a|)) && o.f.x == o.f.c
    decreases |a|
  {
    if a != [] {
      hide Sum, Times, Bit;
      var n := |a| - 1;
      AddChainSum(a[..n], b[..n], m);
      var low := AddChain(a[..n], b[..n], m);
      var top := Sum(low.f, a[n], b[n], m, true);
      SumCarry(low.f, a[n], b[n], m);
      ValueOnTop(low.digits, top.r, m);
      AddOnTop(Value(a[..n], m), Value(b[..n], m), Value(low.digits, m), Bit(low.f.c), a[n], b[n], top.r, Bit(top.f.c),
               Pow(m, n), m);
    } else {
      hide Sum;
    }
  }

  lemma {:induction false} SubChainDifference(a: seq<nat>, b: seq<nat>, m: nat)
    requires m > 0 && |a| == |b| && Limbs(a, m) && Limbs(b, m)
    ensures var o := SubChain(a, b, m);
            Value(b, m) - Value(a, m) == Value(o.digits, m) - Times(Bit(o.f.c), Pow(m, |a|)) && o.f.x == o.f.c
    decreases |a|
  {
    if a != [] {
      hide Difference, Times, Bit;
      var n := |a| - 1;
      SubChainDifference(a[..n], b[..n], m);
      var low := SubChain(a[..n], b[..n], m);
      var top := Difference(low.f, a[n], b[n], m, true);
      DifferenceBorrow(low.f, a[n], b[n], m);
      ValueOnTop(low.digits, top.r, m);
      SubOnTop(Value(a[..n], m), Value(b[..n], m), Value(low.digits, m), Bit(low.f.c), a[n], b[n], top.r, Bit(top.f.c),
               Pow(m, n), m);
    } else {
      hide Difference;
    }
  }

  lemma TimesLinear(t: int, m: int, p: int)
    ensures Times(2 * t, p) == 2 * Times(t, p) && Times(t - m, p) == Times(t, p) - m * p
    ensures Times(m, p) == m * p && Times(m - 2, p) == m * p - 2 * p
    ensures Times(-m, p) == -(m * p) && Times(-m - 2, p) == -(m * p) - 2 * p
  {
  }

  // A value v below p under a digit t of weight p: which half of the range of
  // m * p it falls in is decided by t alone.
  lemma RangeOnTop(v: int, t: int, p: int, m: int)
    requires 0 <= v < p && m % 2 == 0
    ensures InSignedRange(v + Times(t, p), m * p) <==> InSignedRange(t, m)
  {
    hide Times;
    TimesLinear(t, m, p);
    if 2 * t >= m {
      TimesGrows(m, 2 * t, p);
    } else {
      TimesGrows(2 * t, m - 2, p);
    }
    if 2 * t >= -m {
      TimesGrows(-m, 2 * t, p);
    } else {
      TimesGrows(2 * t, -m - 2, p);
    }
  }

  lemma SignOnTop(v: int, d: int, p: int, m: int)
    requires 0 <= v < p && m % 2 == 0
    ensures 2 * (v + Times(d, p)) >= m * p <==> 2 * d >= m
    ensures Signed(v + Times(d, p), m * p) == v + Times(Signed(d, m), p)
  {
    hide Times;
    TimesLinear(d, m, p);
    if 2 * d >= m {
      TimesGrows(m, 2 * d, p);
    } else {
      TimesGrows(2 * d, m - 2, p);
    }
  }

  lemma BelowOnTop(v: int, d: int, p: int, m: int)
    requires 0 <= v < p && 0 <= d < m
    ensures 0 <= v + Times(d, p) < m * p
    ensures v + Times(d, p) == 0 <==> v == 0 && d == 0
  {
    hide Times;
    TimesLinear(0, m, p);
    TimesGrows(0, d, p);
    TimesGrows(d, m - 1, p);
    TimesOne(m, p);
    if d > 0 {
      TimesGrows(1, d, p);
    }
  }

  lemma TimesOne(m: int, p: int)
    ensures Times(0, p) == 0 && Times(1, p) == p && Times(m - 1, p) == m * p - p
  {
  }

  lemma {:induction false} ValueBelow(s: seq<nat>, m: nat)
    requires m > 0 && Limbs(s, m)
    ensures 0 <= Value(s, m) < Pow(m, |s|)
    decreases |s|
  {
    if s != [] {
      var n := |s| - 1;
      ValueBelow(s[..n], m);
      BelowOnTop(Value(s[..n], m), s[n], Pow(m, n), m);
    }
  }

  lemma SignedOnTop(s: seq<nat>, m: nat)
    requires m > 0 && m % 2 == 0 && Limbs(s, m) && |s| > 0
    ensures var n := |s| - 1;
            SignedValue(s, m) == Value(s[..n], m) + Times(Signed(s[n], m), Pow(m, n))
  {
    hide Times;
    var n := |s| - 1;
    ValueBelow(s[..n], m);
    SignOnTop(Value(s[..n], m), s[n], Pow(m, n), m);
  }

  // What the four flags say of a result, t being the exact signed outcome.
  predicate FlagsTell(o: Chained, t: int, m: nat)
    requires m > 0
  {
    var p := Pow(m, |o.digits|);
    && (o.f.z <==> Value(o.digits, m) == 0)
    && (o.f.n <==> 2 * Value(o.digits, m) >= p)
    && (o.f.v <==> !InSignedRange(t, p))
  }

  lemma {:induction false} SubChainZero(a: seq<nat>, b: seq<nat>, m: nat)
    requires m > 0 && |a| == |b| && Limbs(a, m) && Limbs(b, m)
    ensures var o := SubChain(a, b, m); o.f.z <==> Value(o.digits, m) == 0
    decreases |a|
  {
    if a != [] {
      hide Times;
      var n := |a| - 1;
      SubChainZero(a[..n], b[..n], m);
      var low := SubChain(a[..n], b[..n], m);
      var top := Difference(low.f, a[n], b[n], m, true);
      ValueOnTop(low.digits, top.r, m);
      ValueBelow(low.digits, m);
      BelowOnTop(Value(low.digits, m), top.r, Pow(m, n), m);
    }
  }

  lemma {:induction false} AddChainZero(a: seq<nat>, b: seq<nat>, m: nat)
    requires m > 0 && |a| == |b| && Limbs(a, m) && Limbs(b, m)
    ensures var o := AddChain(a, b, m); o.f.z <==> Value(o.digits, m) == 0
    decreases |a|
  {
    if a != [] {
      hide Times;
      var n := |a| - 1;
      AddChainZero(a[..n], b[..n], m);
      var low := AddChain(a[..n], b[..n], m);
      var top := Sum(low.f, a[n], b[n], m, true);
      ValueOnTop(low.digits, top.r, m);
      ValueBelow(low.digits, m);
      BelowOnTop(Value(low.digits, m), top.r, Pow(m, n), m);
    }
  }

  lemma SplitTimes(x: int, y: int, k: int, t: int, p: int)
    ensures t == x + y + k ==> Times(x, p) + Times(y, p) + Times(k, p) == Times(t, p)
    ensures t == x - y - k ==> Times(x, p) - Times(y, p) - Times(k, p) == Times(t, p)
  {
    assert (x + y + k) * p == x * p + y * p + k * p;
    assert (x - y - k) * p == x * p - y * p - k * p;
  }

  lemma FlagsOnTop(low: seq<nat>, d: nat, f: Flags, t: int, exact: int, m: nat)
    requires m > 0 && m % 2 == 0 && Limbs(low, m) && d < m && exact == Value(low, m) + Times(t, Pow(m, |low|))
    requires (f.n <==> 2 * d >= m) && (f.v <==> !InSignedRange(t, m)) && (f.z <==> Value(low + [d], m) == 0)
    ensures FlagsTell(Chained(low + [d], f), exact, m)
  {
    hide Times, Value, InSignedRange;
    ValueBelow(low, m);
    ValueOnTop(low, d, m);
    RangeOnTop(Value(low, m), t, Pow(m, |low|), m);
    SignOnTop(Value(low, m), d, Pow(m, |low|), m);
  }

  lemma SubChainTop(a: seq<nat>, b: seq<nat>, m: nat)
    requires m > 0 && |a| == |b| > 0 && Limbs(a, m) && Limbs(b, m)
    ensures var n := |a| - 1;
            var low := SubChain(a[..n], b[..n], m);
            var top := Difference(low.f, a[n], b[n], m, true);
            SubChain(a, b, m) == Chained(low.digits + [top.r], top.f)
  {
  }

  lemma DifferenceFlags(f: Flags, a: nat, b: nat, t: int, m: nat)
    requires a < m && b < m && t == Signed(b, m) - Signed(a, m) - Bit(f.x)
    ensures var o := Difference(f, a, b, m, true);
            (o.f.n <==> 2 * o.r >= m) && (o.f.v <==> !InSignedRange(t, m))
  {
  }

  lemma SignedDifference(a: seq<nat>, b: seq<nat>, t: int, m: nat)
    requires m > 0 && m % 2 == 0 && |a| == |b| > 0 && Limbs(a, m) && Limbs(b, m)
    requires var n := |a| - 1;
             t == Signed(b[n], m) - Signed(a[n], m) - Bit(SubChain(a[..n], b[..n], m).f.c)
    ensures var n := |a| - 1;
            var low := SubChain(a[..n], b[..n], m);
            SignedValue(b, m) - SignedValue(a, m) == Value(low.digits, m) + Times(t, Pow(m, n))
  {
    hide Times, Value, SignedValue, Signed, Bit, Difference, Pow, SubChain;
    var n := |a| - 1;
    var low := SubChain(a[..n], b[..n], m);
    SubChainDifference(a[..n], b[..n], m);
    SignedOnTop(a, m);
    SignedOnTop(b, m);
    SplitTimes(Signed(b[n], m), Signed(a[n], m), Bit(low.f.c), t, Pow(m, n));
  }

  // The flags of a chained subtraction are those of one subtraction of the
  // whole numbers.
  lemma SubChainFlags(a: seq<nat>, b: seq<nat>, m: nat)
    requires m > 0 && m % 2 == 0 && |a| == |b| > 0 && Limbs(a, m) && Limbs(b, m)
    ensures FlagsTell(SubChain(a, b, m), SignedValue(b, m) - SignedValue(a, m), m)
  {
    hide Times, Value, SignedValue, Signed, InSignedRange, Bit, FlagsTell, Pow, SubChain, Difference;
    var n := |a| - 1;
    var low := SubChain(a[..n], b[..n], m);
    var top := Difference(low.f, a[n], b[n], m, true);
    SubChainTop(a, b, m);
    SubChainZero(a, b, m);
    SubChainDifference(a[..n], b[..n], m);
    var t := Signed(b[n], m) - Signed(a[n], m) - Bit(low.f.c);
    DifferenceFlags(low.f, a[n], b[n], t, m);
    SignedDifference(a, b, t, m);
    FlagsOnTop(low.digits, top.r, top.f, t, SignedValue(b, m) - SignedValue(a, m), m);
  }

  lemma AddChainTop(a: seq<nat>, b: seq<nat>, m: nat)
    requires m > 0 && |a| == |b| > 0 && Limbs(a, m) && Limbs(b, m)
    ensures var n := |a| - 1;
            var low := AddChain(a[..n], b[..n], m);
            var top := Sum(low.f, a[n], b[n], m, true);
            AddChain(a, b, m) == Chained(low.digits + [top.r], top.f)
  {
  }

  lemma SumFlags(f: Flags, a: nat, b: nat, t: int, m: nat)
    requires a < m && b < m && t == Signed(a, m) + Signed(b, m) + Bit(f.x)
    ensures var o := Sum(f, a, b, m, true);
            (o.f.n <==> 2 * o.r >= m) && (o.f.v <==> !InSignedRange(t, m))
  {
  }

  lemma SignedSum(a: seq<nat>, b: seq<nat>, t: int, m: nat)
    requires m > 0 && m % 2 == 0 && |a| == |b| > 0 && Limbs(a, m) && Limbs(b, m)
    requires var n := |a| - 1;
             t == Signed(a[n], m) + Signed(b[n], m) + Bit(AddChain(a[..n], b[..n], m).f.c)
    ensures var n := |a| - 1;
            var low := AddChain(a[..n], b[..n], m);
            SignedValue(a, m) + SignedValue(b, m) == Value(low.digits, m) + Times(t, Pow(m, n))
  {
    hide Times, Value, SignedValue, Signed, Bit, Sum, Pow, AddChain;
    var n := |a| - 1;
    var low := AddChain(a[..n], b[..n], m);
    AddChainSum(a[..n], b[..n], m);
    SignedOnTop(a, m);
    SignedOnTop(b, m);
    SplitTimes(Signed(a[n], m), Signed(b[n], m), Bit(low.f.c), t, Pow(m, n));
  }

  // The flags of a chained addition are those of one addition of the
  // whole numbers.
  lemma AddChainFlags(a: seq<nat>, b: seq<nat>, m: nat)
    requires m > 0 && m % 2 == 0 && |a| == |b| > 0 && Limbs(a, m) && Limbs(b, m)
    ensures FlagsTell(AddChain(a, b, m), SignedValue(a, m) + SignedValue(b, m), m)
  {
    hide Times, Value, SignedValue, Signed, InSignedRange, Bit, FlagsTell, Pow, AddChain, Sum;
    var n := |a| - 1;
    var low := AddChain(a[..n], b[..n], m);
    var top := Sum(low.f, a[n], b[n], m, true);
    AddChainTop(a, b, m);
    AddChainZero(a, b, m);
    AddChainSum(a[..n], b[..n], m);
    var t := Signed(a[n], m) + Signed(b[n], m) + Bit(low.f.c);
    SumFlags(low.f, a[n], b[n], t, m);
    SignedSum(a, b, t, m);
    FlagsOnTop(low.digits, top.r, top.f, t, SignedValue(a, m) + SignedValue(b, m), m);
  }

  // A subtraction modulo p whose flags tell the truth decides every condition.
  lemma FlagsDecide(f: Flags, c: Condition, ua: int, ub: int, r: int, p: int)
    requires p > 0 && p % 2 == 0 && 0 <= ua < p && 0 <= ub < p && 0 <= r < p
    requires ub - ua == r - (if f.c then p else 0)
    requires f.z <==> r == 0
    requires f.n <==> 2 * r >= p
    requires f.v <==> !InSignedRange(Signed(ub, p) - Signed(ua, p), p)
    ensures Holds(f, c) <==> Compares(c, ua, ub, Signed(ua, p), Signed(ub, p), p)
  {
  }

  lemma PowEven(m: nat, n: nat)
    requires m > 0 && m % 2 == 0 && n > 0
    ensures Pow(m, n) % 2 == 0
  {
    var h := m / 2;
    assert m * Pow(m, n - 1) == 2 * (h * Pow(m, n - 1));
  }

  // Subtract-and-branch at any width: after SUBX over all the digits, every
  // condition compares the two whole numbers, unsigned and signed.
  lemma SubChainCompares(a: seq<nat>, b: seq<nat>, m: nat, c: Condition)
    requires m > 0 && m % 2 == 0 && |a| == |b| > 0 && Limbs(a, m) && Limbs(b, m)
    ensures Holds(SubChain(a, b, m).f, c) <==>
            Compares(c, Value(a, m), Value(b, m), SignedValue(a, m), SignedValue(b, m), Pow(m, |a|))
  {
    hide Value, InSignedRange, Signed, Holds, Compares, Pow, SubChain;
    var o := SubChain(a, b, m);
    SubChainDifference(a, b, m);
    SubChainFlags(a, b, m);
    ValueBelow(a, m);
    ValueBelow(b, m);
    ValueBelow(o.digits, m);
    PowEven(m, |a|);
    FlagsDecide(o.f, c, Value(a, m), Value(b, m), Value(o.digits, m), Pow(m, |a|));
  }

  // The digits of a chained addition are the sum modulo the width, and carry,
  // overflow, zero and sign are those of the whole numbers.
  lemma AddChainExact(a: seq<nat>, b: seq<nat>, m: nat)
    requires m > 0 && m % 2 == 0 && |a| == |b| > 0 && Limbs(a, m) && Limbs(b, m)
    ensures var o, p, sum := AddChain(a, b, m), Pow(m, |a|), Value(a, m) + Value(b, m);
            && Value(o.digits, m) == (if sum < p then sum else sum - p)
            && (o.f.c <==> sum >= p) && o.f.x == o.f.c
            && FlagsTell(o, SignedValue(a, m) + SignedValue(b, m), m)
  {
    hide Value, FlagsTell, Pow;
    AddChainSum(a, b, m);
    AddChainFlags(a, b, m);
    ValueBelow(a, m);
    ValueBelow(b, m);
    ValueBelow(AddChain(a, b, m).digits, m);
  }

  // CMP: a subtraction that keeps X.
  function Compared(f: Flags, a: nat, b: nat, m: nat): Flags
    requires a < m && b < m
  {
    Difference(f, a, b, m, false).f.(x := f.x)
  }

  // Compare-and-branch on one word decides the same questions.
  lemma CompareDecides(f: Flags, a: nat, b: nat, m: nat, c: Condition)
    requires m > 0 && m % 2 == 0 && a < m && b < m
    ensures Holds(Compared(f, a, b, m), c) <==> Compares(c, a, b, Signed(a, m), Signed(b, m), m)
    ensures Compared(f, a, b, m).x == f.x
  {
    hide Signed, Holds, Compares, InSignedRange;
    FlagsDecide(Compared(f, a, b, m), c, a, b, Difference(f, a, b, m, false).r, m);
  }

  // ADD, SUB and CMP on one operand, without X: the exact number with its carry or
  // borrow, and overflow exactly where the signed result is not the sum or
  // difference.
  lemma PlainSumExact(f: Flags, a: nat, b: nat, m: nat)
    requires m > 0 && m % 2 == 0 && a < m && b < m
    ensures var o := Sum(f, a, b, m, false);
            && a + b == o.r + (if o.f.c then m else 0) && o.f.x == o.f.c
            && (o.f.z <==> o.r == 0) && (o.f.n <==> Signed(o.r, m) < 0)
            && (o.f.v <==> Signed(a, m) + Signed(b, m) != Signed(o.r, m))
  {
  }

  lemma PlainDifferenceExact(f: Flags, a: nat, b: nat, m: nat)
    requires m > 0 && m % 2 == 0 && a < m && b < m
    ensures var o := Difference(f, a, b, m, false);
            && b - a == o.r - (if o.f.c then m else 0) && o.f.x == o.f.c
            && (o.f.z <==> o.r == 0) && (o.f.n <==> Signed(o.r, m) < 0)
            && (o.f.v <==> Signed(b, m) - Signed(a, m) != Signed(o.r, m))
  {
  }

  // What the branch codes ask after a compare of a with b, by number.
  lemma BranchCodes(f: Flags, a: nat, b: nat, m: nat)
    requires m > 0 && m % 2 == 0 && a < m && b < m
    ensures var g, ua, ub, sa, sb := Compared(f, a, b, m), a, b, Signed(a, m), Signed(b, m);
            && Holds(g, ConditionOf(0)) && !Holds(g, ConditionOf(1))
            && (Holds(g, ConditionOf(2)) <==> ub > ua) && (Holds(g, ConditionOf(3)) <==> ub <= ua)
            && (Holds(g, ConditionOf(4)) <==> ub >= ua) && (Holds(g, ConditionOf(5)) <==> ub < ua)
            && (Holds(g, ConditionOf(6)) <==> ub != ua) && (Holds(g, ConditionOf(7)) <==> ub == ua)
            && (Holds(g, ConditionOf(8)) <==> 0 <= 2 * (sb - sa) + m < 2 * m)
            && (Holds(g, ConditionOf(9)) <==> !(0 <= 2 * (sb - sa) + m < 2 * m))
            && (Holds(g, ConditionOf(12)) <==> sb >= sa) && (Holds(g, ConditionOf(13)) <==> sb < sa)
            && (Holds(g, ConditionOf(14)) <==> sb > sa) && (Holds(g, ConditionOf(15)) <==> sb <= sa)
  {
    hide Compared, Holds, Signed;
    forall c: Condition
      ensures Holds(Compared(f, a, b, m), c) <==> Compares(c, a, b, Signed(a, m), Signed(b, m), m)
    {
      CompareDecides(f, a, b, m, c);
    }
  }

  // The other two: the sign of the difference modulo the width.
  lemma SignCodes(f: Flags, a: nat, b: nat, m: nat)
    requires m > 0 && m % 2 == 0 && a < m && b < m
    ensures var g, d := Compared(f, a, b, m), if b >= a then b - a else b - a + m;
            (Holds(g, ConditionOf(10)) <==> 2 * d < m) && (Holds(g, ConditionOf(11)) <==> 2 * d >= m)
  {
  }

  // What the digits of a number count: the first as it is, the next times m.
  lemma PlaceValue(a: nat, b: nat, m: nat)
    requires m > 0
    ensures Value([], m) == 0 && Value([a], m) == a && Value([a, b], m) == a + m * b
    ensures Pow(m, 0) == 1 && Pow(m, 1) == m && Pow(m, 2) == m * m
  {
    assert [a][..0] == [] && [a, b][..1] == [a];
    assert Pow(m, 1) == m * Pow(m, 0) && Pow(m, 2) == m * Pow(m, 1);
    assert b * m == m * b;
  }
}
