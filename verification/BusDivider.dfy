// The on-chip divider: 32- and 64-bit dividends, overflow, saturation.
module BusDivider {
  import opened Multiples
  import opened Words

  type S32 = x: int | -0x8000_0000 <= x < 0x8000_0000
  type S64 = x: int | -0x8000_0000_0000_0000 <= x < 0x8000_0000_0000_0000

  function SignedWord(v: U32): S32 { if v >= 0x8000_0000 then v - 0x1_0000_0000 else v }

  function LowWord(x: int): U32 { x % 0x1_0000_0000 }

  function HighWord(x: int): U32 { x / 0x1_0000_0000 % 0x1_0000_0000 }

  function Wrap64(x: int): S64 {
    var m := x % 0x1_0000_0000_0000_0000;
    if m >= 0x8000_0000_0000_0000 then m - 0x1_0000_0000_0000_0000 else m
  }

  // Division as C has it: towards zero, the remainder with the dividend's sign.
  function Quotient(a: int, b: int): int
    requires b != 0
  {
    if a >= 0 then if b > 0 then a / b else -(a / -b)
    else if b > 0 then -(-a / b) else -a / -b
  }

  function Remainder(a: int, b: int): int
    requires b != 0
  {
    a - Quotient(a, b) * b
  }

  // What makes a pair the truncated quotient and remainder.
  predicate Divides(a: int, b: int, q: int, r: int) {
    a == q * b + r && Abs(r) < Abs(b) && (r == 0 || (r < 0 <==> a < 0))
  }

  lemma EuclidPositive(a: int, b: int)
    requires a >= 0 && b > 0
    ensures 0 <= a - a / b * b < b
  {
    assert a == a / b * b + a % b;
  }

  lemma Negated(k: int, b: int)
    ensures -k * b == -(k * b) && k * -b == -(k * b)
  {
  }

  lemma QuotientDivides(a: int, b: int)
    requires b != 0
    ensures Divides(a, b, Quotient(a, b), Remainder(a, b))
  {
    EuclidPositive(Abs(a), Abs(b));
    if a >= 0 && b < 0 {
      Negated(a / -b, b);
    } else if a < 0 && b > 0 {
      Negated(-a / b, b);
    } else if a < 0 {
      Negated(-a / -b, b);
    }
  }

  lemma Distributes(q: int, k: int, b: int)
    ensures (q - k) * b == q * b - k * b
  {
  }

  // At most one pair does.
  lemma DividesUnique(a: int, b: int, q: int, r: int)
    requires b != 0 && Divides(a, b, q, r)
    ensures q == Quotient(a, b) && r == Remainder(a, b)
  {
    hide Quotient;
    QuotientDivides(a, b);
    SamePair(a, b, q, r, Quotient(a, b), Remainder(a, b));
  }

  lemma SamePair(a: int, b: int, q: int, r: int, q': int, r': int)
    requires b != 0 && Divides(a, b, q, r) && Divides(a, b, q', r')
    ensures q == q' && r == r'
  {
    Distributes(q, q', b);
    if q != q' {
      MultipleIsFar(q - q', b);
    }
  }

  // What a division leaves: the quotient and remainder registers and OVF.
  datatype Outcome = Outcome(q: U32, r: U32, ovf: bool)

  predicate Fits32(q: int) { -0x8000_0000 <= q <= 0x7FFF_FFFF }

  // The quotient has a place: in 32 bits, or 2^31 exactly under a negative divisor.
  predicate Representable(a: int, b: int)
    requires b != 0
  {
    var q := Quotient(a, b);
    Fits32(q) || (q == 0x8000_0000 && b < 0 && Remainder(a, b) == 0)
  }

  // n steps of the shift-subtract loop, from the sign the last step left.
  function PartialSteps(d: S64, negative: bool, divisor: S32, n: nat): S64
    decreases n
  {
    if n == 0 then d else
    var m := divisor < 0;
    var shifted := LowWord(divisor) as int * 0x1_0000_0000;
    var e := Wrap64(if negative == m then d as int - shifted else d as int + shifted);
    var negative' := e < 0;
    PartialSteps(Wrap64(e as int * 2 + if negative' == m then 1 else 0), negative', divisor, n - 1)
  }

  function Saturated(negative: bool): U32 { if negative then 0x8000_0000 else 0x7FFF_FFFF }

  // A 64-bit dividend by a 32-bit divisor, with the overflow interrupt enabled or not.
  function Divided64(dividend: S64, divisor: S32, ovfie: bool): Outcome {
    if divisor != 0 && Representable(dividend, divisor) then
      Outcome(LowWord(Quotient(dividend, divisor)), LowWord(Remainder(dividend, divisor)), false)
    else
      var d := PartialSteps(dividend, dividend < 0, divisor, 3);
      Outcome(if ovfie then LowWord(d) else Saturated((dividend < 0) != (divisor < 0)), HighWord(d), true)
  }

  // A 32-bit dividend.
  function Divided32(dividend: S32, divisor: S32, ovfie: bool): Outcome {
    if divisor != 0 then
      Outcome(LowWord(Quotient(dividend, divisor)), LowWord(Remainder(dividend, divisor)), false)
    else
      Outcome(if ovfie then LowWord(dividend as int * 8 + if dividend < 0 then 0 else 1)
              else Saturated(dividend < 0), LowWord(dividend as int / 0x2000_0000), true)
  }

  // ---------------------------------------------------------- the promises

  // OVF is raised exactly when the divisor is zero or the true quotient has no
  // place; without it the registers hold the truncated quotient and remainder.
  lemma ExactUnlessOverflow(dividend: S64, divisor: S32, ovfie: bool)
    ensures var o := Divided64(dividend, divisor, ovfie);
            && (o.ovf <==> divisor == 0 || !Representable(dividend, divisor))
            && (!o.ovf ==> Divides(dividend, divisor, Quotient(dividend, divisor), SignedWord(o.r))
                           && if Fits32(Quotient(dividend, divisor)) then SignedWord(o.q) == Quotient(dividend, divisor)
                              else o.q == 0x8000_0000 && Quotient(dividend, divisor) == 0x8000_0000)
            && (o.ovf && !ovfie ==> o.q == if (dividend < 0) != (divisor < 0) then 0x8000_0000 else 0x7FFF_FFFF)
  {
    if divisor != 0 {
      hide Quotient, PartialSteps, Remainder;
      QuotientDivides(dividend, divisor);
      WordRoundTrip(Remainder(dividend, divisor));
      WordRoundTrip(Quotient(dividend, divisor));
    }
  }

  lemma WordRoundTrip(x: int)
    ensures Fits32(x) ==> SignedWord(LowWord(x)) == x
    ensures LowWord(0x8000_0000) == 0x8000_0000
  {
  }

  // The same without naming the quotient: whatever pair divides.
  lemma NoOverflowIsTheQuotient(dividend: S64, divisor: S32, ovfie: bool, q: int, r: int)
    requires divisor != 0 && Divides(dividend, divisor, q, r)
    ensures var o := Divided64(dividend, divisor, ovfie);
            && (o.ovf <==> !Fits32(q) && !(q == 0x8000_0000 && divisor < 0 && r == 0))
            && (!o.ovf ==> o.q == LowWord(q) && o.r == LowWord(r))
  {
    DividesUnique(dividend, divisor, q, r);
  }

  // Dividing a 32-bit number always has a place.
  lemma ShortQuotientFits(a: S32, b: S32)
    requires b != 0
    ensures Representable(a, b)
  {
    hide Quotient;
    QuotientDivides(a, b);
    ShortFits(a, b, Quotient(a, b), Remainder(a, b));
  }

  lemma ShortFits(a: int, b: int, q: int, r: int)
    requires -0x8000_0000 <= a < 0x8000_0000 && b != 0 && Divides(a, b, q, r)
    ensures Fits32(q) || (q == 0x8000_0000 && b < 0 && r == 0)
  {
    if q != 0 {
      MultipleIsFar(q, b);
      MultipleIsFar(b, q);
      assert b * q == q * b;
      if q > 0 && b > 0 {
        assert q * b > 0;
      }
    }
  }

  // Three steps with a zero divisor just shift: ones into a dividend that is
  // not negative, zeros into one that is.
  lemma StepsOnZero(d: S32)
    ensures PartialSteps(d, d < 0, 0, 3) == d as int * 8 + if d < 0 then 0 else 7
  {
    hide PartialSteps;
    StepOnZero(d, 3);
    var e := d as int * 2 + if d < 0 then 0 else 1;
    StepOnZero(e, 2);
    var f := e * 2 + if d < 0 then 0 else 1;
    StepOnZero(f, 1);
    var g := f * 2 + if d < 0 then 0 else 1;
    NoSteps(g);
  }

  lemma StepOnZero(d: int, n: nat)
    requires -0x80_0000_0000 <= d < 0x80_0000_0000 && n > 0
    ensures PartialSteps(d, d < 0, 0, n) == PartialSteps(d * 2 + if d < 0 then 0 else 1, d < 0, 0, n - 1)
  {
    WrapSmall(d);
    WrapSmall(d * 2);
    WrapSmall(d * 2 + 1);
    hide Wrap64;
    assert LowWord(0) as int * 0x1_0000_0000 == 0;
  }

  lemma WrapSmall(x: int)
    requires -0x1_0000_0000_0000 <= x < 0x1_0000_0000_0000
    ensures Wrap64(x) == x
  {
  }

  lemma NoSteps(d: int)
    requires -0x80_0000_0000 <= d < 0x80_0000_0000
    ensures PartialSteps(d, d < 0, 0, 0) == d
  {
  }

  // The 32-bit unit is the 64-bit unit on the sign-extended dividend except when
  // zero divides a number that is not negative with the overflow interrupt
  // enabled: there it fills one low bit instead of three.
  lemma UnitsAgree(dividend: S32, divisor: S32, ovfie: bool)
    ensures Divided32(dividend, divisor, ovfie) == Divided64(dividend, divisor, ovfie) <==>
            divisor != 0 || !ovfie || dividend < 0
    ensures divisor == 0 && ovfie && dividend >= 0 ==>
              && Divided32(dividend, divisor, ovfie).q == LowWord(dividend as int * 8 + 1)
              && Divided64(dividend, divisor, ovfie).q == LowWord(dividend as int * 8 + 7)
  {
    hide Quotient, Remainder, PartialSteps;
    if divisor != 0 {
      ShortQuotientFits(dividend, divisor);
    } else {
      StepsOnZero(dividend);
      ZeroWords(dividend);
    }
  }

  lemma ZeroWords(d: S32)
    ensures var g := d as int * 8 + if d < 0 then 0 else 7;
            && HighWord(g) == LowWord(d as int / 0x2000_0000)
            && (LowWord(g) == LowWord(d as int * 8 + if d < 0 then 0 else 1) <==> d < 0)
  {
  }

  lemma LoopStep(d: S64, negative: bool, divisor: S32, n: nat, e: S64, next: S64)
    requires n > 0 && next == Wrap64(e as int * 2 + if (e < 0) == (divisor < 0) then 1 else 0)
    requires var shifted := LowWord(divisor) as int * 0x1_0000_0000;
             e == Wrap64(if negative == (divisor < 0) then d as int - shifted else d as int + shifted)
    ensures PartialSteps(d, negative, divisor, n) == PartialSteps(next, e < 0, divisor, n - 1)
  {
  }

  lemma NoStep(d: S64, negative: bool, divisor: S32)
    ensures PartialSteps(d, negative, divisor, 0) == d
  {
  }

  // What an overflow leaves with the interrupt enabled: the shift-subtract loop
  // after three of its steps, on a dividend and a divisor of each sign.
  lemma OverflowLeavesThreeSteps()
    ensures Divided64(0x100_0000_0000, 1, true) == Outcome(7, 0x7F2, true)
    ensures Divided64(-0x100_0000_0000, 3, true) == Outcome(0, 0xFFFF_F82A, true)
    ensures Divided64(0x100_0000_0000, -5, true) == Outcome(0, 0x7BA, true)
  {
    hide PartialSteps;
    LoopStep(0x100_0000_0000, false, 1, 3, 0xFF_0000_0000, 0x1FE_0000_0001);
    LoopStep(0x1FE_0000_0001, false, 1, 2, 0x1FD_0000_0001, 0x3FA_0000_0003);
    LoopStep(0x3FA_0000_0003, false, 1, 1, 0x3F9_0000_0003, 0x7F2_0000_0007);
    NoStep(0x7F2_0000_0007, false, 1);
    LoopStep(-0x100_0000_0000, true, 3, 3, -0xFD_0000_0000, -0x1FA_0000_0000);
    LoopStep(-0x1FA_0000_0000, true, 3, 2, -0x1F7_0000_0000, -0x3EE_0000_0000);
    LoopStep(-0x3EE_0000_0000, true, 3, 1, -0x3EB_0000_0000, -0x7D6_0000_0000);
    NoStep(-0x7D6_0000_0000, true, 3);
    LoopStep(0x100_0000_0000, false, -5, 3, 0xFB_0000_0000, 0x1F6_0000_0000);
    LoopStep(0x1F6_0000_0000, false, -5, 2, 0x1F1_0000_0000, 0x3E2_0000_0000);
    LoopStep(0x3E2_0000_0000, false, -5, 1, 0x3DD_0000_0000, 0x7BA_0000_0000);
    NoStep(0x7BA_0000_0000, false, -5);
  }

  // ------------------------------------------------------- as it is run

  class DivisionUnit {
    var dvsr: U32
    var dvdnt: U32
    var dvcr: U32
    var dvdnth: U32
    var dvdntl: U32
    var dvdntuh: U32
    var dvdntul: U32

    predicate Ovfie()
      reads this
    {
      dvcr / 2 % 2 == 1
    }

    function WithOvf(v: U32): U32 { if v % 2 == 1 then v else v + 1 }

    method Store(q: U32, r: U32)
      modifies `dvdnt, `dvdntl, `dvdntul, `dvdnth, `dvdntuh
      ensures dvdnt == dvdntl == dvdntul == q && dvdnth == dvdntuh == r
    {
      dvdnt, dvdntl, dvdntul := q, q, q;
      dvdnth, dvdntuh := r, r;
    }

    // `divu_calc32`
    method Calc32()
      modifies `dvcr, `dvdnt, `dvdntl, `dvdntul, `dvdnth, `dvdntuh
      ensures var o := Divided32(SignedWord(old(dvdntl)), SignedWord(dvsr), old(dvcr) / 2 % 2 == 1);
              && dvdnt == dvdntl == dvdntul == o.q && dvdnth == dvdntuh == o.r
              && dvcr / 2 == old(dvcr) / 2 && (dvcr % 2 == 1 <==> old(dvcr) % 2 == 1 || o.ovf)
    {
      hide Quotient, Remainder;
      var dividend: int, divisor: int := SignedWord(dvdntl), SignedWord(dvsr);
      var q: U32, r: U32;
      if divisor != 0 {
        if dividend == -0x8000_0000 && divisor == -1 {
          MinusOne(dividend);
          q, r := 0x8000_0000, 0;
        } else {
          q, r := LowWord(Quotient(dividend, divisor)), LowWord(Remainder(dividend, divisor));
        }
      } else {
        r := LowWord(dividend / 0x2000_0000);
        if Ovfie() {
          q := LowWord(dividend * 8 + if dividend < 0 then 0 else 1);
        } else {
          q := if dividend < 0 then 0x8000_0000 else 0x7FFF_FFFF;
        }
        dvcr := WithOvf(dvcr);
      }
      Store(q, r);
    }

    lemma MinusOne(a: int)
      ensures Quotient(a, -1) == -a && Remainder(a, -1) == 0 && Quotient(a, 1) == a && Remainder(a, 1) == 0
    {
    }

    // The quotient and remainder, if they have a place.
    method Divide(dividend: S64, divisor: S32) returns (overflow: bool, q: U32, r: U32)
      ensures overflow <==> divisor == 0 || !Representable(dividend, divisor)
      ensures !overflow ==> q == LowWord(Quotient(dividend, divisor)) && r == LowWord(Remainder(dividend, divisor))
    {
      hide Quotient, Remainder;
      overflow, q, r := false, 0, 0;
      MinusOne(dividend);
      if divisor == 0 {
        overflow := true;
      } else if dividend == -0x8000_0000 && (divisor == 1 || divisor == -1) {
        q, r := 0x8000_0000, 0;
      } else if dividend == -0x8000_0000_0000_0000 && divisor == -1 {
        overflow := true;
      } else {
        var quot, rem := Quotient(dividend, divisor), Remainder(dividend, divisor);
        if ((quot == -0x8000_0000 && divisor > 0) || (quot == 0x8000_0000 && divisor < 0)) && rem == 0 {
          q, r := LowWord(quot), LowWord(rem);
        } else if quot < -0x8000_0000 || quot > 0x7FFF_FFFF {
          overflow := true;
        } else {
          q, r := LowWord(quot), LowWord(rem);
        }
      }
    }

    lemma StepUnfolds(d: S64, negative: bool, divisor: S32, n: nat)
      ensures n == 0 ==> PartialSteps(d, negative, divisor, n) == d
      ensures n > 0 ==>
                var m, shifted := divisor < 0, LowWord(divisor) as int * 0x1_0000_0000;
                var e := Wrap64(if negative == m then d as int - shifted else d as int + shifted);
                PartialSteps(d, negative, divisor, n) ==
                PartialSteps(Wrap64(e as int * 2 + if (e < 0) == m then 1 else 0), e < 0, divisor, n - 1)
    {
    }

    // The three steps an overflow leaves in the registers.
    method ThreeSteps(dividend: S64, divisor: S32) returns (d: S64)
      ensures d == PartialSteps(dividend, dividend < 0, divisor, 3)
    {
      hide PartialSteps, Wrap64, LowWord;
      d := dividend;
      var negative, m, i := dividend < 0, divisor < 0, 0;
      var shifted := LowWord(divisor) as int * 0x1_0000_0000;
      while i < 3
        invariant i <= 3
        invariant PartialSteps(dividend, dividend < 0, divisor, 3) == PartialSteps(d, negative, divisor, 3 - i)
      {
        StepUnfolds(d, negative, divisor, 3 - i);
        d := Wrap64(if negative == m then d as int - shifted else d as int + shifted);
        negative := d < 0;
        d := Wrap64(d as int * 2 + if negative == m then 1 else 0);
        i := i + 1;
      }
      StepUnfolds(d, negative, divisor, 0);
    }

    // `divu_calc64`
    method Calc64()
      modifies `dvcr, `dvdnt, `dvdntl, `dvdntul, `dvdnth, `dvdntuh
      ensures var dividend: S64 := SignedWord(old(dvdnth)) as int * 0x1_0000_0000 + old(dvdntl) as int;
              var o := Divided64(dividend, SignedWord(dvsr), old(dvcr) / 2 % 2 == 1);
              && dvdnt == dvdntl == dvdntul == o.q && dvdnth == dvdntuh == o.r
              && dvcr / 2 == old(dvcr) / 2 && (dvcr % 2 == 1 <==> old(dvcr) % 2 == 1 || o.ovf)
    {
      hide Quotient, Remainder, PartialSteps, Representable;
      var dividend: S64 := SignedWord(dvdnth) as int * 0x1_0000_0000 + dvdntl as int;
      var divisor := SignedWord(dvsr);
      var overflow, q, r := Divide(dividend, divisor);
      if overflow {
        var d := ThreeSteps(dividend, divisor);
        if Ovfie() {
          q := LowWord(d);
        } else {
          q := if (SignedWord(dvdnth) < 0) != (divisor < 0) then 0x8000_0000 else 0x7FFF_FFFF;
        }
        r := HighWord(d);
        dvcr := WithOvf(dvcr);
      }
      Store(q, r);
    }
  }
}
