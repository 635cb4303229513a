// Packed decimal add and subtract: two digits a byte, and chains of bytes.
module M68kDecimal {
  import opened M68kAlu
  import opened Multiples

  // `((hi << 4) | lo) & 0xFF` for a low part that may have left its four bits.
  function Merge(hi: int, lo: int): (r: nat)
    requires -16 <= lo < 32
    ensures r < 256
  {
    var h := hi % 16;
    if lo < 0 then 0xF0 + (lo + 16)
    else if lo < 16 then h * 16 + lo
    else (if h % 2 == 1 then h else h + 1) * 16 + (lo - 16)
  }

  function AfterDecimal(f: Flags, carry: bool, r: nat): Flags {
    f.(x := carry, c := carry, z := f.z && r == 0)
  }

  // The decimal step of ABCD: d + s + X.
  function DecimalSum(f: Flags, s: nat, d: nat): (o: Result)
    requires s < 256 && d < 256
    ensures o.r < 256
  {
    var lo := d % 16 + s % 16 + Bit(f.x);
    var hi := d / 16 + s / 16;
    var lo' := if lo > 9 then lo - 10 else lo;
    var hi' := if lo > 9 then hi + 1 else hi;
    var r := Merge(if hi' > 9 then hi' - 10 else hi', lo');
    Result(r, AfterDecimal(f, hi' > 9, r))
  }

  // The decimal step of SBCD: d - s - X.
  function DecimalDifference(f: Flags, s: nat, d: nat): (o: Result)
    requires s < 256 && d < 256
    ensures o.r < 256
  {
    var lo := d % 16 - s % 16 - Bit(f.x);
    var hi := d / 16 - s / 16;
    var lo' := if lo < 0 then lo + 10 else lo;
    var hi' := if lo < 0 then hi - 1 else hi;
    var r := Merge(if hi' < 0 then hi' + 10 else hi', lo');
    Result(r, AfterDecimal(f, hi' < 0, r))
  }

  // A byte of two decimal digits, and the number it stands for.
  predicate IsDecimal(b: nat) { b < 256 && b % 16 <= 9 && b / 16 <= 9 }

  function Reading(b: nat): nat { 10 * (b / 16) + b % 16 }

  predicate AllDecimal(s: seq<nat>) { forall i | 0 <= i < |s| :: IsDecimal(s[i]) }

  function Readings(s: seq<nat>): (r: seq<nat>)
    requires AllDecimal(s)
    ensures |r| == |s| && Limbs(r, 100)
  {
    seq(|s|, i requires 0 <= i < |s| && AllDecimal(s) => Reading(s[i]))
  }

  lemma TwoDigits(b: nat)
    requires IsDecimal(b)
    ensures 0 <= b / 16 <= 9 && 0 <= b % 16 <= 9 && b == 16 * (b / 16) + b % 16
  {
  }

  lemma MergeDigits(hi: int, lo: int)
    requires 0 <= hi <= 9 && 0 <= lo <= 9
    ensures Merge(hi, lo) / 16 == hi && Merge(hi, lo) % 16 == lo
  {
  }

  // The two digits of a sum, carried at ten.
  lemma DigitsOfSum(f: Flags, s: nat, d: nat)
    requires IsDecimal(s) && IsDecimal(d)
    ensures var o, full := DecimalSum(f, s, d), Reading(s) + Reading(d) + Bit(f.x);
            && IsDecimal(o.r) && Reading(o.r) == (if full >= 100 then full - 100 else full)
            && o.f == AfterDecimal(f, full >= 100, o.r)
  {
    hide Merge, AfterDecimal;
    TwoDigits(s);
    TwoDigits(d);
    var lo, hi := d % 16 + s % 16 + Bit(f.x), d / 16 + s / 16;
    var lo' := if lo > 9 then lo - 10 else lo;
    var hi' := if lo > 9 then hi + 1 else hi;
    MergeDigits(if hi' > 9 then hi' - 10 else hi', lo');
  }

  lemma DigitsOfDifference(f: Flags, s: nat, d: nat)
    requires IsDecimal(s) && IsDecimal(d)
    ensures var o, full := DecimalDifference(f, s, d), Reading(d) - Reading(s) - Bit(f.x);
            && IsDecimal(o.r) && Reading(o.r) == (if full < 0 then full + 100 else full)
            && o.f == AfterDecimal(f, full < 0, o.r)
  {
    hide Merge, AfterDecimal;
    TwoDigits(s);
    TwoDigits(d);
    var lo, hi := d % 16 - s % 16 - Bit(f.x), d / 16 - s / 16;
    var lo' := if lo < 0 then lo + 10 else lo;
    var hi' := if lo < 0 then hi - 1 else hi;
    MergeDigits(if hi' < 0 then hi' + 10 else hi', lo');
  }

  lemma ReadingIsZero(b: nat)
    requires IsDecimal(b)
    ensures b < 256 && Reading(b) < 100 && (Reading(b) == 0 <==> b == 0)
  {
    TwoDigits(b);
  }

  lemma DecimalSumReads(f: Flags, g: Flags, s: nat, d: nat)
    requires IsDecimal(s) && IsDecimal(d) && f.x == g.x && f.z == g.z
    ensures Reading(s) < 100 && Reading(d) < 100
    ensures var o, e := DecimalSum(f, s, d), Sum(g, Reading(s), Reading(d), 100, true);
            IsDecimal(o.r) && Reading(o.r) == e.r && o.f.x == e.f.x && o.f.c == e.f.c && o.f.z == e.f.z
  {
    hide DecimalSum, Reading, IsDecimal, Signed, InSignedRange;
    ReadingIsZero(s);
    ReadingIsZero(d);
    DigitsOfSum(f, s, d);
    ReadingIsZero(DecimalSum(f, s, d).r);
  }

  lemma DecimalDifferenceReads(f: Flags, g: Flags, s: nat, d: nat)
    requires IsDecimal(s) && IsDecimal(d) && f.x == g.x && f.z == g.z
    ensures Reading(s) < 100 && Reading(d) < 100
    ensures var o, e := DecimalDifference(f, s, d), Difference(g, Reading(s), Reading(d), 100, true);
            IsDecimal(o.r) && Reading(o.r) == e.r && o.f.x == e.f.x && o.f.c == e.f.c && o.f.z == e.f.z
  {
    hide DecimalDifference, Reading, IsDecimal, Signed, InSignedRange;
    ReadingIsZero(s);
    ReadingIsZero(d);
    DigitsOfDifference(f, s, d);
    ReadingIsZero(DecimalDifference(f, s, d).r);
  }

  predicate Bytes(s: seq<nat>) { forall i | 0 <= i < |s| :: s[i] < 256 }

  function AbcdChain(a: seq<nat>, b: seq<nat>): (o: Chained)
    requires |a| == |b| && Bytes(a) && Bytes(b)
    ensures |o.digits| == |a| && Bytes(o.digits)
    decreases |a|
  {
    if a == [] then Chained([], START) else
    var n := |a| - 1;
    var low := AbcdChain(a[..n], b[..n]);
    var top := DecimalSum(low.f, a[n], b[n]);
    Chained(low.digits + [top.r], top.f)
  }

  function SbcdChain(a: seq<nat>, b: seq<nat>): (o: Chained)
    requires |a| == |b| && Bytes(a) && Bytes(b)
    ensures |o.digits| == |a| && Bytes(o.digits)
    decreases |a|
  {
    if a == [] then Chained([], START) else
    var n := |a| - 1;
    var low := SbcdChain(a[..n], b[..n]);
    var top := DecimalDifference(low.f, a[n], b[n]);
    Chained(low.digits + [top.r], top.f)
  }

  lemma ReadingsTop(s: seq<nat>)
    requires AllDecimal(s) && s != []
    ensures var n := |s| - 1; Readings(s)[..n] == Readings(s[..n]) && Readings(s)[n] == Reading(s[n])
  {
  }

  lemma ReadingsAppend(s: seq<nat>, d: nat)
    requires AllDecimal(s) && IsDecimal(d)
    ensures AllDecimal(s + [d]) && Readings(s + [d]) == Readings(s) + [Reading(d)]
  {
  }

  // On decimal digits the two chains are the base-100 chains.
  lemma {:induction false} AbcdIsBase100(a: seq<nat>, b: seq<nat>)
    requires |a| == |b| && AllDecimal(a) && AllDecimal(b)
    ensures var o, e := AbcdChain(a, b), AddChain(Readings(a), Readings(b), 100);
            && AllDecimal(o.digits) && Readings(o.digits) == e.digits
            && o.f.x == e.f.x && o.f.c == e.f.c && o.f.z == e.f.z
    decreases |a|
  {
    if a != [] {
      hide DecimalSum, Sum, Reading, IsDecimal, Readings, AddChain;
      var n := |a| - 1;
      AbcdIsBase100(a[..n], b[..n]);
      var low := AbcdChain(a[..n], b[..n]);
      ReadingsTop(a);
      ReadingsTop(b);
      var low' := AddChain(Readings(a[..n]), Readings(b[..n]), 100);
      DecimalSumReads(low.f, low'.f, a[n], b[n]);
      AddChainTop(Readings(a), Readings(b), 100);
      ReadingsAppend(low.digits, DecimalSum(low.f, a[n], b[n]).r);
    } else {
      assert Readings([]) == [];
    }
  }

  lemma {:induction false} SbcdIsBase100(a: seq<nat>, b: seq<nat>)
    requires |a| == |b| && AllDecimal(a) && AllDecimal(b)
    ensures var o, e := SbcdChain(a, b), SubChain(Readings(a), Readings(b), 100);
            && AllDecimal(o.digits) && Readings(o.digits) == e.digits
            && o.f.x == e.f.x && o.f.c == e.f.c && o.f.z == e.f.z
    decreases |a|
  {
    if a != [] {
      hide DecimalDifference, Difference, Reading, IsDecimal, Readings, SubChain;
      var n := |a| - 1;
      SbcdIsBase100(a[..n], b[..n]);
      var low := SbcdChain(a[..n], b[..n]);
      ReadingsTop(a);
      ReadingsTop(b);
      var low' := SubChain(Readings(a[..n]), Readings(b[..n]), 100);
      DecimalDifferenceReads(low.f, low'.f, a[n], b[n]);
      SubChainTop(Readings(a), Readings(b), 100);
      ReadingsAppend(low.digits, DecimalDifference(low.f, a[n], b[n]).r);
    } else {
      assert Readings([]) == [];
    }
  }

  function Decimal(s: seq<nat>): int
    requires AllDecimal(s)
  {
    Value(Readings(s), 100)
  }

  // ABCD over any number of bytes adds the decimal numbers exactly; the carry
  // is the carry out of the whole, Z stays set exactly when the result is zero.
  lemma AbcdChainExact(a: seq<nat>, b: seq<nat>)
    requires |a| == |b| && AllDecimal(a) && AllDecimal(b)
    ensures var o := AbcdChain(a, b);
            && AllDecimal(o.digits) && o.f.x == o.f.c
            && Decimal(a) + Decimal(b) == Decimal(o.digits) + Times(Bit(o.f.c), Pow(100, |a|))
            && (o.f.z <==> Decimal(o.digits) == 0)
  {
    hide Value, AddChain, AbcdChain, Readings, Times;
    AbcdIsBase100(a, b);
    AddChainSum(Readings(a), Readings(b), 100);
    AddChainZero(Readings(a), Readings(b), 100);
  }

  lemma SbcdChainExact(a: seq<nat>, b: seq<nat>)
    requires |a| == |b| && AllDecimal(a) && AllDecimal(b)
    ensures var o := SbcdChain(a, b);
            && AllDecimal(o.digits) && o.f.x == o.f.c
            && Decimal(b) - Decimal(a) == Decimal(o.digits) - Times(Bit(o.f.c), Pow(100, |a|))
            && (o.f.z <==> Decimal(o.digits) == 0)
            && (o.f.c <==> Decimal(b) < Decimal(a))
  {
    hide Value, SubChain, SbcdChain, Readings, Pow, Times;
    TimesOne(100, Pow(100, |a|));
    SbcdIsBase100(a, b);
    SubChainDifference(Readings(a), Readings(b), 100);
    SubChainZero(Readings(a), Readings(b), 100);
    ValueBelow(Readings(a), 100);
    ValueBelow(Readings(b), 100);
    ValueBelow(SubChain(Readings(a), Readings(b), 100).digits, 100);
  }

  // Bytes with digits above 9 add and subtract exactly too, as long as the two
  // digits of each place make no more than 25, or no less than -10; N and V are
  // not touched for any.
  lemma AnyBytesAdd(f: Flags, s: nat, d: nat)
    requires s < 256 && d < 256
    ensures var o, low := DecimalSum(f, s, d), d % 16 + s % 16 + Bit(f.x);
            var high := d / 16 + s / 16 + if low > 9 then 1 else 0;
            && o.f.n == f.n && o.f.v == f.v && o.f.x == o.f.c
            && (low <= 25 && high <= 25 ==>
                  Reading(d) + Reading(s) + Bit(f.x) == Reading(o.r) + if o.f.c then 100 else 0)
  {
    hide Merge, Reading;
    var lo := d % 16 + s % 16 + Bit(f.x);
    var hi := d / 16 + s / 16 + if lo > 9 then 1 else 0;
    ReadingIs(d, d / 16, d % 16);
    ReadingIs(s, s / 16, s % 16);
    if lo <= 25 && hi <= 25 {
      MergeReads(if hi > 9 then hi - 10 else hi, if lo > 9 then lo - 10 else lo);
    }
  }

  lemma MergeReads(hi: int, lo: int)
    requires 0 <= hi < 16 && 0 <= lo < 16
    ensures Reading(Merge(hi, lo)) == 10 * hi + lo
  {
    assert Merge(hi, lo) / 16 == hi && Merge(hi, lo) % 16 == lo;
  }

  lemma ReadingIs(b: nat, hi: nat, lo: nat)
    requires hi == b / 16 && lo == b % 16
    ensures Reading(b) == 10 * hi + lo
  {
  }

  lemma AnyBytesSubtract(f: Flags, s: nat, d: nat)
    requires s < 256 && d < 256
    ensures var o, low := DecimalDifference(f, s, d), d % 16 - s % 16 - Bit(f.x);
            var high := d / 16 - s / 16 - if low < 0 then 1 else 0;
            && o.f.n == f.n && o.f.v == f.v && o.f.x == o.f.c
            && (low >= -10 && high >= -10 ==>
                  Reading(d) - Reading(s) - Bit(f.x) == Reading(o.r) - if o.f.c then 100 else 0)
  {
    hide Merge, Reading;
    var lo := d % 16 - s % 16 - Bit(f.x);
    var hi := d / 16 - s / 16 - if lo < 0 then 1 else 0;
    ReadingIs(d, d / 16, d % 16);
    ReadingIs(s, s / 16, s % 16);
    if lo >= -10 && hi >= -10 {
      MergeReads(if hi < 0 then hi + 10 else hi, if lo < 0 then lo + 10 else lo);
    }
  }
}
