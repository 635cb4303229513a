// The CRC of PNG chunks: the table-driven loop against the bitwise definition.
module PngCrc {
  import opened Words

  // --------------------------------------------- the bit operations used

  const POLYNOMIAL: bv32 := 0xEDB88320

  function Xor(x: bv32, y: bv32): bv32 { x ^ y }

  function Half(x: bv32): bv32 { x >> 1 }

  predicate Odd(x: bv32) { x & 1 == 1 }

  function LowByte(x: bv32): bv32 { x & 0xFF }

  function HighBytes(x: bv32): bv32 { x & 0xFFFF_FF00 }

  function Down8(x: bv32): bv32 { x >> 8 }

  lemma XorLaws(x: bv32, y: bv32, z: bv32)
    ensures Xor(x, y) == Xor(y, x) && Xor(Xor(x, y), z) == Xor(x, Xor(y, z))
  {
  }

  lemma XorUnits(x: bv32)
    ensures Xor(x, 0) == x && Xor(x, x) == 0
  {
  }

  lemma HalfXor(x: bv32, y: bv32)
    ensures Half(Xor(x, y)) == Xor(Half(x), Half(y))
  {
  }

  lemma OddXor(x: bv32, y: bv32)
    ensures Odd(Xor(x, y)) <==> Odd(x) != Odd(y)
  {
    assert (x ^ y) & 1 == (x & 1) ^ (y & 1);
    assert x & 1 == 0 || x & 1 == 1;
    assert y & 1 == 0 || y & 1 == 1;
  }

  lemma ByteParts(x: bv32)
    ensures x == Xor(LowByte(x), HighBytes(x)) && Down8(HighBytes(x)) == Down8(x)
  {
  }

  // ---------------------------------------------------------- the register

  // One bit of the table's construction.
  function Shift(c: bv32): bv32 { if Odd(c) then Xor(POLYNOMIAL, Half(c)) else Half(c) }

  function Shifts(c: bv32, n: nat): bv32
    decreases n
  {
    if n == 0 then c else Shifts(Shift(c), n - 1)
  }

  // RFC 2083 section 3.4 by way of ISO 3309: the register takes the n low bits of
  // p one at a time, least significant first.
  function TakeBits(c: bv32, p: bv32, n: nat): bv32
    decreases n
  {
    if n == 0 then c
    else TakeBits(if Odd(c) != Odd(p) then Xor(POLYNOMIAL, Half(c)) else Half(c), Half(p), n - 1)
  }

  // The register after a string of bytes.
  function Crc(c: bv32, data: seq<U8>): bv32
    decreases |data|
  {
    if data == [] then c else TakeBits(Crc(c, data[..|data| - 1]), Register(data[|data| - 1]), 8)
  }

  // Chaining: a string may be taken in pieces.
  lemma {:induction false} CrcConcat(c: bv32, a: seq<U8>, b: seq<U8>)
    ensures Crc(c, a + b) == Crc(Crc(c, a), b)
    decreases |b|
  {
    hide TakeBits;
    if b == [] {
      assert a + b == a;
    } else {
      assert (a + b)[..|a + b| - 1] == a + b[..|b| - 1];
      CrcConcat(c, a, b[..|b| - 1]);
    }
  }

  // ------------------------------------------------------------- the table

  // The shift register is linear.
  lemma ShiftXor(x: bv32, y: bv32)
    ensures Shift(Xor(x, y)) == Xor(Shift(x), Shift(y))
  {
    hide Xor, Half, Odd;
    var a, b, p := Half(x), Half(y), POLYNOMIAL;
    HalfXor(x, y);
    OddXor(x, y);
    if Odd(x) && Odd(y) {
      XorLaws(p, a, Xor(p, b));
      XorLaws(a, p, b);
      XorLaws(p, p, Xor(a, b));
      XorLaws(Xor(a, b), p, b);
      XorLaws(p, a, b);
      XorUnits(p);
      XorUnits(Xor(a, b));
      XorLaws(Xor(a, b), 0, 0);
      assert Xor(a, Xor(p, b)) == Xor(p, Xor(a, b));
    } else if Odd(x) {
      XorLaws(p, a, b);
    } else if Odd(y) {
      XorLaws(a, p, b);
      XorLaws(p, a, b);
    }
  }

  lemma {:induction false} ShiftsXor(x: bv32, y: bv32, n: nat)
    ensures Shifts(Xor(x, y), n) == Xor(Shifts(x, n), Shifts(y, n))
    decreases n
  {
    hide Shift, Xor;
    if n > 0 {
      ShiftXor(x, y);
      ShiftsXor(Shift(x), Shift(y), n - 1);
    }
  }

  // Halving n times, and the low n bits being clear.
  function Halved(y: bv32, n: nat): bv32
    decreases n
  {
    if n == 0 then y else Halved(Half(y), n - 1)
  }

  function Mask(n: nat): bv32
    decreases n
  {
    if n == 0 then 0 else (Mask(n - 1) << 1) | 1
  }

  lemma MaskStep(y: bv32, m: bv32)
    requires y & ((m << 1) | 1) == 0 && m <= 0xFF
    ensures !Odd(y) && Half(y) & m == 0
  {
  }

  lemma Masks()
    ensures Mask(8) == 0xFF
  {
    assert Mask(2) == 3 && Mask(4) == 0xF && Mask(6) == 0x3F;
  }

  lemma MaskSmall(n: nat)
    requires n <= 8
    ensures Mask(n) <= 0xFF
    decreases n
  {
    if n == 0 {
    } else if n <= 2 {
      assert Mask(n) <= 3;
    } else if n <= 4 {
      assert Mask(n - 2) <= 3;
    } else {
      assert Mask(2) == 3;
      assert Mask(4) == 0xF;
      assert Mask(6) == 0x3F;
    }
  }

  lemma {:induction false} ShiftsOut(y: bv32, n: nat)
    requires n <= 8 && y & Mask(n) == 0
    ensures Shifts(y, n) == Halved(y, n)
    decreases n
  {
    hide Half, Odd;
    if n > 0 {
      MaskSmall(n - 1);
      MaskStep(y, Mask(n - 1));
      ShiftsOut(Half(y), n - 1);
    }
  }

  // Taking a byte's bits in turn is shifting the register with the byte in it.
  lemma {:induction false} TakeBitsIsShifts(c: bv32, p: bv32, n: nat)
    requires Halved(p, n) == 0
    ensures TakeBits(c, p, n) == Shifts(Xor(c, p), n)
    decreases n
  {
    hide Half, Odd, Xor;
    if n == 0 {
      XorUnits(c);
    } else {
      HalfXor(c, p);
      OddXor(c, p);
      XorLaws(POLYNOMIAL, Half(c), Half(p));
      TakeBitsIsShifts(if Odd(c) != Odd(p) then Xor(POLYNOMIAL, Half(c)) else Half(c), Half(p), n - 1);
    }
  }

  lemma Halved8(y: bv32)
    ensures Halved(y, 8) == Down8(y)
  {
    var a, b, c := Half(Half(y)), Half(Half(Half(Half(y)))), Half(Half(Half(Half(Half(Half(y))))));
    FourQuarters(y);
    hide Half, Down8;
    assert Halved(y, 8) == Halved(a, 6);
    assert Halved(a, 6) == Halved(b, 4);
    assert Halved(b, 4) == Halved(c, 2);
    assert Halved(c, 2) == Half(Half(c));
  }

  lemma FourQuarters(y: bv32)
    ensures Half(Half(Half(Half(Half(Half(Half(Half(y)))))))) == Down8(y)
  {
  }

  // A byte through the table: shift the register by eight, and add the table's
  // entry for the byte that leaves, which is that byte alone shifted eight times.
  lemma TableStep(c: bv32, p: bv32)
    requires p < 256
    ensures Xor(Shifts(LowByte(Xor(c, p)), 8), Down8(c)) == TakeBits(c, p, 8)
  {
    SmallByte(c, p);
    HighClear(Xor(c, p));
    hide *;
    var x := Xor(c, p);
    Halved8(p);
    TakeBitsIsShifts(c, p, 8);
    ByteParts(x);
    ShiftsXor(LowByte(x), HighBytes(x), 8);
    Masks();
    ShiftsOut(HighBytes(x), 8);
    Halved8(HighBytes(x));
  }

  lemma HighClear(x: bv32)
    ensures HighBytes(x) & 0xFF == 0
  {
  }

  lemma SmallByte(c: bv32, p: bv32)
    requires p < 256
    ensures Down8(p) == 0 && Down8(Xor(c, p)) == Down8(c)
  {
  }

  // The table index of a register, and the register of an index.
  function Index(x: bv32): (n: nat)
    ensures n < 256
  {
    LowIsSmall(x);
    (x & 0xFF) as nat
  }

  lemma LowIsSmall(x: bv32)
    ensures (x & 0xFF) as nat < 256
  {
  }

  function Register(n: nat): bv32
    requires n < 256
  {
    n as bv32
  }

  lemma RegisterOfIndex(x: bv32)
    ensures Register(Index(x)) == LowByte(x)
  {
    var y := x & 0xFF;
    assert y < 256;
    RoundTrip(y);
  }

  lemma RoundTrip(y: bv32)
    requires y < 256
    ensures (y as nat) as bv32 == y
  {
  }

  lemma RegisterFits(n: nat)
    requires n < 256
    ensures Register(n) < 256
  {
  }

  // -------------------------------------------------------- as it is run

  ghost predicate IsTable(t: array<bv32>)
    reads t
  {
    t.Length == 256 && forall n | 0 <= n < 256 :: t[n] == Shifts(Register(n), 8)
  }

  lemma {:induction false} ShiftsSnoc(c: bv32, n: nat)
    ensures Shifts(c, n + 1) == Shift(Shifts(c, n)) && Shifts(c, 0) == c
    decreases n
  {
    hide Shift;
    if n > 0 {
      ShiftsSnoc(Shift(c), n - 1);
    } else {
      assert Shifts(Shift(c), 0) == Shift(c);
    }
  }

  // `crc_init`
  method CrcInit(t: array<bv32>)
    requires t.Length == 256
    modifies t
    ensures IsTable(t)
  {
    hide Shifts, Register, Xor, Half, Odd;
    for n := 0 to 256
      invariant forall i | 0 <= i < n :: t[i] == Shifts(Register(i), 8)
    {
      var c := TableEntry(n);
      t[n] := c;
    }
  }

  method TableEntry(n: nat) returns (c: bv32)
    requires n < 256
    ensures c == Shifts(Register(n), 8)
  {
    hide Shifts, Register, Xor, Half, Odd;
    c := Register(n);
    ShiftsSnoc(c, 0);
    for k := 0 to 8
      invariant c == Shifts(Register(n), k)
    {
      ShiftsSnoc(Register(n), k);
      c := if Odd(c) then Xor(POLYNOMIAL, Half(c)) else Half(c);
    }
  }

  // `crc32_buf`
  method CrcBuffer(t: array<bv32>, data: seq<U8>, start: bv32) returns (c: bv32)
    requires IsTable(t)
    ensures c == Crc(start, data)
  {
    hide Shifts, TakeBits, Register, Xor, Down8, Index;
    c := start;
    CrcNone(start);
    for i := 0 to |data|
      invariant c == Crc(start, data[..i])
    {
      CrcNext(start, data, i);
      var x := Xor(c, Register(data[i]));
      RegisterFits(data[i]);
      TableStep(c, Register(data[i]));
      RegisterOfIndex(x);
      c := Xor(t[Index(x)], Down8(c));
    }
    assert data[..|data|] == data;
  }

  lemma CrcNone(c: bv32)
    ensures Crc(c, []) == c
  {
  }

  lemma CrcNext(c: bv32, data: seq<U8>, i: nat)
    requires i < |data|
    ensures Crc(c, data[..i + 1]) == TakeBits(Crc(c, data[..i]), Register(data[i]), 8)
  {
    assert data[..i + 1][..i] == data[..i];
  }

  lemma TakeOne(c: bv32, p: bv32, n: nat, c': bv32, p': bv32)
    requires n > 0 && p' == Half(p) && c' == if Odd(c) != Odd(p) then Xor(POLYNOMIAL, Half(c)) else Half(c)
    ensures TakeBits(c, p, n) == TakeBits(c', p', n - 1)
  {
    hide Xor, Half, Odd;
  }

  // The register after the letter a.
  lemma KnownRegister()
    ensures TakeBits(0xFFFFFFFF, Register(0x61), 8) == 0x174841BC
  {
    hide TakeBits;
    TakeOne(0xFFFFFFFF, 0x61, 8, 0x7FFFFFFF, 0x30);
    TakeOne(0x7FFFFFFF, 0x30, 7, 0xD2477CDF, 0x18);
    TakeOne(0xD2477CDF, 0x18, 6, 0x849B3D4F, 0xC);
    TakeOne(0x849B3D4F, 0xC, 5, 0xAFF51D87, 0x6);
    TakeOne(0xAFF51D87, 0x6, 4, 0xBA420DE3, 0x3);
    TakeOne(0xBA420DE3, 0x3, 3, 0x5D2106F1, 0x1);
    TakeOne(0x5D2106F1, 0x1, 2, 0x2E908378, 0x0);
    TakeOne(0x2E908378, 0x0, 1, 0x174841BC, 0x0);
    TakeNone(0x174841BC, 0);
  }

  lemma TakeNone(c: bv32, p: bv32)
    ensures TakeBits(c, p, 0) == c
  {
  }
}
