// The 68000 as the program keeps it: registers and sound RAM updated in place.
module M68kCpu {
  import opened M68kAlu
  import opened M68kDecimal
  import opened M68kMovem
  import opened M68kPacked
  import opened M68kState
  import opened Words

  // The top bit of an operand of each size, and the bit above it.
  predicate TopBit(v: int, sz: Size) {
    match sz
    case Byte => v / 0x80 % 2 == 1
    case Word => v / 0x8000 % 2 == 1
    case Long => v / 0x8000_0000 % 2 == 1
  }

  predicate CarryBit(v: int, sz: Size) {
    match sz
    case Byte => v / 0x100 % 2 == 1
    case Word => v / 0x1_0000 % 2 == 1
    case Long => v / 0x1_0000_0000 % 2 == 1
  }

  function Masked(v: int, sz: Size): (r: nat)
    ensures r < Modulus(sz)
  {
    match sz
    case Byte => v % 0x100
    case Word => v % 0x1_0000
    case Long => v % 0x1_0000_0000
  }

  lemma TopBitIs(v: nat, sz: Size)
    requires v < Modulus(sz)
    ensures TopBit(v, sz) <==> 2 * v >= Modulus(sz)
  {
  }

  lemma CarryBitIs(v: int, sz: Size)
    requires -1 * Modulus(sz) <= v < 2 * Modulus(sz)
    ensures CarryBit(v, sz) <==> v < 0 || v >= Modulus(sz)
    ensures Masked(v, sz) == if v < 0 then v + Modulus(sz) else if v >= Modulus(sz) then v - Modulus(sz) else v
  {
  }

  // What the bits of a sum and of a difference say.
  lemma SumBits(x: nat, y: nat, k: nat, t: int, sz: Size)
    requires x < Modulus(sz) && y < Modulus(sz) && k <= 1 && t == x + y + k
    ensures var m, r := Modulus(sz), Masked(t, sz);
            && r == (if t >= m then t - m else t)
            && (CarryBit(t, sz) <==> t >= m) && (TopBit(r, sz) <==> 2 * r >= m)
            && (TopBit(x, sz) == TopBit(y, sz) != TopBit(r, sz) <==>
                !InSignedRange(Signed(x, m) + Signed(y, m) + k, m))
  {
    hide TopBit, CarryBit, Masked, Modulus;
    CarryBitIs(t, sz);
    TopBitIs(x, sz);
    TopBitIs(y, sz);
    TopBitIs(Masked(t, sz), sz);
  }

  lemma DifferenceBits(x: nat, y: nat, k: nat, t: int, sz: Size)
    requires x < Modulus(sz) && y < Modulus(sz) && k <= 1 && t == y - x - k
    ensures var m, r := Modulus(sz), Masked(t, sz);
            && r == (if t < 0 then t + m else t)
            && (CarryBit(t, sz) <==> t < 0) && (TopBit(r, sz) <==> 2 * r >= m)
            && (TopBit(x, sz) != TopBit(y, sz) && TopBit(y, sz) != TopBit(r, sz) <==>
                !InSignedRange(Signed(y, m) - Signed(x, m) - k, m))
  {
    hide TopBit, CarryBit, Masked, Modulus;
    CarryBitIs(t, sz);
    TopBitIs(x, sz);
    TopBitIs(y, sz);
    TopBitIs(Masked(t, sz), sz);
  }

  // The result and flags the code works out bit by bit.
  function CodedSum(f: Flags, x: nat, y: nat, t: int, sz: Size, withX: bool): Result {
    var r := Masked(t, sz);
    var carry := CarryBit(t, sz);
    var ovf := TopBit(x, sz) == TopBit(y, sz) && TopBit(x, sz) != TopBit(r, sz);
    Result(r, Flags(carry, TopBit(r, sz), if withX then r == 0 && f.z else r == 0, ovf, carry))
  }

  function CodedDifference(f: Flags, x: nat, y: nat, t: int, sz: Size, withX: bool): Result {
    var r := Masked(t, sz);
    var borrow := CarryBit(t, sz);
    var ovf := TopBit(x, sz) != TopBit(y, sz) && TopBit(y, sz) != TopBit(r, sz);
    Result(r, Flags(borrow, TopBit(r, sz), if withX then r == 0 && f.z else r == 0, ovf, borrow))
  }

  lemma CodedSumIsSum(f: Flags, x: nat, y: nat, t: int, sz: Size, withX: bool)
    requires x < Modulus(sz) && y < Modulus(sz) && t == x + y + Bit(withX && f.x)
    ensures CodedSum(f, x, y, t, sz, withX) == Sum(f, x, y, Modulus(sz), withX)
  {
    hide TopBit, CarryBit, Masked, Modulus, InSignedRange, Signed;
    SumBits(x, y, Bit(withX && f.x), t, sz);
  }

  lemma CodedDifferenceIsDifference(f: Flags, x: nat, y: nat, t: int, sz: Size, withX: bool)
    requires x < Modulus(sz) && y < Modulus(sz) && t == y - x - Bit(withX && f.x)
    ensures CodedDifference(f, x, y, t, sz, withX) == Difference(f, x, y, Modulus(sz), withX)
  {
    hide TopBit, CarryBit, Masked, Modulus, InSignedRange, Signed;
    DifferenceBits(x, y, Bit(withX && f.x), t, sz);
  }

  class Cpu {
    const d: array<U32>
    const a: array<U32>
    const ram: array<U8>
    var pc: U32
    var usp: U32
    var ssp: U32
    var sr: Sr
    var stopped: bool
    var halted: bool
    var inException: bool
    var irqLevel: Field3
    var irqVector: int

    ghost predicate Valid() {
      && d.Length == a.Length == 8 && ram.Length == RAM_BYTES
      && d != a && ram as object != a as object && ram as object != d as object
    }

    ghost function Model(): State
      requires Valid()
      reads this, d, a, ram
    {
      State(d[..], a[..], pc, usp, ssp, sr, stopped, halted, inException, irqLevel, irqVector, ram[..])
    }

    // ------------------------------------------------------- arithmetic

    // `do_add` and `do_sub`; with X they also keep Z only if it was set.
    method DoAdd(x: U32, y: U32, sz: Size, withX: bool) returns (r: U32)
      modifies `sr
      ensures sr == old(sr).(f := sr.f)
      ensures Result(r, sr.f) == Sum(old(sr.f), Masked(x, sz), Masked(y, sz), Modulus(sz), withX)
    {
      hide TopBit, CarryBit, Masked, Modulus, Sum;
      var k: int, p: int, q: int := if withX && sr.f.x then 1 else 0, Masked(x, sz), Masked(y, sz);
      var full := p + q + k;
      CodedSumIsSum(sr.f, p, q, full, sz, withX);
      ModulusFits(sz);
      r := Masked(full, sz);
      var carry := CarryBit(full, sz);
      var ovf := TopBit(p, sz) == TopBit(q, sz) && TopBit(p, sz) != TopBit(r, sz);
      var z := if withX then r == 0 && sr.f.z else r == 0;
      sr := sr.(f := Flags(carry, TopBit(r, sz), z, ovf, carry));
    }

    lemma ModulusFits(sz: Size)
      ensures Modulus(sz) <= 0x1_0000_0000
    {
    }

    method DoSub(x: U32, y: U32, sz: Size, withX: bool) returns (r: U32)
      modifies `sr
      ensures sr == old(sr).(f := sr.f)
      ensures Result(r, sr.f) == Difference(old(sr.f), Masked(x, sz), Masked(y, sz), Modulus(sz), withX)
    {
      hide TopBit, CarryBit, Masked, Modulus, Difference;
      var k: int, p: int, q: int := if withX && sr.f.x then 1 else 0, Masked(x, sz), Masked(y, sz);
      var full := q - p - k;
      CodedDifferenceIsDifference(sr.f, p, q, full, sz, withX);
      ModulusFits(sz);
      r := Masked(full, sz);
      var borrow := CarryBit(full, sz);
      var ovf := TopBit(p, sz) != TopBit(q, sz) && TopBit(q, sz) != TopBit(r, sz);
      var z := if withX then r == 0 && sr.f.z else r == 0;
      sr := sr.(f := Flags(borrow, TopBit(r, sz), z, ovf, borrow));
    }

    method DoCmp(x: U32, y: U32, sz: Size)
      modifies `sr
      ensures sr == old(sr).(f := Compared(old(sr.f), Masked(x, sz), Masked(y, sz), Modulus(sz)))
    {
      hide Difference;
      var keep := sr.f.x;
      var _ := DoSub(x, y, sz, false);
      sr := sr.(f := sr.f.(x := keep));
    }

    // `cond_true`
    method CondTrue(code: nat) returns (r: bool)
      ensures r <==> M68kAlu.Holds(sr.f, ConditionOf(code))
    {
      var f := sr.f;
      match code {
        case 0 => r := true;
        case 1 => r := false;
        case 2 => r := !f.c && !f.z;
        case 3 => r := f.c || f.z;
        case 4 => r := !f.c;
        case 5 => r := f.c;
        case 6 => r := !f.z;
        case 7 => r := f.z;
        case 8 => r := !f.v;
        case 9 => r := f.v;
        case 10 => r := !f.n;
        case 11 => r := f.n;
        case 12 => r := f.n == f.v;
        case 13 => r := f.n != f.v;
        case 14 => r := !f.z && f.n == f.v;
        case _ => r := f.z || f.n != f.v;
      }
    }

    // -------------------------------------------------- packed decimal

    method ReadByte(at: U32) returns (v: U8)
      requires Valid()
      ensures v == Read8(ram[..], at)
    {
      v := if ByteInRam(at) then ram[ByteSlot(at)] else 0;
    }

    method WriteByte(at: U32, v: U8)
      requires Valid()
      modifies ram
      ensures ram[..] == Write8(old(ram[..]), at, v)
    {
      if ByteInRam(at) {
        ram[ByteSlot(at)] := v;
      }
    }

    method StepBack(r: Field3)
      requires Valid()
      modifies a
      ensures Model() == Stepped(old(Model()), r)
    {
      hide Plus;
      a[r] := Plus(a[r], -1);
    }

    // The two bytes ABCD and SBCD work on: with predecrement, or the low bytes of
    // data registers.
    method Operands(memory: bool, src: Field3, dst: Field3) returns (x: U8, y: U8)
      requires Valid()
      modifies a
      ensures memory ==>
                var s1 := Stepped(old(Model()), src);
                var s2 := Stepped(s1, dst);
                Model() == s2 && x == Read8(s2.ram, s1.a[src]) && y == Read8(s2.ram, s2.a[dst])
      ensures !memory ==> Model() == old(Model()) && x == d[src] as int % 0x100 && y == d[dst] as int % 0x100
    {
      hide Plus, Read8;
      if memory {
        StepBack(src);
        x := ReadByte(a[src]);
        StepBack(dst);
        y := ReadByte(a[dst]);
      } else {
        x, y := d[src] as int % 0x100, d[dst] as int % 0x100;
      }
    }

    method StoreByte(memory: bool, dst: Field3, r: U8)
      requires Valid()
      modifies d, ram
      ensures memory ==> Model() == old(Model()).(ram := Write8(old(ram[..]), a[dst], r))
      ensures !memory ==>
                Model() == old(Model()).(d := old(d[..])[dst := WithLow(old(d[dst]), r)])
    {
      hide Write8, WithLow;
      if memory {
        WriteByte(a[dst], r);
      } else {
        d[dst] := WithLow(d[dst], r);
      }
    }

    // X and C take the carry; Z is only ever cleared.
    method SetDecimalFlags(carry: bool, r: nat)
      requires Valid()
      modifies `sr
      ensures Model() == old(Model()).(sr := old(sr).(f := AfterDecimal(old(sr).f, carry, r)))
    {
      sr := sr.(f := sr.f.(x := carry, c := carry));
      if r != 0 {
        sr := sr.(f := sr.f.(z := false));
      }
    }

    method Abcd(memory: bool, src: Field3, dst: Field3)
      requires Valid()
      modifies `sr, d, a, ram
      ensures Model() == DecimalDone(old(Model()), memory, src, dst, false)
    {
      hide DecimalSum, Read8, Write8, Plus, WithLow;
      var x, y := Operands(memory, src, dst);
      var r, carry := AddDigits(sr.f, x, y);
      SetDecimalFlags(carry, r);
      StoreByte(memory, dst, r);
    }

    static method AddDigits(f: Flags, s: nat, t: nat) returns (r: nat, carry: bool)
      requires s < 0x100 && t < 0x100
      ensures r < 0x100 && DecimalSum(f, s, t) == Result(r, AfterDecimal(f, carry, r))
    {
      hide Merge;
      var lo, hi := t % 16 + s % 16 + Bit(f.x), t / 16 % 16 + s / 16 % 16;
      carry := false;
      if lo > 9 {
        lo, hi := lo - 10, hi + 1;
      }
      if hi > 9 {
        hi, carry := hi - 10, true;
      }
      r := Merge(hi, lo);
    }

    method Sbcd(memory: bool, src: Field3, dst: Field3)
      requires Valid()
      modifies `sr, d, a, ram
      ensures Model() == DecimalDone(old(Model()), memory, src, dst, true)
    {
      hide DecimalDifference, Read8, Write8, Plus, WithLow;
      var x, y := Operands(memory, src, dst);
      var r, borrow := SubtractDigits(sr.f, x, y);
      SetDecimalFlags(borrow, r);
      StoreByte(memory, dst, r);
    }

    static method SubtractDigits(f: Flags, s: nat, t: nat) returns (r: nat, borrow: bool)
      requires s < 0x100 && t < 0x100
      ensures r < 0x100 && DecimalDifference(f, s, t) == Result(r, AfterDecimal(f, borrow, r))
    {
      hide Merge;
      var lo, hi := t % 16 - s % 16 - Bit(f.x), t / 16 % 16 - s / 16 % 16;
      borrow := false;
      if lo < 0 {
        lo, hi := lo + 10, hi - 1;
      }
      if hi < 0 {
        hi, borrow := hi + 10, true;
      }
      r := Merge(hi, lo);
    }

    // ----------------------------------------------------------- memory

    method WriteWord(at: U32, v: U16)
      requires Valid()
      modifies ram
      ensures ram[..] == Write16(old(ram[..]), at, v)
    {
      if InRam(at) {
        var o: int := Slot(at);
        ram[o] := v / 0x100;
        ram[o + 1] := v % 0x100;
      }
    }

    method WriteLong(at: U32, v: U32)
      requires Valid()
      modifies ram
      ensures ram[..] == Write32(old(ram[..]), at, v)
    {
      hide Write16;
      WriteWord(at, v / 0x1_0000);
      WriteWord(Plus(at, 2), v % 0x1_0000);
    }

    method ReadWord(at: U32) returns (v: U16)
      requires Valid()
      ensures v == Read16(ram[..], at)
    {
      v := 0;
      if InRam(at) {
        var o: int := Slot(at);
        v := ram[o] as int * 0x100 + ram[o + 1] as int;
      }
    }

    method ReadLong(at: U32) returns (v: U32)
      requires Valid()
      ensures v == Read32(ram[..], at)
    {
      hide Read16;
      var high := ReadWord(at);
      var low := ReadWord(Plus(at, 2));
      v := high as int * 0x1_0000 + low as int;
    }

    method Push32(v: U32)
      requires Valid()
      modifies a, ram
      ensures Model() == Pushed32(old(Model()), v)
    {
      hide Write32;
      a[7] := Plus(a[7], -4);
      WriteLong(a[7], v);
    }

    method Push16(v: U16)
      requires Valid()
      modifies a, ram
      ensures Model() == Pushed16(old(Model()), v)
    {
      hide Write16;
      a[7] := Plus(a[7], -2);
      WriteWord(a[7], v);
    }

    method Pop32() returns (v: U32)
      requires Valid()
      modifies a
      ensures Model() == Popped(old(Model()), 4) && v == Read32(old(ram[..]), old(a[7]))
    {
      hide Read32;
      v := ReadLong(a[7]);
      a[7] := Plus(a[7], 4);
    }

    method Pop16() returns (v: U16)
      requires Valid()
      modifies a
      ensures Model() == Popped(old(Model()), 2) && v == Read16(old(ram[..]), old(a[7]))
    {
      hide Read16;
      v := ReadWord(a[7]);
      a[7] := Plus(a[7], 2);
    }

    // ------------------------------------------------------- exceptions

    method SetSr(v: Sr)
      requires Valid()
      modifies `sr, `usp, `ssp, a
      ensures Model() == WithSr(old(Model()), v)
    {
      if sr.super != v.super {
        if sr.super {
          ssp := a[7];
          a[7] := usp;
        } else {
          usp := a[7];
          a[7] := ssp;
        }
      }
      sr := v;
    }

    // The common part of `exception` and `check_irq`.
    method Enter(mask: Field3, vector: U32)
      requires Valid()
      modifies `sr, `usp, `ssp, `pc, `stopped, a, ram
      ensures Model() == Entered(old(Model()), mask, vector)
    {
      hide SrWord, Pushed32, Pushed16, WithSr, Read32;
      var saved := SrWord(sr);
      SetSr(sr.(super := true, trace := false));
      SetMask(mask);
      Push32(pc);
      Push16(saved);
      var at := ReadLong(Wrap(vector as int * 4));
      Jump(at);
    }

    method SetMask(mask: Field3)
      requires Valid()
      modifies `sr
      ensures Model() == old(Model()).(sr := old(sr).(mask := mask))
    {
      sr := sr.(mask := mask);
    }

    method Jump(at: U32)
      requires Valid()
      modifies `pc, `stopped
      ensures Model() == old(Model()).(pc := at, stopped := false)
    {
      pc := at;
      stopped := false;
    }

    method Raise(vector: U32)
      requires Valid()
      modifies this, a, ram
      ensures Model() == Raised(old(Model()), vector)
    {
      hide Entered;
      if inException {
        halted := true;
        irqLevel := 0;
        return;
      }
      Enter(sr.mask, vector);
    }

    method CheckIrq()
      requires Valid()
      modifies this, a, ram
      ensures Model() == IrqChecked(old(Model()))
    {
      hide Entered;
      if irqLevel == 0 {
        return;
      }
      if halted {
        irqLevel := 0;
        return;
      }
      if irqLevel != 7 && irqLevel <= sr.mask {
        return;
      }
      Enter(irqLevel, Wrap(if irqVector >= 0 then irqVector else 24 + irqLevel));
      irqLevel := 0;
    }

    method Rte()
      requires Valid()
      modifies this, a, ram
      ensures Model() == Returned(old(Model()))
    {
      hide Raised, SrOf, Read16, Read32, WithSr;
      if !sr.super {
        Raise(PRIVILEGE_VIOLATION);
        return;
      }
      var nsr := Pop16();
      var npc := Pop32();
      SetSr(SrOf(nsr));
      pc := npc;
    }

    // ------------------------------------------------------------ MOVEM

    method WriteOperand(at: U32, v: U32, long: bool)
      requires Valid()
      modifies ram
      ensures ram[..] == WriteSized(old(ram[..]), at, v, long)
    {
      hide Write16, Write32;
      if long {
        WriteLong(at, v);
      } else {
        WriteWord(at, v % 0x1_0000);
      }
    }

    method ReadOperand(at: U32, long: bool) returns (v: U32)
      requires Valid()
      ensures v == ReadSized(ram[..], at, long)
    {
      hide Read16, Read32;
      if long {
        v := ReadLong(at);
      } else {
        var w := ReadWord(at);
        v := SignExtended(w);
      }
    }

    method GetRegister(r: nat) returns (v: U32)
      requires Valid() && r < 16
      ensures v == Registers(Model())[r]
    {
      v := if r < 8 then d[r] else a[r - 8];
    }

    method SetRegister(r: nat, v: U32)
      requires Valid() && r < 16
      modifies d, a
      ensures Model() == WithRegisters(old(Model()), Registers(old(Model()))[r := v])
      ensures Registers(Model()) == Registers(old(Model()))[r := v]
    {
      ghost var f := Registers(Model());
      if r < 8 {
        d[r] := v;
      } else {
        a[r - 8] := v;
      }
      assert d[..] == f[r := v][..8] && a[..] == f[r := v][8..];
    }

    method StoreListDown(reg: Field3, long: bool, list: List)
      requires Valid()
      modifies a, ram
      ensures Model() == MovedDown(old(Model()), reg, long, list)
    {
      hide WriteSized, Plus;
      ghost var f := Registers(Model());
      ghost var start := Cursor(ram[..], a[reg]);
      var addr := a[reg];
      var i := 0;
      while i < 16
        invariant i <= 16 && Model() == old(Model()).(ram := ram[..])
        invariant StoreDown(f, list, long, 0, start) == StoreDown(f, list, long, i, Cursor(ram[..], addr))
      {
        if list[i] {
          var v := GetRegister(15 - i);
          addr := Plus(addr, -Step(long));
          WriteOperand(addr, v, long);
        }
        i := i + 1;
      }
      a[reg] := addr;
    }

    method StoreListUp(from: U32, long: bool, list: List) returns (addr: U32)
      requires Valid()
      modifies ram
      ensures var c := StoreUp(Registers(old(Model())), list, long, 0, Cursor(old(ram[..]), from));
              Model() == old(Model()).(ram := c.ram) && addr == c.addr
    {
      hide WriteSized, Plus;
      ghost var f := Registers(Model());
      ghost var start := Cursor(ram[..], from);
      addr := from;
      var i := 0;
      while i < 16
        invariant i <= 16 && Model() == old(Model()).(ram := ram[..])
        invariant StoreUp(f, list, long, 0, start) == StoreUp(f, list, long, i, Cursor(ram[..], addr))
      {
        if list[i] {
          var v := GetRegister(i);
          WriteOperand(addr, v, long);
          addr := Plus(addr, Step(long));
        }
        i := i + 1;
      }
    }

    method LoadListUp(from: U32, long: bool, list: List) returns (addr: U32)
      requires Valid()
      modifies d, a
      ensures var l := LoadUp(old(ram[..]), list, long, 0, Loaded(Registers(old(Model())), from));
              Model() == WithRegisters(old(Model()), l.file) && addr == l.addr
    {
      hide ReadSized, Plus;
      ghost var start := Loaded(Registers(Model()), from);
      addr := from;
      var i := 0;
      while i < 16
        invariant i <= 16 && Model() == WithRegisters(old(Model()), Registers(Model()))
        invariant LoadUp(ram[..], list, long, 0, start) ==
                  LoadUp(ram[..], list, long, i, Loaded(Registers(Model()), addr))
      {
        if list[i] {
          var v := ReadOperand(addr, long);
          SetRegister(i, v);
          addr := Plus(addr, Step(long));
        }
        i := i + 1;
      }
    }

    method SetAddress(reg: Field3, v: U32)
      requires Valid()
      modifies a
      ensures Model() == old(Model()).(a := old(a[..])[reg := v])
    {
      a[reg] := v;
    }

    method DoMovem(load: bool, mode: Field3, reg: Field3, long: bool, list: List, ea: U32)
      requires Valid()
      modifies d, a, ram
      ensures Model() == Moved(old(Model()), load, mode, reg, long, list, ea)
    {
      hide StoreDown, StoreUp, LoadUp;
      if !load && mode == 4 {
        StoreListDown(reg, long, list);
        return;
      }
      var addr := if mode == 3 then a[reg] else ea;
      if load {
        addr := LoadListUp(addr, long, list);
      } else {
        addr := StoreListUp(addr, long, list);
      }
      if mode == 3 {
        SetAddress(reg, addr);
      }
    }
  }
}
