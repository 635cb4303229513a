// The 68000's registers and the sound RAM it sees, as a value.
module M68kState {
  import opened M68kAlu
  import opened Words

  function Wrap(x: int): (r: U32) { x % 0x1_0000_0000 }

  function Plus(a: int, k: int): (r: U32) { Wrap(a + k) }

  // ------------------------------------------------------ status register

  type Field2 = x: int | 0 <= x < 4
  type Field3 = x: int | 0 <= x < 8

  // Every one of its sixteen bits; the spare ones are kept as written.
  datatype Sr = Sr(trace: bool, bit14: bool, super: bool, bits11: Field2, mask: Field3, bits5: Field3, f: Flags)

  // Bits 4 to 0 and bits 15 to 5 of the word that is pushed and popped.
  function FlagBits(f: Flags): (w: nat)
    ensures w < 0x20
  {
    Bit(f.x) * 16 + Bit(f.n) * 8 + Bit(f.z) * 4 + Bit(f.v) * 2 + Bit(f.c)
  }

  function SystemBits(s: Sr): (w: nat)
    ensures w < 0x800
  {
    var mode := Bit(s.trace) * 4 + Bit(s.bit14) * 2 + Bit(s.super);
    var high := mode * 4 + s.bits11 as int;
    (high * 8 + s.mask as int) * 8 + s.bits5 as int
  }

  function SrWord(s: Sr): (w: U16) { SystemBits(s) * 0x20 + FlagBits(s.f) }

  function FlagsOf(w: nat): Flags {
    Flags(w / 16 % 2 == 1, w / 8 % 2 == 1, w / 4 % 2 == 1, w / 2 % 2 == 1, w % 2 == 1)
  }

  function SystemOf(w: nat, f: Flags): Sr {
    var high := w / 64;
    var mode := high / 4;
    Sr(mode / 4 % 2 == 1, mode / 2 % 2 == 1, mode % 2 == 1, high % 4, w / 8 % 8, w % 8, f)
  }

  function SrOf(w: U16): Sr { SystemOf(w as int / 0x20, FlagsOf(w as int % 0x20)) }

  lemma FlagBitsRoundTrip(f: Flags)
    ensures FlagsOf(FlagBits(f)) == f
  {
  }

  lemma SystemBitsRoundTrip(s: Sr)
    ensures SystemOf(SystemBits(s), s.f) == s
  {
    var mode := Bit(s.trace) * 4 + Bit(s.bit14) * 2 + Bit(s.super);
    var high := mode * 4 + s.bits11 as int;
    var w := SystemBits(s);
    assert w / 8 == high * 8 + s.mask as int && w % 8 == s.bits5 as int;
    assert w / 64 == high && w / 8 % 8 == s.mask as int;
    assert high / 4 == mode && high % 4 == s.bits11 as int;
  }

  lemma SrRoundTrip(s: Sr)
    ensures SrOf(SrWord(s)) == s
  {
    hide FlagBits, SystemBits, FlagsOf, SystemOf;
    FlagBitsRoundTrip(s.f);
    SystemBitsRoundTrip(s);
  }

  // --------------------------------------------------------------- memory

  const RAM_BYTES: nat := 0x80000

  type Ram = s: seq<U8> | |s| == 0x80000 witness seq(0x80000, i => 0)

  // Address lines 23 to 1, and whether they select sound RAM.
  function Lines(a: U32): (r: nat)
    ensures r < 0x100_0000 && r % 2 == 0
  {
    a / 2 * 2 % 0x100_0000
  }

  predicate InRam(a: U32) { Lines(a) < 0x10_0000 }

  // Where words sit in sound RAM.
  type WordSlot = o: int | 0 <= o < 0x7_FFFF && o % 2 == 0

  // The sound RAM offset of a word; RAM repeats every 512 KB.
  function Slot(a: U32): (o: WordSlot) {
    Lines(a) % RAM_BYTES
  }

  function Read16(ram: Ram, a: U32): (v: U16) {
    if InRam(a) then ram[Slot(a)] as int * 0x100 + ram[Slot(a) as int + 1] as int else 0
  }

  function Write16(ram: Ram, a: U32, v: U16): (r: Ram) {
    if InRam(a) then ram[Slot(a) := v / 0x100][Slot(a) as int + 1 := v % 0x100] else ram
  }

  function Read32(ram: Ram, a: U32): (v: U32) {
    Read16(ram, a) as int * 0x1_0000 + Read16(ram, Plus(a, 2)) as int
  }

  function Write32(ram: Ram, a: U32, v: U32): (r: Ram) {
    Write16(Write16(ram, a, v / 0x1_0000), Plus(a, 2), v % 0x1_0000)
  }

  // Bytes take all the address lines.
  predicate ByteInRam(a: U32) { a % 0x100_0000 < 0x10_0000 }

  function ByteSlot(a: U32): (o: nat)
    ensures o < RAM_BYTES
  {
    a % 0x100_0000 % RAM_BYTES
  }

  function Read8(ram: Ram, a: U32): (v: U8) { if ByteInRam(a) then ram[ByteSlot(a)] else 0 }

  function Write8(ram: Ram, a: U32, v: U8): (r: Ram) { if ByteInRam(a) then ram[ByteSlot(a) := v] else ram }

  // Two memories agree on the word of a slot.
  predicate SameWord(m: Ram, n: Ram, o: WordSlot) { m[o] == n[o] && m[o as int + 1] == n[o as int + 1] }

  // Where the status register keeps what: the five flags at the bottom, the mask
  // in bits 8 to 10, supervisor in bit 13 and trace in bit 15.
  lemma StatusBits(s: Sr)
    ensures var w := SrWord(s) as int;
            && (w % 2 == 1 <==> s.f.c) && (w / 2 % 2 == 1 <==> s.f.v) && (w / 4 % 2 == 1 <==> s.f.z)
            && (w / 8 % 2 == 1 <==> s.f.n) && (w / 16 % 2 == 1 <==> s.f.x)
            && w / 0x100 % 8 == s.mask && (w / 0x2000 % 2 == 1 <==> s.super) && (w / 0x8000 == 1 <==> s.trace)
  {
    FlagPlaces(s.f);
    SystemPlaces(s);
    hide FlagBits, SystemBits;
    Lifted(SystemBits(s), FlagBits(s.f));
  }

  lemma FlagPlaces(f: Flags)
    ensures var w := FlagBits(f);
            && (w % 2 == 1 <==> f.c) && (w / 2 % 2 == 1 <==> f.v) && (w / 4 % 2 == 1 <==> f.z)
            && (w / 8 % 2 == 1 <==> f.n) && (w / 16 == 1 <==> f.x)
  {
  }

  lemma SystemPlaces(s: Sr)
    ensures var w := SystemBits(s);
            w / 8 % 8 == s.mask && (w / 256 % 2 == 1 <==> s.super) && (w / 1024 == 1 <==> s.trace)
  {
  }

  lemma Lifted(high: nat, low: nat)
    requires low < 32
    ensures var w := high * 32 + low;
            && w % 2 == low % 2 && w / 2 % 2 == low / 2 % 2 && w / 4 % 2 == low / 4 % 2 && w / 8 % 2 == low / 8 % 2
            && w / 16 % 2 == low / 16 && w / 0x100 % 8 == high / 8 % 8 && w / 0x2000 % 2 == high / 256 % 2
            && w / 0x8000 == high / 1024
  {
    Within2(high, low);
    Within4(high, low);
    Within8(high, low);
    Within16(high, low);
    Above(high, low, 8);
    Above(high, low, 256);
    Above(high, low, 1024);
  }

  lemma Within2(high: nat, low: nat)
    ensures (high * 32 + low) / 2 == 16 * high + low / 2 && (16 * high + low / 2) % 2 == low / 2 % 2
  {
  }

  lemma Within4(high: nat, low: nat)
    ensures (high * 32 + low) / 4 == 8 * high + low / 4 && (8 * high + low / 4) % 2 == low / 4 % 2
  {
  }

  lemma Within8(high: nat, low: nat)
    ensures (high * 32 + low) / 8 == 4 * high + low / 8 && (4 * high + low / 8) % 2 == low / 8 % 2
  {
  }

  lemma Within16(high: nat, low: nat)
    requires low < 32
    ensures (high * 32 + low) / 16 == 2 * high + low / 16 && (2 * high + low / 16) % 2 == low / 16
  {
  }

  lemma Above(high: nat, low: nat, n: nat)
    requires low < 32 && (n == 8 || n == 256 || n == 1024)
    ensures (high * 32 + low) / (32 * n) == high / n
  {
  }

  // A word in sound RAM is its two bytes, high byte first, and a long word its
  // two words, high word first.
  lemma WordIsBytes(ram: Ram, a: U32)
    requires a % 2 == 0 && a % 0x100_0000 < 0x10_0000
    ensures Read16(ram, a) as int == 256 * Read8(ram, a) as int + Read8(ram, Plus(a, 1)) as int
    ensures Read32(ram, a) as int == 0x1_0000 * Read16(ram, a) as int + Read16(ram, Plus(a, 2)) as int
  {
  }

  // 512 KB of RAM answer twice below 0x100000, on a bus of 24 bits; above it there
  // is nothing to read or write.
  lemma MemoryMap(ram: Ram, a: U32, v: U8)
    ensures a % 0x100_0000 < 0x10_0000 ==>
              && Read8(ram, a) == ram[a % 0x8_0000] && Write8(ram, a, v) == ram[a % 0x8_0000 := v]
    ensures a % 0x100_0000 >= 0x10_0000 ==> Read8(ram, a) == 0 && Write8(ram, a, v) == ram
  {
    RepeatsAt(a);
  }

  lemma RepeatsAt(a: nat)
    ensures a % 0x100_0000 % 0x8_0000 == a % 0x8_0000
  {
  }

  lemma WordMap(ram: Ram, a: U32, v: U16)
    requires a % 0x100_0000 >= 0x10_0000
    ensures Read16(ram, a) == 0 && Write16(ram, a, v) == ram
  {
    assert Lines(a) >= 0x10_0000;
    hide Lines;
  }

  // A word written through one mirror of sound RAM is read through any other.
  lemma WriteThenRead(ram: Ram, a: U32, v: U16, b: U32)
    requires InRam(a) && InRam(b) && Slot(a) == Slot(b)
    ensures Read16(Write16(ram, a, v), b) == v
  {
  }

  lemma WriteElsewhere(ram: Ram, a: U32, v: U16, o: WordSlot)
    requires o != Slot(a)
    ensures SameWord(Write16(ram, a, v), ram, o)
  {
  }

  lemma SameRead(m: Ram, n: Ram, a: U32)
    requires SameWord(m, n, Slot(a))
    ensures Read16(m, a) == Read16(n, a)
  {
  }

  // ----------------------------------------------------------- the machine

  type Bank = s: seq<U32> | |s| == 8 witness [0, 0, 0, 0, 0, 0, 0, 0]

  datatype State = State(
    d: Bank, a: Bank, pc: U32, usp: U32, ssp: U32, sr: Sr, stopped: bool, halted: bool, inException: bool,
    irqLevel: Field3, irqVector: int, ram: Ram)

  // `set_sr`: crossing between the modes swaps the stack pointers.
  function WithSr(s: State, v: Sr): State {
    if s.sr.super == v.super then s.(sr := v)
    else if s.sr.super then s.(ssp := s.a[7], a := s.a[7 := s.usp], sr := v)
    else s.(usp := s.a[7], a := s.a[7 := s.ssp], sr := v)
  }

  // The stack pointer of the mode the machine is not in.
  function Inactive(s: State): U32 { if s.sr.super then s.usp else s.ssp }

  function Pushed32(s: State, v: U32): State {
    var sp := Plus(s.a[7], -4);
    s.(a := s.a[7 := sp], ram := Write32(s.ram, sp, v))
  }

  function Pushed16(s: State, v: U16): State {
    var sp := Plus(s.a[7], -2);
    s.(a := s.a[7 := sp], ram := Write16(s.ram, sp, v))
  }

  function Popped(s: State, n: nat): State { s.(a := s.a[7 := Plus(s.a[7], n)]) }

  // Supervisor mode with this interrupt mask, the return frame on the stack,
  // and the handler's address from the vector table.
  function Entered(s: State, mask: Field3, vector: U32): State {
    var saved := SrWord(s.sr);
    var e := WithSr(s, s.sr.(super := true, trace := false));
    var m := e.(sr := e.sr.(mask := mask));
    var p := Pushed16(Pushed32(m, s.pc), saved);
    p.(pc := Read32(p.ram, Wrap(vector as int * 4)), stopped := false)
  }

  // `exception`
  function Raised(s: State, vector: U32): State {
    if s.inException then s.(halted := true, irqLevel := 0) else Entered(s, s.sr.mask, vector)
  }

  // `check_irq`
  predicate Accepts(s: State) {
    s.irqLevel > 0 && !s.halted && (s.irqLevel == 7 || s.irqLevel > s.sr.mask)
  }

  function VectorOf(s: State): U32 { Wrap(if s.irqVector >= 0 then s.irqVector else 24 + s.irqLevel) }

  function IrqChecked(s: State): State {
    if Accepts(s) then Entered(s, s.irqLevel, VectorOf(s)).(irqLevel := 0)
    else if s.irqLevel > 0 && s.halted then s.(irqLevel := 0)
    else s
  }

  const PRIVILEGE_VIOLATION: U32 := 8

  // RTE
  function Returned(s: State): State {
    if !s.sr.super then Raised(s, PRIVILEGE_VIOLATION)
    else
      var sr := SrOf(Read16(s.ram, s.a[7]));
      var sp := Plus(s.a[7], 2);
      var pc := Read32(s.ram, sp);
      WithSr(Popped(Popped(s, 2), 4), sr).(pc := pc)
  }
}
