// MOVEM: a list of registers stored below an address register and loaded back
// from it, the address register itself included.
module M68kMovem {
  import opened M68kState
  import opened Words
  import opened M68kNest

  // D0 to D7 and A0 to A7, and the sixteen bits of a register list.
  type File = s: seq<U32> | |s| == 16 witness seq(16, i => 0)
  type List = s: seq<bool> | |s| == 16 witness seq(16, i => false)

  function Registers(s: State): File { s.d + s.a }

  function WithRegisters(s: State, f: File): State { s.(d := f[..8], a := f[8..]) }

  function Step(long: bool): int { if long then 4 else 2 }

  function WriteSized(ram: Ram, a: U32, v: U32, long: bool): Ram {
    if long then Write32(ram, a, v) else Write16(ram, a, v % 0x1_0000)
  }

  function SignExtended(v: U16): U32 { if v >= 0x8000 then v as int + 0xFFFF_0000 else v }

  function ReadSized(ram: Ram, a: U32, long: bool): U32 {
    if long then Read32(ram, a) else SignExtended(Read16(ram, a))
  }

  // What a register holds after it was stored and loaded back.
  function Kept(v: U32, long: bool): U32 { if long then v else SignExtended(v % 0x1_0000) }

  datatype Cursor = Cursor(ram: Ram, addr: U32)

  // -(An): bit i of the list is register 15 - i.
  function StoreDown(f: File, list: List, long: bool, i: nat, c: Cursor): (r: Cursor)
    requires i <= 16
    decreases 16 - i
  {
    if i == 16 then c
    else if !list[i] then StoreDown(f, list, long, i + 1, c)
    else
      var addr := Plus(c.addr, -Step(long));
      StoreDown(f, list, long, i + 1, Cursor(WriteSized(c.ram, addr, f[15 - i], long), addr))
  }

  // Upwards from a plain address: bit i is register i.
  function StoreUp(f: File, list: List, long: bool, i: nat, c: Cursor): (r: Cursor)
    requires i <= 16
    decreases 16 - i
  {
    if i == 16 then c
    else if !list[i] then StoreUp(f, list, long, i + 1, c)
    else StoreUp(f, list, long, i + 1, Cursor(WriteSized(c.ram, c.addr, f[i], long), Plus(c.addr, Step(long))))
  }

  datatype Loaded = Loaded(file: File, addr: U32)

  function LoadUp(ram: Ram, list: List, long: bool, i: nat, l: Loaded): (r: Loaded)
    requires i <= 16
    decreases 16 - i
  {
    if i == 16 then l
    else if !list[i] then LoadUp(ram, list, long, i + 1, l)
    else LoadUp(ram, list, long, i + 1, Loaded(l.file[i := ReadSized(ram, l.addr, long)], Plus(l.addr, Step(long))))
  }

  // MOVEM regs,-(An) and MOVEM (An)+,regs.
  function MovedDown(s: State, reg: Field3, long: bool, list: List): State {
    var c := StoreDown(Registers(s), list, long, 0, Cursor(s.ram, s.a[reg]));
    s.(ram := c.ram, a := s.a[reg := c.addr])
  }

  function MovedUp(s: State, reg: Field3, long: bool, list: List): State {
    var l := LoadUp(s.ram, list, long, 0, Loaded(Registers(s), s.a[reg]));
    var t := WithRegisters(s, l.file);
    t.(a := t.a[reg := l.addr])
  }

  // `do_movem`; `ea` is the effective address of the modes other than (An)+ and -(An).
  function Moved(s: State, load: bool, mode: Field3, reg: Field3, long: bool, list: List, ea: U32): State {
    if !load && mode == 4 then MovedDown(s, reg, long, list)
    else if load && mode == 3 then MovedUp(s, reg, long, list)
    else if load then WithRegisters(s, LoadUp(s.ram, list, long, 0, Loaded(Registers(s), ea)).file)
    else
      var c := StoreUp(Registers(s), list, long, 0, Cursor(s.ram, if mode == 3 then s.a[reg] else ea));
      s.(ram := c.ram, a := if mode == 3 then s.a[reg := c.addr] else s.a)
  }

  // ------------------------------------------------------------ the layout

  function Reversed(list: List): (r: List)
    ensures forall i | 0 <= i < 16 :: r[i] == list[15 - i]
  {
    seq(16, i requires 0 <= i < 16 => list[15 - i])
  }

  // How many registers before r are in the list.
  function Before(list: List, r: nat): (n: nat)
    requires r <= 16
    ensures n <= r
  {
    if r == 0 then 0 else Before(list, r - 1) + if list[r - 1] then 1 else 0
  }

  // Where the register with `n` others below it is stored.
  function Place(base: U32, long: bool, n: int): U32 { Plus(base, n * Step(long)) }

  // The words of one register, and of all of them, are in sound RAM.
  predicate Fits(a: U32, long: bool) { InRam(a) && (long ==> InRam(Plus(a, 2))) }

  predicate BlockFits(base: U32, long: bool, list: List) {
    forall r | 0 <= r < 16 && list[r] :: Fits(Place(base, long, Before(list, r)), long)
  }

  // Two memories agree on one register's words.
  predicate SameSized(m: Ram, n: Ram, a: U32, long: bool) {
    SameWord(m, n, Slot(a)) && (long ==> SameWord(m, n, Slot(Plus(a, 2))))
  }

  predicate SameBlock(m: Ram, n: Ram, base: U32, long: bool, list: List) {
    forall r | 0 <= r < 16 && list[r] :: SameSized(m, n, Place(base, long, Before(list, r)), long)
  }

  // The registers of the list below register k, each in its place.
  predicate Holds(ram: Ram, f: File, base: U32, long: bool, list: List, k: nat)
    requires k <= 16
  {
    forall r | 0 <= r < k && list[r] :: ReadSized(ram, Place(base, long, Before(list, r)), long) == Kept(f[r], long)
  }

  lemma SlotsApart(a: U32, j: int, k: int)
    requires -40 <= j <= 40 && -40 <= k <= 40 && j != k
    ensures Slot(Plus(a, 2 * j)) != Slot(Plus(a, 2 * k))
  {
    hide Slot, Plus;
    var b := Plus(a, -80);
    PlusPlus(a, -80, 2 * (j + 40));
    PlusPlus(a, -80, 2 * (k + 40));
    WordsOn(b, j + 40);
    WordsOn(b, k + 40);
    WordsApart(Slot(b) as int / 2, j + 40, k + 40);
  }

  lemma WordsApart(h: nat, j: nat, k: nat)
    requires j <= 80 && k <= 80 && j != k
    ensures (h + j) % 0x4_0000 != (h + k) % 0x4_0000
  {
  }

  lemma SizedWriteThenRead(ram: Ram, a: U32, v: U32, long: bool)
    requires Fits(a, long)
    ensures ReadSized(WriteSized(ram, a, v, long), a, long) == Kept(v, long)
  {
    hide Slot, InRam, Read16, Write16;
    if long {
      var m := Write16(ram, a, v / 0x1_0000);
      var n := Write16(m, Plus(a, 2), v % 0x1_0000);
      FrameApart(a);
      WriteThenRead(ram, a, v / 0x1_0000, a);
      WriteElsewhere(m, Plus(a, 2), v % 0x1_0000, Slot(a));
      SameRead(n, m, a);
      WriteThenRead(m, Plus(a, 2), v % 0x1_0000, Plus(a, 2));
    } else {
      WriteThenRead(ram, a, v % 0x1_0000, a);
    }
  }

  lemma SizedSameRead(m: Ram, n: Ram, a: U32, long: bool)
    requires SameSized(m, n, a, long)
    ensures ReadSized(m, a, long) == ReadSized(n, a, long)
  {
    hide Slot, InRam, Read16;
    SameRead(m, n, a);
    if long {
      SameRead32(m, n, a);
    }
  }

  // A sized write elsewhere: j is at least one step away.
  lemma SizedWriteElsewhere(ram: Ram, base: U32, n: int, k: int, v: U32, long: bool)
    requires 0 <= n <= 16 && 0 <= k <= 16 && n != k
    ensures SameSized(WriteSized(ram, Place(base, long, k), v, long), ram, Place(base, long, n), long)
  {
    hide Slot, InRam, Write16, SameWord, Plus;
    var a, b := Place(base, long, n), Place(base, long, k);
    if long {
      PlusPlus(base, 4 * n, 2);
      PlusPlus(base, 4 * k, 2);
      SlotsApart(base, 2 * n, 2 * k);
      SlotsApart(base, 2 * n + 1, 2 * k);
      SlotsApart(base, 2 * n, 2 * k + 1);
      SlotsApart(base, 2 * n + 1, 2 * k + 1);
      var m := Write16(ram, b, v / 0x1_0000);
      forall o | o in {Slot(a), Slot(Plus(a, 2))}
        ensures SameWord(Write16(m, Plus(b, 2), v % 0x1_0000), ram, o)
      {
        WriteElsewhere(ram, b, v / 0x1_0000, o);
        WriteElsewhere(m, Plus(b, 2), v % 0x1_0000, o);
        SameWordTrans(Write16(m, Plus(b, 2), v % 0x1_0000), m, ram, o);
      }
    } else {
      SlotsApart(base, n, k);
      WriteElsewhere(ram, b, v % 0x1_0000, Slot(a));
    }
  }

  // ---------------------------------------------------------- stored, loaded

  lemma SizedTrans(l: Ram, m: Ram, n: Ram, a: U32, long: bool)
    requires SameSized(l, m, a, long) && SameSized(m, n, a, long)
    ensures SameSized(l, n, a, long) && SameSized(n, l, a, long)
  {
  }

  lemma PlaceStep(base: U32, long: bool, n: int)
    ensures Plus(Place(base, long, n + 1), -Step(long)) == Place(base, long, n)
    ensures Plus(Place(base, long, n), Step(long)) == Place(base, long, n + 1)
    ensures Place(base, long, 0) == base
  {
    hide Plus;
    PlusPlus(base, (n + 1) * Step(long), -Step(long));
    PlusPlus(base, n * Step(long), Step(long));
    PlusNothing(base);
  }

  lemma BeforeGrows(list: List, j: nat, k: nat)
    requires j < k <= 16
    ensures Before(list, j) + (if list[j] then 1 else 0) <= Before(list, k)
  {
    if j + 1 < k {
      BeforeGrows(list, j, k - 1);
    }
  }

  // Storing downwards ends at the block's base with every register in its
  // place, and touches nothing above where it started.
  lemma {:induction false} StoreDownHolds(f: File, list: List, long: bool, i: nat, c: Cursor, base: U32)
    requires i <= 16 && BlockFits(base, long, Reversed(list))
    requires c.addr == Place(base, long, Before(Reversed(list), 16 - i))
    ensures var r := StoreDown(f, list, long, i, c);
            && r.addr == base && Holds(r.ram, f, base, long, Reversed(list), 16 - i)
            && forall m | Before(Reversed(list), 16 - i) <= m <= 16 ::
                 SameSized(r.ram, c.ram, Place(base, long, m), long)
    decreases 16 - i, 1
  {
    hide SameSized, WriteSized, ReadSized, Place, Plus, Fits, Kept;
    PlaceStep(base, long, 0);
    if i == 16 {
      forall m | 0 <= m <= 16
        ensures SameSized(c.ram, c.ram, Place(base, long, m), long)
      {
        SizedRefl(c.ram, Place(base, long, m), long);
      }
    } else if !list[i] {
      StoreDownHolds(f, list, long, i + 1, c, base);
    } else {
      StoreOneDown(f, list, long, i, c, base);
    }
  }

  lemma SizedRefl(m: Ram, a: U32, long: bool)
    ensures SameSized(m, m, a, long)
  {
  }

  lemma {:induction false} StoreOneDown(f: File, list: List, long: bool, i: nat, c: Cursor, base: U32)
    requires i < 16 && list[i] && BlockFits(base, long, Reversed(list))
    requires c.addr == Place(base, long, Before(Reversed(list), 16 - i))
    ensures var r := StoreDown(f, list, long, i, c);
            && r.addr == base && Holds(r.ram, f, base, long, Reversed(list), 16 - i)
            && forall m | Before(Reversed(list), 16 - i) <= m <= 16 ::
                 SameSized(r.ram, c.ram, Place(base, long, m), long)
    decreases 16 - i, 0
  {
    hide SameSized, WriteSized, ReadSized, Place, Plus, Fits, Kept;
    var up := Reversed(list);
    var n := Before(up, 15 - i);
    var addr := Place(base, long, n);
    PlaceStep(base, long, n);
    var c' := Cursor(WriteSized(c.ram, addr, f[15 - i], long), addr);
    StoreDownHolds(f, list, long, i + 1, c', base);
    var r := StoreDown(f, list, long, i + 1, c');
    SizedWriteThenRead(c.ram, addr, f[15 - i], long);
    SizedSameRead(r.ram, c'.ram, addr, long);
    forall m | n + 1 <= m <= 16
      ensures SameSized(r.ram, c.ram, Place(base, long, m), long)
    {
      SizedWriteElsewhere(c.ram, base, m, n, f[15 - i], long);
      SizedTrans(r.ram, c'.ram, c.ram, Place(base, long, m), long);
    }
  }

  lemma {:induction false} LoadUpReads(ram: Ram, list: List, long: bool, i: nat, l: Loaded, base: U32)
    requires i <= 16 && l.addr == Place(base, long, Before(list, i))
    ensures var r := LoadUp(ram, list, long, i, l);
            && r.addr == Place(base, long, Before(list, 16))
            && forall k | 0 <= k < 16 :: r.file[k] ==
                 if k >= i && list[k] then ReadSized(ram, Place(base, long, Before(list, k)), long) else l.file[k]
    decreases 16 - i
  {
    hide ReadSized, Place, Plus;
    if i < 16 {
      if list[i] {
        PlaceStep(base, long, Before(list, i));
        var l' := Loaded(l.file[i := ReadSized(ram, l.addr, long)], Plus(l.addr, Step(long)));
        LoadUpReads(ram, list, long, i + 1, l', base);
      } else {
        LoadUpReads(ram, list, long, i + 1, l, base);
      }
    }
  }

  // Storing upwards likewise fills the places from register i on.
  lemma {:induction false} StoreUpHolds(f: File, list: List, long: bool, i: nat, c: Cursor, base: U32)
    requires i <= 16 && BlockFits(base, long, list) && c.addr == Place(base, long, Before(list, i))
    ensures var r := StoreUp(f, list, long, i, c);
            && (forall k | i <= k < 16 && list[k] ::
                  ReadSized(r.ram, Place(base, long, Before(list, k)), long) == Kept(f[k], long))
            && forall m | 0 <= m < Before(list, i) :: SameSized(r.ram, c.ram, Place(base, long, m), long)
    decreases 16 - i
  {
    hide SameSized, WriteSized, ReadSized, Place, Plus, Fits, Kept;
    if i == 16 {
      forall m | 0 <= m <= 16
        ensures SameSized(c.ram, c.ram, Place(base, long, m), long)
      {
        SizedRefl(c.ram, Place(base, long, m), long);
      }
    } else if !list[i] {
      StoreUpHolds(f, list, long, i + 1, c, base);
    } else {
      var n := Before(list, i);
      PlaceStep(base, long, n);
      var c' := Cursor(WriteSized(c.ram, c.addr, f[i], long), Plus(c.addr, Step(long)));
      StoreUpHolds(f, list, long, i + 1, c', base);
      var r := StoreUp(f, list, long, i + 1, c');
      SizedWriteThenRead(c.ram, c.addr, f[i], long);
      SizedSameRead(r.ram, c'.ram, c.addr, long);
      forall m | 0 <= m < n
        ensures SameSized(r.ram, c.ram, Place(base, long, m), long)
      {
        SizedWriteElsewhere(c.ram, base, m, n, f[i], long);
        SizedTrans(r.ram, c'.ram, c.ram, Place(base, long, m), long);
      }
    }
  }

  // MOVEM to -(An), anything that spares the block and leaves An, then MOVEM
  // from (An)+ with the list reversed: every register of the list comes back, a
  // long one whole and a word sign-extended, and An is what it was, whether or
  // not it is in the list. The other registers and memory stay.
  lemma MovemRoundTrip(s: State, reg: Field3, long: bool, list: List, t: State, ea: U32)
    requires var c := Moved(s, false, 4, reg, long, list, ea);
             && BlockFits(c.a[reg], long, Reversed(list)) && t.a[reg] == c.a[reg]
             && SameBlock(c.ram, t.ram, c.a[reg], long, Reversed(list))
    ensures var u := Moved(t, true, 3, reg, long, Reversed(list), ea);
            && u.a[reg] == s.a[reg] && u.ram == t.ram
            && forall k | 0 <= k < 16 && k != 8 + reg ::
                 Registers(u)[k] == if Reversed(list)[k] then Kept(Registers(s)[k], long) else Registers(t)[k]
  {
    hide SameSized, ReadSized, Plus, Fits, Kept, StoreDown, LoadUp, Place;
    var up, n := Reversed(list), Before(Reversed(list), 16);
    var c := MovedDown(s, reg, long, list);
    var base := StartOfBlock(s.a[reg], long, n);
    StoreDownHolds(Registers(s), list, long, 0, Cursor(s.ram, s.a[reg]), base) by {
      StoreDownEnds(Registers(s), list, long, 0, Cursor(s.ram, s.a[reg]), base);
    }
    PlaceStep(base, long, 0);
    LoadUpReads(t.ram, up, long, 0, Loaded(Registers(t), base), base);
    forall k | 0 <= k < 16 && up[k]
      ensures ReadSized(t.ram, Place(base, long, Before(up, k)), long) == Kept(Registers(s)[k], long)
    {
      SizedSameRead(c.ram, t.ram, Place(base, long, Before(up, k)), long);
    }
  }

  // The plain address form: a list stored upwards at `base` and loaded from there.
  lemma MovemBlockRoundTrip(f: File, g: File, list: List, long: bool, base: U32, ram: Ram, ram': Ram)
    requires BlockFits(base, long, list)
    requires SameBlock(StoreUp(f, list, long, 0, Cursor(ram, base)).ram, ram', base, long, list)
    ensures var r := LoadUp(ram', list, long, 0, Loaded(g, base)).file;
            forall k | 0 <= k < 16 :: r[k] == if list[k] then Kept(f[k], long) else g[k]
  {
    hide SameSized, ReadSized, Plus, Fits, Kept, StoreUp, LoadUp, Place;
    PlaceStep(base, long, 0);
    StoreUpHolds(f, list, long, 0, Cursor(ram, base), base);
    LoadUpReads(ram', list, long, 0, Loaded(g, base), base);
    var m := StoreUp(f, list, long, 0, Cursor(ram, base)).ram;
    forall k | 0 <= k < 16 && list[k]
      ensures ReadSized(ram', Place(base, long, Before(list, k)), long) == Kept(f[k], long)
    {
      SizedSameRead(m, ram', Place(base, long, Before(list, k)), long);
    }
  }

  // Where a block that ends at `top` starts.
  lemma StartOfBlock(top: U32, long: bool, n: int) returns (base: U32)
    ensures Place(base, long, n) == top
  {
    base := Plus(top, 0 - n * Step(long));
    PlusPlus(top, 0 - n * Step(long), n * Step(long));
    PlusNothing(top);
  }

  // The address storing downwards ends at, whatever the memory.
  lemma {:induction false} StoreDownEnds(f: File, list: List, long: bool, i: nat, c: Cursor, base: U32)
    requires i <= 16 && c.addr == Place(base, long, Before(Reversed(list), 16 - i))
    ensures StoreDown(f, list, long, i, c).addr == base
    decreases 16 - i
  {
    hide WriteSized, Place, Plus;
    PlaceStep(base, long, 0);
    if i < 16 {
      if list[i] {
        PlaceStep(base, long, Before(Reversed(list), 15 - i));
        var addr := Plus(c.addr, -Step(long));
        StoreDownEnds(f, list, long, i + 1, Cursor(WriteSized(c.ram, addr, f[15 - i], long), addr), base);
      } else {
        StoreDownEnds(f, list, long, i + 1, c, base);
      }
    }
  }

  // A word comes back as the same signed number.
  lemma WordKeepsItsSign(v: U32)
    ensures var w, r: int := v % 0x1_0000, Kept(v, false);
            (if r >= 0x8000_0000 then r - 0x1_0000_0000 else r) == if w >= 0x8000 then w - 0x1_0000 else w
    ensures Kept(v, true) == v
  {
  }

  // Where a register list is kept: each register in turn from the lowest address
  // on, D0 to D7 before A0 to A7, in steps of four or two bytes. Storing downwards
  // leaves An at that address.
  lemma MovemLayout(s: State, reg: Field3, long: bool, list: List, ea: U32, r: nat)
    requires r < 16 && list[r] && BlockFits(ea, long, list)
    ensures var c := Moved(s, false, 2, reg, long, list, ea);
            ReadSized(c.ram, Plus(ea, Before(list, r) * if long then 4 else 2), long) ==
            Kept(if r < 8 then s.d[r] else s.a[r - 8], long)
  {
    hide SameSized, ReadSized, Plus, Fits, Kept, StoreUp;
    PlaceStep(ea, long, 0);
    StoreUpHolds(Registers(s), list, long, 0, Cursor(s.ram, ea), ea);
    assert Registers(s)[r] == if r < 8 then s.d[r] else s.a[r - 8];
  }

  lemma MovemDownLayout(s: State, reg: Field3, long: bool, list: List, ea: U32, r: nat)
    requires r < 16 && list[15 - r] && BlockFits(Moved(s, false, 4, reg, long, list, ea).a[reg], long, Reversed(list))
    ensures var c := Moved(s, false, 4, reg, long, list, ea);
            ReadSized(c.ram, Plus(c.a[reg], Before(Reversed(list), r) * if long then 4 else 2), long) ==
            Kept(if r < 8 then s.d[r] else s.a[r - 8], long)
  {
    hide SameSized, ReadSized, Plus, Fits, Kept, StoreDown;
    var n := Before(Reversed(list), 16);
    var base := StartOfBlock(s.a[reg], long, n);
    StoreDownEnds(Registers(s), list, long, 0, Cursor(s.ram, s.a[reg]), base);
    StoreDownHolds(Registers(s), list, long, 0, Cursor(s.ram, s.a[reg]), base);
    assert Registers(s)[r] == if r < 8 then s.d[r] else s.a[r - 8];
  }

  // The plain address form, as the instruction runs it.
  lemma MovemPlainRoundTrip(s: State, reg: Field3, long: bool, list: List, ea: U32, t: State)
    requires BlockFits(ea, long, list)
    requires SameBlock(Moved(s, false, 2, reg, long, list, ea).ram, t.ram, ea, long, list)
    ensures var u := Moved(t, true, 2, reg, long, list, ea);
            u.ram == t.ram && forall k | 0 <= k < 16 ::
              Registers(u)[k] == if list[k] then Kept(Registers(s)[k], long) else Registers(t)[k]
  {
    hide SameSized, ReadSized, Plus, Fits, Kept, StoreUp, LoadUp, Place;
    MovemBlockRoundTrip(Registers(s), Registers(t), list, long, ea, s.ram, t.ram);
  }
}
