// Packed decimal arithmetic on numbers in sound RAM: ABCD and SBCD with
// predecrement, byte by byte from the low end.
module M68kPacked {
  import opened M68kAlu
  import opened M68kDecimal
  import opened M68kState
  import opened Multiples
  import opened Words

  function DecimalStep(f: Flags, s: U8, d: U8, subtract: bool): (o: Result)
    ensures o.r < 256
  {
    if subtract then DecimalDifference(f, s, d) else DecimalSum(f, s, d)
  }

  function Stepped(s: State, r: Field3): State { s.(a := s.a[r := Plus(s.a[r], -1)]) }

  // ABCD and SBCD -(Ay),-(Ax)
  function DecimalMemory(s: State, src: Field3, dst: Field3, subtract: bool): State {
    var s1 := Stepped(s, src);
    var s2 := Stepped(s1, dst);
    var o := DecimalStep(s.sr.f, Read8(s.ram, s1.a[src]), Read8(s.ram, s2.a[dst]), subtract);
    s2.(sr := s.sr.(f := o.f), ram := Write8(s.ram, s2.a[dst], o.r))
  }

  // A register with its low byte replaced.
  function WithLow(v: U32, b: U8): (r: U32) {
    v / 0x100 * 0x100 + b
  }

  // ABCD and SBCD Dy,Dx
  function DecimalRegisters(s: State, src: Field3, dst: Field3, subtract: bool): State {
    var o := DecimalStep(s.sr.f, s.d[src] as int % 0x100, s.d[dst] as int % 0x100, subtract);
    s.(sr := s.sr.(f := o.f), d := s.d[dst := WithLow(s.d[dst], o.r)])
  }

  function DecimalDone(s: State, memory: bool, src: Field3, dst: Field3, subtract: bool): State {
    if memory then DecimalMemory(s, src, dst, subtract) else DecimalRegisters(s, src, dst, subtract)
  }

  function DecimalRun(s: State, src: Field3, dst: Field3, subtract: bool, n: nat): State {
    if n == 0 then s else DecimalMemory(DecimalRun(s, src, dst, subtract, n - 1), src, dst, subtract)
  }

  // The i-th byte below an address.
  function Place(at: U32, i: nat): U32 { Plus(at, -1 - i) }

  // The n bytes below an address, the nearest first.
  function Below(ram: Ram, at: U32, n: nat): (r: seq<nat>)
    ensures |r| == n && Bytes(r)
    decreases n
  {
    if n == 0 then [] else Below(ram, at, n - 1) + [Read8(ram, Place(at, n - 1))]
  }

  lemma {:induction false} BelowAt(ram: Ram, at: U32, n: nat, k: nat)
    requires k < n
    ensures Below(ram, at, n)[k] == Read8(ram, Place(at, k)) && Below(ram, at, n)[..k] == Below(ram, at, k)
  {
    hide Place, Read8;
    if k < n - 1 {
      BelowAt(ram, at, n - 1, k);
      assert Below(ram, at, n)[..k] == Below(ram, at, n - 1)[..k];
    } else {
      assert Below(ram, at, n)[..k] == Below(ram, at, n - 1);
    }
  }

  lemma {:induction false} SameBelow(m: Ram, r: Ram, at: U32, n: nat)
    requires forall j | 0 <= j < n :: Read8(m, Place(at, j)) == Read8(r, Place(at, j))
    ensures Below(m, at, n) == Below(r, at, n)
    decreases n
  {
    hide Place, Read8;
    if n > 0 {
      SameBelow(m, r, at, n - 1);
      assert Read8(m, Place(at, n - 1)) == Read8(r, Place(at, n - 1));
    }
  }

  function Chain(a: seq<nat>, b: seq<nat>, subtract: bool): (o: Chained)
    requires |a| == |b| && Bytes(a) && Bytes(b)
    ensures |o.digits| == |a| && Bytes(o.digits)
  {
    if subtract then SbcdChain(a, b) else AbcdChain(a, b)
  }

  lemma ChainStep(a: seq<nat>, b: seq<nat>, subtract: bool, n: nat, f: Flags)
    requires |a| == |b| == n + 1 && Bytes(a) && Bytes(b)
    requires var low := Chain(a[..n], b[..n], subtract).f; f.x == low.x && f.z == low.z
    ensures var o, low, all := DecimalStep(f, a[n], b[n], subtract), Chain(a[..n], b[..n], subtract),
                               Chain(a, b, subtract);
            && all.digits == low.digits + [o.r]
            && all.f.x == o.f.x && all.f.c == o.f.c && all.f.z == o.f.z
  {
    hide Merge;
  }

  // The result is in RAM, does not fold onto itself and overwrites no byte of
  // the source that is still to come.
  ghost predicate Apart(src: U32, dst: U32, n: nat) {
    && (forall j | 0 <= j < n :: ByteInRam(Place(dst, j)))
    && (forall j, k | 0 <= j < k < n :: ByteSlot(Place(dst, j)) != ByteSlot(Place(dst, k)))
    && (forall j, k | 0 <= j < k < n && ByteInRam(Place(src, k)) :: ByteSlot(Place(dst, j)) != ByteSlot(Place(src, k)))
  }

  // A byte of RAM below an address.
  ghost predicate Covered(at: U32, n: nat, o: nat) { exists j | 0 <= j < n :: ByteSlot(Place(at, j)) == o }

  ghost predicate SameOutside(m: Ram, r: Ram, at: U32, n: nat) {
    forall o | 0 <= o < RAM_BYTES && !Covered(at, n, o) :: r[o] == m[o]
  }

  lemma ReadOutside(m: Ram, r: Ram, at: U32, n: nat, x: U32)
    requires SameOutside(m, r, at, n)
    requires ByteInRam(x) ==> forall j | 0 <= j < n :: ByteSlot(Place(at, j)) != ByteSlot(x)
    ensures Read8(r, x) == Read8(m, x)
  {
    hide Place, ByteSlot;
    assert ByteInRam(x) ==> !Covered(at, n, ByteSlot(x));
  }

  // One more byte of the result is written.
  lemma WriteNext(m: Ram, r: Ram, at: U32, n: nat, v: U8)
    requires SameOutside(m, r, at, n) && forall j | 0 <= j <= n :: ByteInRam(Place(at, j))
    requires forall j | 0 <= j < n :: ByteSlot(Place(at, j)) != ByteSlot(Place(at, n))
    ensures var q := Write8(r, Place(at, n), v);
            SameOutside(m, q, at, n + 1) && Below(q, at, n + 1) == Below(r, at, n) + [v as nat]
  {
    hide Place, ByteSlot, ByteInRam;
    var q := Write8(r, Place(at, n), v);
    forall o | 0 <= o < RAM_BYTES && !Covered(at, n + 1, o)
      ensures q[o] == m[o]
    {
      assert ByteSlot(Place(at, n)) != o && !Covered(at, n, o);
    }
    SameBelow(q, r, at, n);
  }

  // k bytes below an address.
  function Back(a: U32, k: nat): U32 { Wrap(a as int - k) }

  lemma BackOne(a: U32, k: nat)
    ensures Plus(Back(a, k), -1) == Place(a, k) == Back(a, k + 1) && Back(a, 0) == a
  {
  }

  // What the first k steps leave: k bytes of the result, the carry on its way,
  // and the rest of the memory.
  ghost predicate Halfway(s: State, r: State, src: Field3, dst: Field3, subtract: bool, k: nat) {
    var c := Chain(Below(s.ram, s.a[src], k), Below(s.ram, s.a[dst], k), subtract);
    && r == s.(a := s.a[src := Back(s.a[src], k)][dst := Back(s.a[dst], k)], sr := r.sr, ram := r.ram)
    && r.sr == s.sr.(f := r.sr.f) && r.sr.f.x == c.f.x && r.sr.f.z == c.f.z && (k > 0 ==> r.sr.f.c == c.f.c)
    && Below(r.ram, s.a[dst], k) == c.digits && SameOutside(s.ram, r.ram, s.a[dst], k)
  }

  // The memory form, n times over, is the chain over the n bytes below the two
  // addresses; nothing else in memory changes.
  lemma {:induction false} DecimalRunIsChain(s: State, src: Field3, dst: Field3, subtract: bool, n: nat)
    requires src != dst && Apart(s.a[src], s.a[dst], n) && !s.sr.f.x && s.sr.f.z
    ensures Halfway(s, DecimalRun(s, src, dst, subtract, n), src, dst, subtract, n)
    decreases n
  {
    hide Place, ByteSlot, ByteInRam, Halfway, DecimalMemory;
    if n > 0 {
      DecimalRunIsChain(s, src, dst, subtract, n - 1);
      HalfwayNext(s, DecimalRun(s, src, dst, subtract, n - 1), src, dst, subtract, n - 1);
    } else {
      HalfwayStart(s, src, dst, subtract);
    }
  }

  lemma HalfwayStart(s: State, src: Field3, dst: Field3, subtract: bool)
    requires !s.sr.f.x && s.sr.f.z
    ensures Halfway(s, s, src, dst, subtract, 0)
  {
    hide Back;
    BackOne(s.a[src], 0);
    BackOne(s.a[dst], 0);
  }

  // One step from the k-th place on.
  lemma StepAt(s: State, r: State, src: Field3, dst: Field3, subtract: bool, k: nat)
    requires src != dst
    requires r == s.(a := s.a[src := Back(s.a[src], k)][dst := Back(s.a[dst], k)], sr := r.sr, ram := r.ram)
    ensures var to := Place(s.a[dst], k);
            var o := DecimalStep(r.sr.f, Read8(r.ram, Place(s.a[src], k)), Read8(r.ram, to), subtract);
            DecimalMemory(r, src, dst, subtract) ==
            s.(a := s.a[src := Back(s.a[src], k + 1)][dst := Back(s.a[dst], k + 1)], sr := r.sr.(f := o.f),
               ram := Write8(r.ram, to, o.r))
  {
    hide DecimalStep, Place, Plus, Back, Read8, Write8;
    BackOne(s.a[src], k);
    BackOne(s.a[dst], k);
    var q := DecimalMemory(r, src, dst, subtract);
    assert q.a == s.a[src := Back(s.a[src], k + 1)][dst := Back(s.a[dst], k + 1)];
  }

  lemma HalfwayNext(s: State, r: State, src: Field3, dst: Field3, subtract: bool, k: nat)
    requires src != dst && Apart(s.a[src], s.a[dst], k + 1) && Halfway(s, r, src, dst, subtract, k)
    ensures Halfway(s, DecimalMemory(r, src, dst, subtract), src, dst, subtract, k + 1)
  {
    hide DecimalMemory, DecimalStep, ByteSlot, ByteInRam, Chain, Place, Back, Read8, Write8, SameOutside;
    var x, y := Below(s.ram, s.a[src], k + 1), Below(s.ram, s.a[dst], k + 1);
    StepAt(s, r, src, dst, subtract, k);
    ReadOutside(s.ram, r.ram, s.a[dst], k, Place(s.a[src], k));
    ReadOutside(s.ram, r.ram, s.a[dst], k, Place(s.a[dst], k));
    BelowAt(s.ram, s.a[src], k + 1, k);
    BelowAt(s.ram, s.a[dst], k + 1, k);
    hide Below;
    ChainStep(x, y, subtract, k, r.sr.f);
    WriteNext(s.ram, r.ram, s.a[dst], k, DecimalStep(r.sr.f, x[k], y[k], subtract).r);
  }

  // On packed decimal numbers of n bytes the memory form adds and subtracts
  // exactly, with the carry in X and Z set exactly for a zero result.
  lemma MemoryNumbersExact(s: State, src: Field3, dst: Field3, subtract: bool, n: nat)
    requires src != dst && Apart(s.a[src], s.a[dst], n) && !s.sr.f.x && s.sr.f.z
    requires AllDecimal(Below(s.ram, s.a[src], n)) && AllDecimal(Below(s.ram, s.a[dst], n))
    ensures var x, y := Below(s.ram, s.a[src], n), Below(s.ram, s.a[dst], n);
            var r := DecimalRun(s, src, dst, subtract, n);
            var z, carry := Below(r.ram, s.a[dst], n), Times(Bit(r.sr.f.x), Pow(100, n));
            && AllDecimal(z) && (r.sr.f.z <==> Decimal(z) == 0)
            && if subtract then Decimal(y) - Decimal(x) == Decimal(z) - carry
               else Decimal(x) + Decimal(y) == Decimal(z) + carry
  {
    hide Below, DecimalRun, Decimal, AbcdChain, SbcdChain, Apart, SameOutside;
    var x, y := Below(s.ram, s.a[src], n), Below(s.ram, s.a[dst], n);
    DecimalRunIsChain(s, src, dst, subtract, n);
    if subtract {
      SbcdChainExact(x, y);
    } else {
      AbcdChainExact(x, y);
    }
  }

  // The register form: the low bytes are added or subtracted, and nothing else of
  // any register changes.
  lemma RegisterDigitsExact(s: State, src: Field3, dst: Field3, subtract: bool)
    ensures var r := DecimalDone(s, false, src, dst, subtract);
            var x, y, z := s.d[src] as int % 256, s.d[dst] as int % 256, r.d[dst] as int % 256;
            && r.d[dst] / 256 == s.d[dst] / 256 && r == s.(d := s.d[dst := r.d[dst]], sr := s.sr.(f := r.sr.f))
            && (IsDecimal(x) && IsDecimal(y) ==> DigitsExact(s.sr.f, x, y, subtract, Result(z, r.sr.f)))
  {
    var x, y := s.d[src] as int % 256, s.d[dst] as int % 256;
    var o := DecimalStep(s.sr.f, x, y, subtract);
    LowByteOf(s.d[dst], o.r);
    if IsDecimal(x) && IsDecimal(y) {
      StepIsExact(s.sr.f, x, y, subtract);
    }
    hide DecimalStep, WithLow, DigitsExact, IsDecimal;
  }

  // One digit pair from another, or to it, with the borrow or carry in and out.
  predicate DigitsExact(f: Flags, x: nat, y: nat, subtract: bool, o: Result) {
    && IsDecimal(o.r) && (o.f.z <==> f.z && o.r == 0) && o.f.c == o.f.x
    && if subtract then Reading(y) - Reading(x) - Bit(f.x) == Reading(o.r) - if o.f.x then 100 else 0
       else Reading(y) + Reading(x) + Bit(f.x) == Reading(o.r) + if o.f.x then 100 else 0
  }

  lemma StepIsExact(f: Flags, x: U8, y: U8, subtract: bool)
    requires IsDecimal(x) && IsDecimal(y)
    ensures DigitsExact(f, x, y, subtract, DecimalStep(f, x, y, subtract))
  {
    DigitsOfSum(f, x, y);
    DigitsOfDifference(f, x, y);
    hide DecimalSum, DecimalDifference, Reading, IsDecimal;
  }

  lemma LowByteOf(v: U32, b: U8)
    ensures WithLow(v, b) / 256 == v / 256 && WithLow(v, b) as int % 256 == b as int
  {
  }
}
