// Interrupts, exceptions and their returns nest: each handler that leaves the
// frames below it and the stack as it found them gives back the machine.
module M68kNest {
  import opened M68kState
  import opened Words

  // What makes a handler run.
  datatype Cause = Interrupt(level: Field3, vector: int) | Exception(number: U32)

  // `Work` is any stretch of code, given by the state it leaves. `Handled` is a
  // handler with its return, `rest` what the interrupted code does next.
  datatype Trace = Done | Work(next: State, rest: Trace) | Handled(cause: Cause, handler: Trace, rest: Trace)

  predicate Taken(s: State, c: Cause) {
    match c
    case Interrupt(level, vector) => Accepts(s.(irqLevel := level, irqVector := vector))
    case Exception(_) => !s.inException
  }

  function Start(s: State, c: Cause): State {
    match c
    case Interrupt(level, vector) => IrqChecked(s.(irqLevel := level, irqVector := vector))
    case Exception(vector) => Raised(s, vector)
  }

  function Run(s: State, t: Trace): State
    decreases t
  {
    match t
    case Done => s
    case Work(next, rest) => Run(next, rest)
    case Handled(c, handler, rest) =>
      if !Taken(s, c) then Run(s, rest) else Run(Returned(Run(Start(s, c), handler)), rest)
  }

  // The three words of a frame at stack pointer a: status, then the address.
  function FrameSlots(a: U32): set<WordSlot> { {Slot(a), Slot(Plus(a, 2)), Slot(Plus(a, 4))} }

  predicate FrameFits(a: U32) { InRam(a) && InRam(Plus(a, 2)) && InRam(Plus(a, 4)) }

  ghost predicate Intact(m: Ram, n: Ram, guard: set<WordSlot>)
  {
    forall o | o in guard :: SameWord(m, n, o)
  }

  // Every handler of the trace has room for its frame, leaves the frames of
  // `guard` and its own alone, and returns with the stacks it was given.
  ghost predicate Nests(s: State, t: Trace, guard: set<WordSlot>)
    decreases t
  {
    match t
    case Done => true
    case Work(next, rest) => Intact(s.ram, next.ram, guard) && Nests(next, rest, guard)
    case Handled(c, handler, rest) =>
      if !Taken(s, c) then Nests(s, rest, guard)
      else
        var e := Start(s, c);
        var r := Run(e, handler);
        && FrameFits(e.a[7]) && FrameSlots(e.a[7]) !! guard
        && Nests(e, handler, guard + FrameSlots(e.a[7]))
        && r.sr.super && r.a[7] == e.a[7] && r.usp == e.usp
        && Nests(Returned(r), rest, guard)
  }

  // --------------------------------------------------------- one handler

  lemma SlotIs(a: U32)
    ensures Slot(a) == a as int / 2 % 0x4_0000 * 2
  {
  }

  lemma HalfOn(b: U32, n: nat)
    requires n <= 80
    ensures var h := b as int / 2 + n; Plus(b, 2 * n) as int / 2 == if h < 0x8000_0000 then h else h - 0x8000_0000
  {
  }

  lemma ModOn(h: nat, n: nat)
    ensures (h + n) % 0x4_0000 == (h % 0x4_0000 + n) % 0x4_0000
    ensures h + n >= 0x8000_0000 ==> (h + n - 0x8000_0000) % 0x4_0000 == (h % 0x4_0000 + n) % 0x4_0000
  {
  }

  // The slot n words on from an address.
  lemma WordsOn(b: U32, n: nat)
    requires n <= 80
    ensures Slot(Plus(b, 2 * n)) == (Slot(b) as int / 2 + n) % 0x4_0000 * 2
  {
    hide Slot, Plus;
    SlotIs(b);
    SlotIs(Plus(b, 2 * n));
    HalfOn(b, n);
    ModOn(b as int / 2, n);
  }

  lemma FrameApart(a: U32)
    ensures Slot(a) != Slot(Plus(a, 2)) && Slot(a) != Slot(Plus(a, 4)) && Slot(Plus(a, 2)) != Slot(Plus(a, 4))
  {
    hide Slot;
    WordsOn(a, 1);
    WordsOn(a, 2);
  }

  lemma PlusPlus(a: int, j: int, k: int)
    ensures Plus(Plus(a, j), k) == Plus(a, j + k)
  {
  }

  lemma PlusNothing(a: U32)
    ensures Plus(a, 0) == a
  {
  }

  // What entering a handler leaves on its stack.
  lemma EntryFrame(s: State, mask: Field3, vector: U32)
    requires FrameFits(Entered(s, mask, vector).a[7])
    ensures var e := Entered(s, mask, vector);
            && Read16(e.ram, e.a[7]) == SrWord(s.sr) && Read32(e.ram, Plus(e.a[7], 2)) == s.pc
            && e.sr.super && e.a[7] == Plus(if s.sr.super then s.a[7] else s.ssp, -6)
            && e.usp == (if s.sr.super then s.usp else s.a[7])
    ensures forall o: WordSlot | o !in FrameSlots(Entered(s, mask, vector).a[7]) ::
              SameWord(Entered(s, mask, vector).ram, s.ram, o)
  {
    hide Slot, InRam, SrWord;
    var e := Entered(s, mask, vector);
    var sp := if s.sr.super then s.a[7] else s.ssp;
    var a := e.a[7];
    PlusPlus(sp, -4, -2);
    PlusPlus(sp, -6, 2);
    PlusPlus(sp, -6, 4);
    PlusPlus(sp, -4, 2);
    FrameApart(a);
    WrittenFrame(s.ram, a, s.pc, SrWord(s.sr));
  }

  // Three words written downwards and read back.
  lemma WrittenFrame(ram: Ram, a: U32, pc: U32, w: U16)
    requires FrameFits(a)
    ensures var m := Write16(Write32(ram, Plus(a, 2), pc), a, w);
            && Read16(m, a) == w && Read32(m, Plus(a, 2)) == pc
            && forall o: WordSlot | o !in FrameSlots(a) :: SameWord(m, ram, o)
  {
    hide Slot, InRam, Read16, Write16;
    PlusPlus(a, 2, 2);
    FrameApart(a);
    var b, c := Plus(a, 2), Plus(a, 4);
    var m1 := Write16(ram, b, pc / 0x1_0000);
    var m2 := Write16(m1, c, pc % 0x1_0000);
    var m3 := Write16(m2, a, w);
    WriteThenRead(ram, b, pc / 0x1_0000, b);
    WriteThenRead(m1, c, pc % 0x1_0000, c);
    WriteThenRead(m2, a, w, a);
    WriteElsewhere(m1, c, pc % 0x1_0000, Slot(b));
    WriteElsewhere(m2, a, w, Slot(b));
    WriteElsewhere(m2, a, w, Slot(c));
    SameRead(m2, m1, b);
    SameRead(m3, m2, b);
    SameRead(m3, m2, c);
    forall o: WordSlot | o !in FrameSlots(a)
      ensures SameWord(m3, ram, o)
    {
      WriteElsewhere(ram, b, pc / 0x1_0000, o);
      WriteElsewhere(m1, c, pc % 0x1_0000, o);
      WriteElsewhere(m2, a, w, o);
    }
  }

  // A return undoes an entry, whatever the handler did to everything else.
  lemma ReturnUndoesEntry(s: State, mask: Field3, vector: U32, r: State)
    requires var e := Entered(s, mask, vector);
             && FrameFits(e.a[7]) && Intact(e.ram, r.ram, FrameSlots(e.a[7]))
             && r.sr.super && r.a[7] == e.a[7] && r.usp == e.usp
    ensures var b := Returned(r);
            && b.pc == s.pc && b.sr == s.sr && b.a[7] == s.a[7] && Inactive(b) == Inactive(s) && b.ram == r.ram
  {
    hide Slot, InRam, SrWord, SrOf, Read16, Read32, Entered, Plus;
    var e := Entered(s, mask, vector);
    EntryFrame(s, mask, vector);
    SrRoundTrip(s.sr);
    var sp := if s.sr.super then s.a[7] else s.ssp;
    PlusPlus(sp, -6, 2);
    PlusPlus(sp, -4, 4);
    PlusNothing(sp);
    SameRead(e.ram, r.ram, e.a[7]);
    SameRead32(e.ram, r.ram, Plus(e.a[7], 2)) by {
      PlusPlus(e.a[7], 2, 2);
    }
  }

  lemma SameRead32(m: Ram, n: Ram, a: U32)
    requires SameWord(m, n, Slot(a)) && SameWord(m, n, Slot(Plus(a, 2)))
    ensures Read32(m, a) == Read32(n, a)
  {
    hide Slot, InRam, Read16, Plus;
    SameRead(m, n, a);
    SameRead(m, n, Plus(a, 2));
  }

  // ------------------------------------------------------------ whole runs

  // What a return has to give back.
  predicate SameContext(s: State, b: State) {
    b.pc == s.pc && b.sr == s.sr && b.a[7] == s.a[7] && Inactive(b) == Inactive(s)
  }

  predicate SameStacks(s: State, b: State) {
    b.sr.super == s.sr.super && b.a[7] == s.a[7] && Inactive(b) == Inactive(s)
  }

  // Either cause enters its handler from the same context.
  lemma StartEnters(s: State, c: Cause) returns (s0: State, mask: Field3, vector: U32)
    requires Taken(s, c)
    ensures SameContext(s, s0) && s0.ram == s.ram
    ensures var e, e0 := Start(s, c), Entered(s0, mask, vector);
            e.a == e0.a && e.usp == e0.usp && e.ram == e0.ram && e.sr.super && e0.sr.super
  {
    hide SrWord, Read32, Write32, Write16;
    match c
    case Interrupt(level, v) =>
      s0 := s.(irqLevel := level, irqVector := v);
      mask, vector := level, VectorOf(s0);
    case Exception(number) =>
      s0, mask, vector := s, s.sr.mask, number;
  }

  // A handler that keeps to its frame gives back the interrupted context: the
  // program counter, the status register and both stack pointers, in either mode.
  lemma HandlerReturns(s: State, c: Cause, r: State, guard: set<WordSlot>)
    requires Taken(s, c)
    requires var e := Start(s, c);
             && FrameFits(e.a[7]) && FrameSlots(e.a[7]) !! guard
             && Intact(e.ram, r.ram, guard + FrameSlots(e.a[7]))
             && r.sr.super && r.a[7] == e.a[7] && r.usp == e.usp
    ensures SameContext(s, Returned(r)) && Intact(s.ram, Returned(r).ram, guard)
  {
    hide Slot, InRam, FrameSlots, SameWord, Entered, Start, Returned, FrameFits;
    var s0, mask, vector := StartEnters(s, c);
    EntryFrame(s0, mask, vector);
    ReturnUndoesEntry(s0, mask, vector, r);
    forall o | o in guard
      ensures SameWord(s.ram, Returned(r).ram, o)
    {
      SameWordTrans(s.ram, Start(s, c).ram, r.ram, o);
    }
  }

  lemma SameWordTrans(l: Ram, m: Ram, n: Ram, o: WordSlot)
    ensures SameWord(m, l, o) && SameWord(m, n, o) ==> SameWord(l, n, o)
    ensures SameWord(l, m, o) && SameWord(m, n, o) ==> SameWord(l, n, o)
  {
  }

  lemma IntactTrans(l: Ram, m: Ram, n: Ram, guard: set<WordSlot>)
    requires Intact(l, m, guard) && Intact(m, n, guard)
    ensures Intact(l, n, guard)
  {
  }

  // However deep the nesting, the frames below stay intact.
  lemma {:induction false} RunKeepsFrames(s: State, t: Trace, guard: set<WordSlot>)
    requires Nests(s, t, guard)
    ensures Intact(s.ram, Run(s, t).ram, guard)
    decreases t
  {
    hide Slot, InRam, FrameSlots, SameWord, Start, Returned, FrameFits, Taken, Intact;
    match t
    case Done => IntactSame(s.ram, guard);
    case Work(next, rest) =>
      RunKeepsFrames(next, rest, guard);
      IntactTrans(s.ram, next.ram, Run(next, rest).ram, guard);
    case Handled(c, handler, rest) =>
      if !Taken(s, c) {
        RunKeepsFrames(s, rest, guard);
      } else {
        var e := Start(s, c);
        var r := Run(e, handler);
        RunKeepsFrames(e, handler, guard + FrameSlots(e.a[7]));
        HandlerReturns(s, c, r, guard);
        RunKeepsFrames(Returned(r), rest, guard);
        IntactTrans(s.ram, Returned(r).ram, Run(s, t).ram, guard);
      }
  }

  lemma IntactSame(m: Ram, guard: set<WordSlot>)
    ensures Intact(m, m, guard)
  {
  }

  // Every accepted interrupt or exception of a properly nested run comes back to
  // the context it left.
  lemma NestedHandlerRestores(s: State, c: Cause, handler: Trace, rest: Trace, guard: set<WordSlot>)
    requires Nests(s, Handled(c, handler, rest), guard) && Taken(s, c)
    ensures var b := Returned(Run(Start(s, c), handler));
            SameContext(s, b) && Intact(s.ram, b.ram, guard) && Run(s, Handled(c, handler, rest)) == Run(b, rest)
  {
    hide Slot, InRam, FrameSlots, SameWord, Start, Returned, FrameFits, Taken, Intact;
    var e := Start(s, c);
    RunKeepsFrames(e, handler, guard + FrameSlots(e.a[7]));
    HandlerReturns(s, c, Run(e, handler), guard);
  }

  // Stretches of code that put the stacks back and spare the frames, with room
  // for every frame: nothing is asked of the handlers' returns.
  ghost predicate Tidy(s: State, t: Trace, guard: set<WordSlot>)
    decreases t
  {
    match t
    case Done => true
    case Work(next, rest) => SameStacks(s, next) && Intact(s.ram, next.ram, guard) && Tidy(next, rest, guard)
    case Handled(c, handler, rest) =>
      if !Taken(s, c) then Tidy(s, rest, guard)
      else
        var e := Start(s, c);
        && FrameFits(e.a[7]) && FrameSlots(e.a[7]) !! guard
        && Tidy(e, handler, guard + FrameSlots(e.a[7])) && Tidy(Returned(Run(e, handler)), rest, guard)
  }

  lemma {:induction false} TidyNests(s: State, t: Trace, guard: set<WordSlot>)
    requires Tidy(s, t, guard)
    ensures Nests(s, t, guard) && SameStacks(s, Run(s, t))
    decreases t
  {
    hide Slot, InRam, FrameSlots, SameWord, Start, Returned, FrameFits, Taken, Intact;
    match t
    case Done =>
    case Work(next, rest) => TidyNests(next, rest, guard);
    case Handled(c, handler, rest) =>
      if !Taken(s, c) {
        TidyNests(s, rest, guard);
      } else {
        var e := Start(s, c);
        var r := Run(e, handler);
        TidyNests(e, handler, guard + FrameSlots(e.a[7]));
        RunKeepsFrames(e, handler, guard + FrameSlots(e.a[7]));
        StartIsSuper(s, c);
        HandlerReturns(s, c, r, guard);
        TidyNests(Returned(r), rest, guard);
      }
  }

  lemma StartIsSuper(s: State, c: Cause)
    requires Taken(s, c)
    ensures Start(s, c).sr.super
  {
    hide Entered;
    var s0, mask, vector := StartEnters(s, c);
  }

  predicate OnlyHandlers(t: Trace) {
    t.Done? || (t.Handled? && OnlyHandlers(t.handler) && OnlyHandlers(t.rest))
  }

  // Nothing but interrupts, exceptions and returns, nested any way: the machine
  // ends where it began.
  lemma {:induction false} NestingIsTransparent(s: State, t: Trace, guard: set<WordSlot>)
    requires Tidy(s, t, guard) && OnlyHandlers(t)
    ensures SameContext(s, Run(s, t)) && Intact(s.ram, Run(s, t).ram, guard)
    decreases t
  {
    hide Slot, InRam, FrameSlots, SameWord, Start, Returned, FrameFits, Taken, Intact;
    TidyNests(s, t, guard);
    RunKeepsFrames(s, t, guard);
    if t.Handled? {
      if !Taken(s, t.cause) {
        NestingIsTransparent(s, t.rest, guard);
      } else {
        NestedHandlerRestores(s, t.cause, t.handler, t.rest, guard);
        NestingIsTransparent(Returned(Run(Start(s, t.cause), t.handler)), t.rest, guard);
      }
    }
  }

  // -------------------------------------------------------- where it starts

  // The two words of a table entry are not among those of the frame.
  predicate TableApart(sp: U32, entry: U32) {
    Slot(entry) !in FrameSlots(Plus(sp, -6)) && Slot(Plus(entry, 2)) !in FrameSlots(Plus(sp, -6))
  }

  // The stack pointer a handler's frame goes below.
  function HandlerStack(s: State): U32 { if s.sr.super then s.a[7] else s.ssp }

  lemma EntryStarts(s: State, mask: Field3, vector: U32)
    requires vector < 0x4000_0000 && TableApart(HandlerStack(s), 4 * vector)
    ensures var e := Entered(s, mask, vector);
            && e.pc == Read32(s.ram, 4 * vector) && !e.stopped
            && e.sr == s.sr.(super := true, trace := false, mask := mask)
  {
    hide SrWord, Read32, Write16, TableApart;
    var sp := HandlerStack(s);
    PlusPlus(sp, -4, -2);
    FrameSpares(s.ram, sp, s.pc, SrWord(s.sr), 4 * vector);
  }

  // Pushing a frame leaves the rest of memory alone.
  lemma FrameSpares(ram: Ram, sp: U32, pc: U32, sr: U16, entry: U32)
    requires TableApart(sp, entry)
    ensures Read32(Write16(Write32(ram, Plus(sp, -4), pc), Plus(sp, -6), sr), entry) == Read32(ram, entry)
  {
    hide Slot, InRam, Read16, Write16;
    PlusPlus(sp, -6, 2);
    PlusPlus(sp, -6, 4);
    PlusPlus(sp, -4, 2);
    var m1 := Write16(ram, Plus(sp, -4), pc / 0x1_0000);
    var m2 := Write16(m1, Plus(sp, -2), pc % 0x1_0000);
    var m3 := Write16(m2, Plus(sp, -6), sr);
    forall o: WordSlot | o !in FrameSlots(Plus(sp, -6))
      ensures SameWord(m3, ram, o)
    {
      WriteElsewhere(ram, Plus(sp, -4), pc / 0x1_0000, o);
      WriteElsewhere(m1, Plus(sp, -2), pc % 0x1_0000, o);
      WriteElsewhere(m2, Plus(sp, -6), sr, o);
    }
    SameRead32(m3, ram, entry);
  }

  // An interrupt of level n above the mask, or of level 7, starts the handler of
  // its own vector or of autovector n, with the mask raised to its level.
  lemma InterruptStarts(s: State)
    requires !s.halted && s.irqLevel > 0 && (s.irqLevel == 7 || s.irqLevel > s.sr.mask) && s.irqVector < 0x4000_0000
    requires TableApart(HandlerStack(s), if s.irqVector >= 0 then 4 * s.irqVector else 4 * (24 + s.irqLevel))
    ensures var r := IrqChecked(s);
            && r.pc == Read32(s.ram, if s.irqVector >= 0 then 4 * s.irqVector else 4 * (24 + s.irqLevel))
            && r.sr == s.sr.(super := true, trace := false, mask := s.irqLevel)
            && r.irqLevel == 0 && !r.stopped
  {
    hide Entered, Read32, TableApart;
    EntryStarts(s, s.irqLevel, if s.irqVector >= 0 then s.irqVector else 24 + s.irqLevel);
  }

  // Any other waits, changing nothing, as long as the mask is at its level; a
  // halted machine forgets it.
  lemma InterruptWaits(s: State)
    ensures !s.halted && s.irqLevel != 7 && s.irqLevel <= s.sr.mask ==> IrqChecked(s) == s
    ensures s.halted ==> IrqChecked(s) == s.(irqLevel := 0)
  {
  }

  // So no handler is interrupted by its own level or a lower one, 7 excepted,
  // until the mask is lowered.
  lemma HandlerIsShielded(s: State, q: State, m: Field3)
    requires !s.halted && s.irqLevel > 0 && (s.irqLevel == 7 || s.irqLevel > s.sr.mask) && s.irqVector < 0x4000_0000
    requires TableApart(HandlerStack(s), if s.irqVector >= 0 then 4 * s.irqVector else 4 * (24 + s.irqLevel))
    requires q.sr.mask >= IrqChecked(s).sr.mask && !q.halted && m <= s.irqLevel && m != 7
    ensures IrqChecked(q.(irqLevel := m)) == q.(irqLevel := m)
  {
    hide Entered, Read32, TableApart;
    InterruptStarts(s);
    InterruptWaits(q.(irqLevel := m));
  }

  // An exception starts the handler of its vector and leaves the mask alone; a
  // second one inside the first halts the machine.
  lemma ExceptionStarts(s: State, vector: U32)
    requires vector < 0x4000_0000 && TableApart(HandlerStack(s), 4 * vector)
    ensures var r := Raised(s, vector);
            if s.inException then r == s.(halted := true, irqLevel := 0)
            else
              && r.pc == Read32(s.ram, 4 * vector) && r.sr == s.sr.(super := true, trace := false)
              && r.irqLevel == s.irqLevel && !r.stopped && r.halted == s.halted
  {
    hide Read32, TableApart;
    EntryStarts(s, s.sr.mask, vector);
  }

  // RTE in user mode starts the handler of vector 8 instead.
  lemma UserReturnTraps(s: State)
    requires !s.sr.super && !s.inException && TableApart(s.ssp, 32)
    ensures var r := Returned(s);
            r.pc == Read32(s.ram, 32) && r.sr == s.sr.(super := true, trace := false)
  {
    hide Read32, TableApart;
    ExceptionStarts(s, 8);
  }
}
