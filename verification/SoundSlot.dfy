// The sample counter of a sound slot: 16 bits that hold the complement of the
// index while playing backwards, against the index it is meant to play.
module SoundSlot {
  import opened Multiples
  import opened Words

  function Low16(x: int): U16 { x % 0x1_0000 }

  function Complement(x: U16): U16 { 0xFFFF - x }

  const PHASE_ONE: nat := 1024

  // Loop off, forward, reverse, alternating.
  datatype Mode = Off | Forward | Reverse | Alternating

  datatype Slot = Slot(active: bool, pos: U16, reverse: bool, crossed: bool)

  // The index the sample is fetched from, before modulation.
  function Fetched(s: Slot): U16 { if s.reverse then Complement(s.pos) else s.pos }

  // What keying on leaves.
  const KEYED_ON := Slot(true, 0, false, false)

  // What passing the loop point does.
  function Looped(s: Slot, mode: Mode, lsa: U16, lea: U16): Slot {
    match mode
    case Off => Slot(false, s.pos, false, false)
    case Forward => s.(pos := Low16(s.pos as int + if s.reverse then lea - lsa else lsa - lea))
    case Reverse => s.(pos := Low16(s.pos as int + lsa as int - lea as int))
    case Alternating =>
      if s.reverse then s.(reverse := false, pos := Low16(s.pos as int + 2 * lsa as int))
      else s.(reverse := true, pos := Low16(s.pos as int - 2 * lea as int))
  }

  // One step of the counter.
  function Stepped(s: Slot, mode: Mode, lsa: U16, lea: U16): Slot {
    var t := s.(pos := Low16(s.pos as int + 1));
    if !t.crossed then
      if Low16(t.pos as int + 1) <= lsa then t
      else if mode.Reverse? then
        t.(crossed := true, pos := Low16(t.pos as int - (lsa as int + lea as int)), reverse := true)
      else t.(crossed := true)
    else
      var next := Low16(Fetched(t) as int + 1);
      var point := if t.reverse && (mode.Reverse? || mode.Alternating?) then lsa else lea;
      if t.reverse != (next > point) then Looped(t, mode, lsa, lea) else t
  }

  function Steps(s: Slot, mode: Mode, lsa: U16, lea: U16, n: nat): (r: Slot)
    decreases n
  {
    if n == 0 || !s.active then s else Steps(Stepped(s, mode, lsa, lea), mode, lsa, lea, n - 1)
  }

  // --------------------------------------------------- what is to be played

  // The index of the k-th sample, for a loop segment of LSA to LEA - 1.
  function Index(mode: Mode, lsa: U16, lea: U16, k: nat): int
    requires lsa < lea
  {
    var n := lea as int - lsa as int;
    match mode
    case Off => k
    case Forward => if k < lea then k else lsa as int + (k - lea) % n
    case Reverse => if k < lsa then k else lea as int - 1 - (k - lsa) % n
    case Alternating =>
      if k < lea then k
      else
        var j := (k - lea) % (2 * n);
        if j < n then lea as int - 1 - j else lsa as int + (j - n)
  }

  predicate Plays(mode: Mode, lea: U16, k: nat) { mode.Off? ==> k < lea }

  // Which way the k-th sample is passed, and whether the start has been.
  predicate Backwards(mode: Mode, lsa: U16, lea: U16, k: nat)
    requires lsa < lea
  {
    match mode
    case Off => false
    case Forward => false
    case Reverse => k >= lsa
    case Alternating => k >= lea && (k - lea) % (2 * (lea as int - lsa as int)) < lea as int - lsa as int
  }

  predicate Segment(lsa: U16, lea: U16) { lsa < lea <= 0xFFFE }

  // The counter that stands for the k-th sample.
  ghost predicate Stands(s: Slot, mode: Mode, lsa: U16, lea: U16, k: nat)
    requires lsa < lea
  {
    && s.active == Plays(mode, lea, k)
    && (s.active ==>
          && s.reverse == Backwards(mode, lsa, lea, k) && s.crossed == (k >= lsa)
          && Fetched(s) as int == Index(mode, lsa, lea, k))
  }

  lemma ModNext(x: nat, n: nat)
    requires n > 0
    ensures (x + 1) % n == (if x % n + 1 == n then 0 else x % n + 1) && 0 % n == 0
  {
    var q, r := x / n, x % n;
    if r + 1 < n {
      RemainderIs(x + 1, q, r + 1, n);
    } else {
      assert (q + 1) * n == q * n + n;
      RemainderIs(x + 1, q + 1, 0, n);
    }
  }

  lemma StartStands(mode: Mode, lsa: U16, lea: U16)
    requires Segment(lsa, lea) && lsa > 0
    ensures Stands(KEYED_ON, mode, lsa, lea, 0)
  {
  }

  // A loop from address 0 is entered one step later.
  lemma StartStandsAtZero(mode: Mode, lea: U16)
    requires Segment(0, lea) && lea > 1
    ensures Stands(Stepped(KEYED_ON, mode, 0, lea), mode, 0, lea, 1)
  {
    ModNext(0, lea);
    ModNext(0, 2 * lea as int);
  }

  // What one step does to the index, by direction and place.
  predicate ForwardStep(t: Slot, next: int, mode: Mode, lsa: U16, lea: U16) {
    && t.active == (next < lea as int || !mode.Off?)
    && (t.active ==>
          && t.crossed == (next >= lsa as int)
          && t.reverse == ((mode.Reverse? && next == lsa as int) || (mode.Alternating? && next == lea as int))
          && Fetched(t) as int == if t.reverse then lea as int - 1
                                 else if next == lea as int then lsa as int else next)
  }

  lemma StepBeforeSegment(s: Slot, mode: Mode, lsa: U16, lea: U16)
    requires Segment(lsa, lea) && s.active && !s.reverse && s.pos < lsa && !s.crossed
    ensures ForwardStep(Stepped(s, mode, lsa, lea), s.pos as int + 1, mode, lsa, lea)
  {
    hide Looped;
    assert Low16(s.pos as int + 1) == s.pos as int + 1;
  }

  lemma StepInSegment(s: Slot, mode: Mode, lsa: U16, lea: U16)
    requires Segment(lsa, lea) && s.active && !s.reverse && lsa <= s.pos < lea && s.crossed && !mode.Reverse?
    ensures ForwardStep(Stepped(s, mode, lsa, lea), s.pos as int + 1, mode, lsa, lea)
  {
    assert Low16(s.pos as int + 1) == s.pos as int + 1;
    var t := s.(pos := Low16(s.pos as int + 1));
    if s.pos as int + 1 < lea as int {
      hide Looped;
      assert Stepped(s, mode, lsa, lea) == t;
    } else {
      assert Stepped(s, mode, lsa, lea) == Looped(t, mode, lsa, lea);
    }
  }

  lemma StepForwards(s: Slot, mode: Mode, lsa: U16, lea: U16)
    requires Segment(lsa, lea) && s.active && !s.reverse && s.pos < lea && s.crossed == (s.pos >= lsa)
    requires s.crossed ==> !mode.Reverse?
    ensures ForwardStep(Stepped(s, mode, lsa, lea), s.pos as int + 1, mode, lsa, lea)
  {
    hide Stepped, ForwardStep;
    if s.crossed {
      StepInSegment(s, mode, lsa, lea);
    } else {
      StepBeforeSegment(s, mode, lsa, lea);
    }
  }

  lemma StepBackwards(s: Slot, mode: Mode, lsa: U16, lea: U16)
    requires Segment(lsa, lea) && s.active && s.reverse && s.crossed && lsa <= Fetched(s) < lea
    requires mode.Reverse? || mode.Alternating?
    ensures var t, next: int := Stepped(s, mode, lsa, lea), Fetched(s) as int - 1;
            && t.active && t.crossed && t.reverse == (mode.Reverse? || next >= lsa as int)
            && Fetched(t) as int == if next >= lsa as int then next
                                   else if mode.Reverse? then lea as int - 1 else lsa as int
  {
  }

  lemma StepStands(s: Slot, mode: Mode, lsa: U16, lea: U16, k: nat)
    requires Segment(lsa, lea) && Stands(s, mode, lsa, lea, k) && s.active
    ensures Stands(Stepped(s, mode, lsa, lea), mode, lsa, lea, k + 1)
  {
    hide Stepped;
    match mode
    case Off => StepForwards(s, mode, lsa, lea);
    case Forward => ForwardStands(s, lsa, lea, k);
    case Reverse => ReverseStands(s, lsa, lea, k);
    case Alternating => AlternatingStands(s, lsa, lea, k);
  }

  lemma ForwardStands(s: Slot, lsa: U16, lea: U16, k: nat)
    requires Segment(lsa, lea) && Stands(s, Forward, lsa, lea, k) && s.active
    ensures Stands(Stepped(s, Forward, lsa, lea), Forward, lsa, lea, k + 1)
  {
    hide Stepped;
    var n := lea as int - lsa as int;
    if k >= lea {
      ModNext(k - lea, n);
    } else {
      ModNext(0, n);
    }
    StepForwards(s, Forward, lsa, lea);
  }

  lemma ReverseStands(s: Slot, lsa: U16, lea: U16, k: nat)
    requires Segment(lsa, lea) && Stands(s, Reverse, lsa, lea, k) && s.active
    ensures Stands(Stepped(s, Reverse, lsa, lea), Reverse, lsa, lea, k + 1)
  {
    hide Stepped;
    var n := lea as int - lsa as int;
    if k >= lsa {
      ModNext(k - lsa, n);
      StepBackwards(s, Reverse, lsa, lea);
    } else {
      ModNext(0, n);
      StepForwards(s, Reverse, lsa, lea);
    }
  }

  lemma AlternatingStands(s: Slot, lsa: U16, lea: U16, k: nat)
    requires Segment(lsa, lea) && Stands(s, Alternating, lsa, lea, k) && s.active
    ensures Stands(Stepped(s, Alternating, lsa, lea), Alternating, lsa, lea, k + 1)
  {
    hide Stepped;
    var n := lea as int - lsa as int;
    if k >= lea {
      ModNext(k - lea, 2 * n);
    } else {
      ModNext(0, 2 * n);
    }
    if s.reverse {
      StepBackwards(s, Alternating, lsa, lea);
    } else {
      StepForwards(s, Alternating, lsa, lea);
    }
  }

  // From key-on, after any number of steps, the counter fetches exactly the
  // sample that is due, and the slot stops exactly at the end of a plain play. The
  // first sample is always the one at 0.
  lemma {:induction false} CounterPlaysTheLoop(mode: Mode, lsa: U16, lea: U16, k: nat)
    requires Segment(lsa, lea) && (lsa > 0 || lea > 1)
    ensures var s := Steps(KEYED_ON, mode, lsa, lea, k);
            && s.active == Plays(mode, lea, k)
            && (s.active ==> Fetched(s) as int == if lsa == 0 && k == 0 then 0 else Index(mode, lsa, lea, k))
  {
    hide Index, Backwards, Stepped;
    if lsa > 0 {
      StartStands(mode, lsa, lea);
      StepsStand(KEYED_ON, mode, lsa, lea, 0, k);
    } else if k > 0 {
      StartStandsAtZero(mode, lea);
      StepsStand(Stepped(KEYED_ON, mode, lsa, lea), mode, lsa, lea, 1, k - 1);
    }
  }

  // The two ends of the address range fall out. A loop of the one sample at 0 plays
  // the one at 1 instead: the step that enters the loop does not look for its end.
  lemma {:induction false} LoneFirstSample(k: nat)
    requires k > 0
    ensures var s := Steps(KEYED_ON, Forward, 0, 1, k); s == Slot(true, 1, false, true)
    ensures Index(Forward, 0, 1, k) == 0
    decreases k
  {
    assert Stepped(KEYED_ON, Forward, 0, 1) == Slot(true, 1, false, true);
    StaysAtOne(k - 1);
  }

  lemma {:induction false} StaysAtOne(n: nat)
    ensures Steps(Slot(true, 1, false, true), Forward, 0, 1, n) == Slot(true, 1, false, true)
    decreases n
  {
    if n > 0 {
      StaysAtOne(n - 1);
    }
  }

  // And a loop that ends at 0xFFFF never comes to its end: the counter runs
  // through all 65536 addresses and round again.
  lemma {:induction false} LastAddressNeverLoops(mode: Mode, lsa: U16, k: nat)
    requires 0 < lsa < 0xFFFF && !mode.Reverse?
    ensures var s := Steps(KEYED_ON, mode, lsa, 0xFFFF, k);
            s.active && Fetched(s) as int == k % 0x1_0000
  {
    RunsThrough(KEYED_ON, mode, lsa, 0, k);
  }

  lemma {:induction false} RunsThrough(s: Slot, mode: Mode, lsa: U16, k: nat, n: nat)
    requires 0 < lsa < 0xFFFF && !mode.Reverse? && s.active && !s.reverse && s.pos as int == k % 0x1_0000
    ensures var r := Steps(s, mode, lsa, 0xFFFF, n);
            r.active && !r.reverse && r.pos as int == (k + n) % 0x1_0000
    decreases n
  {
    if n > 0 {
      RunsThrough(Stepped(s, mode, lsa, 0xFFFF), mode, lsa, k + 1, n - 1);
    }
  }

  lemma {:induction false} StepsStand(s: Slot, mode: Mode, lsa: U16, lea: U16, k: nat, n: nat)
    requires Segment(lsa, lea) && Stands(s, mode, lsa, lea, k)
    ensures Stands(Steps(s, mode, lsa, lea, n), mode, lsa, lea, k + n)
    decreases n
  {
    hide Index, Backwards, Stepped;
    if n > 0 && s.active {
      StepStands(s, mode, lsa, lea, k);
      StepsStand(Stepped(s, mode, lsa, lea), mode, lsa, lea, k + 1, n - 1);
    }
  }

  // ------------------------------------------------------- as it is run

  class SampleCounter {
    var active: bool
    var pos: U16
    var frac: nat
    var reverse: bool
    var crossed: bool

    ghost function Model(): Slot
      reads this
    {
      Slot(active, pos, reverse, crossed)
    }

    method KeyOn()
      modifies this
      ensures Model() == KEYED_ON && frac == 0
    {
      active, pos, frac, reverse, crossed := true, 0, 0, false, false;
    }

    method Loop(mode: Mode, lsa: U16, lea: U16)
      modifies `active, `pos, `reverse, `crossed
      ensures Model() == Looped(old(Model()), mode, lsa, lea)
    {
      match mode {
        case Off =>
          active, reverse, crossed := false, false, false;
        case Forward =>
          pos := Low16(pos as int + if reverse then lea - lsa else lsa - lea);
        case Reverse =>
          pos := Low16(pos as int + lsa as int - lea as int);
        case Alternating =>
          reverse := !reverse;
          pos := if reverse then Low16(pos as int - 2 * lea as int) else Low16(pos as int + 2 * lsa as int);
      }
    }

    method Step(mode: Mode, lsa: U16, lea: U16)
      modifies `active, `pos, `reverse, `crossed
      ensures Model() == Stepped(old(Model()), mode, lsa, lea)
    {
      hide Looped;
      pos := Low16(pos as int + 1);
      if !crossed {
        if Low16(pos as int + 1) > lsa {
          crossed := true;
          if mode.Reverse? {
            pos := Low16(pos as int - (lsa as int + lea as int));
            reverse := true;
          }
        }
      } else {
        var next := Low16((if reverse then Complement(pos) else pos) as int + 1);
        var point := if reverse && (mode.Reverse? || mode.Alternating?) then lsa else lea;
        if reverse != (next > point) {
          Loop(mode, lsa, lea);
        }
      }
    }

    lemma StepsUnfold(s: Slot, mode: Mode, lsa: U16, lea: U16, n: nat)
      ensures n == 0 || !s.active ==> Steps(s, mode, lsa, lea, n) == s
      ensures n > 0 && s.active ==>
                Steps(s, mode, lsa, lea, n) == Steps(Stepped(s, mode, lsa, lea), mode, lsa, lea, n - 1)
    {
    }

    // One output sample: the phase moves by `step`, the counter by its whole part.
    method AdvancePhase(step: nat, mode: Mode, lsa: U16, lea: U16)
      requires active
      modifies this
      ensures Model() == Steps(old(Model()), mode, lsa, lea, (old(frac) + step) / 1024)
      ensures active ==> frac == (old(frac) + step) % 1024
    {
      hide Steps, Stepped;
      frac := frac + step;
      ghost var n: nat := frac / PHASE_ONE;
      StepsUnfold(Model(), mode, lsa, lea, n);
      while frac >= PHASE_ONE && active
        invariant active ==> frac % PHASE_ONE == (old(frac) + step) % PHASE_ONE && n == frac / PHASE_ONE
        invariant Steps(Model(), mode, lsa, lea, n) ==
                  Steps(old(Model()), mode, lsa, lea, (old(frac) + step) / PHASE_ONE)
        decreases frac
      {
        StepsUnfold(Model(), mode, lsa, lea, n);
        frac := frac - PHASE_ONE;
        n := n - 1;
        Step(mode, lsa, lea);
      }
      StepsUnfold(Model(), mode, lsa, lea, n);
    }
  }
}
