// One field of the machine scheduler, line by line: which video and timer
// events happen, when, and how often.
module BusField {
  const CYC_PER_LINE: nat := 1820
  const HBLANK_START: nat := 1456
  const FIELD_CHANGE: nat := 128
  const LINES_TOTAL: nat := 263
  const LINE_VBLANK: nat := 224

  // The registers in place when a line starts.
  datatype Regs = Regs(timerOn: bool, compare: nat, timer1Line: bool, interlaced: bool)

  // What the processors do to those registers: the value at the n-th line run.
  type Program = nat -> Regs

  datatype VideoEvent = VBlankOut(clk: nat) | VBlankIn(clk: nat) | HBlankIn(clk: nat) | FieldChange(clk: nat)
  datatype TimerEvent = Timer0(clk: nat) | Timer1(clk: nat)

  // `ran` counts the lines run; `video` and `timers` record the events.
  datatype Sched = Sched(
    line: nat, boundaryDone: bool, clk: nat, ran: nat, counter: nat, vblank: bool, odd: bool,
    video: seq<VideoEvent>, timers: seq<TimerEvent>)

  predicate OnScreen(s: Sched) { s.line < LINES_TOTAL }

  // ------------------------------------------------------------ one line

  function LineEvents(line: nat, clk: nat): seq<VideoEvent> {
    if line == 0 then [FieldChange(clk + FIELD_CHANGE)] + [HBlankIn(clk + HBLANK_START)]
    else [HBlankIn(clk + HBLANK_START)]
  }

  function AfterLine(s: Sched): Sched {
    s.(clk := s.clk + CYC_PER_LINE, video := s.video + LineEvents(s.line, s.clk))
  }

  function Fired0(r: Regs, counter: nat, clk: nat): seq<TimerEvent> {
    if r.timerOn && counter == r.compare then [Timer0(clk)] else []
  }

  // `scu_timer_vblank_out` and `scu_timer_hblank`
  function TimerReset(p: Program, s: Sched): Sched {
    s.(counter := 0, timers := s.timers + Fired0(p(s.ran), 0, s.clk))
  }

  function TimerLine(p: Program, s: Sched): Sched {
    var r := p(s.ran);
    if !r.timerOn then s
    else
      var c := (s.counter + 1) % 0x200;
      s.(counter := c,
         timers := s.timers + Fired0(r, c, s.clk) + (if !r.timer1Line || c == r.compare then [Timer1(s.clk)] else []))
  }

  // A whole line and the step to the next one.
  function StepLine(p: Program, s: Sched): (r: Sched)
    requires OnScreen(s)
    ensures OnScreen(r)
  {
    var t := AfterLine(TimerLine(p, s));
    t.(line := if s.line + 1 >= LINES_TOTAL then 0 else s.line + 1, boundaryDone := false, ran := s.ran + 1)
  }

  // ----------------------------------------------------------- one field

  predicate AtOut(s: Sched) { !s.boundaryDone && s.line == 0 }

  predicate AtIn(s: Sched) { !s.boundaryDone && s.line == LINE_VBLANK }

  function OutEdge(p: Program, s: Sched): Sched {
    TimerReset(p, s.(vblank := false, video := s.video + [VBlankOut(s.clk)])).(boundaryDone := true)
  }

  function InEdge(p: Program, s: Sched): Sched {
    s.(vblank := true, odd := if p(s.ran).interlaced then !s.odd else true,
       video := s.video + [VBlankIn(s.clk)], boundaryDone := true)
  }

  // How many lines until the next edge that matters.
  function LinesTo(s: Sched, target: nat): nat
    requires OnScreen(s) && target < LINES_TOTAL
  {
    if s.line == target && s.boundaryDone then LINES_TOTAL
    else if s.line <= target then target - s.line else target + LINES_TOTAL - s.line
  }

  // Every line brings the edge nearer.
  lemma LinesToFalls(p: Program, s: Sched)
    requires OnScreen(s)
    ensures AtOut(s) ==> LinesTo(StepLine(p, OutEdge(p, s)), LINE_VBLANK) < LinesTo(s, LINE_VBLANK)
    ensures AtIn(s) ==> LinesTo(StepLine(p, InEdge(p, s)), 0) < LinesTo(s, 0)
    ensures !AtIn(s) ==> LinesTo(StepLine(p, s), LINE_VBLANK) < LinesTo(s, LINE_VBLANK)
    ensures !AtOut(s) ==> LinesTo(StepLine(p, s), 0) < LinesTo(s, 0)
  {
    hide Fired0;
  }

  // `saturn_run_field` while nothing halts.
  function Field(p: Program, s: Sched, visible: bool): (r: Sched)
    requires OnScreen(s)
    ensures OnScreen(r)
    decreases if visible then 0 else 1, LinesTo(s, if visible then LINE_VBLANK else 0)
  {
    if AtOut(s) then Field(p, StepLine(p, OutEdge(p, s)), true)
    else if AtIn(s) then if visible then InEdge(p, s) else Field(p, StepLine(p, InEdge(p, s)), false)
    else Field(p, StepLine(p, s), visible)
  }

  // -------------------------------------------------------------- lines

  function Lines(p: Program, s: Sched, n: nat): (r: Sched)
    requires OnScreen(s)
    ensures OnScreen(r)
    decreases n
  {
    if n == 0 then s else Lines(p, StepLine(p, s), n - 1)
  }

  function LinesEvents(line: nat, clk: nat, n: nat): seq<VideoEvent>
    decreases n
  {
    if n == 0 then [] else LineEvents(line, clk) + LinesEvents(line + 1, clk + CYC_PER_LINE, n - 1)
  }

  lemma StepLineMoves(p: Program, s: Sched)
    requires OnScreen(s)
    ensures var t := StepLine(p, s);
            && t.line == (if s.line + 1 == LINES_TOTAL then 0 else s.line + 1) && !t.boundaryDone
            && t.clk == s.clk + CYC_PER_LINE && t.ran == s.ran + 1
            && t.video == s.video + LineEvents(s.line, s.clk) && t.vblank == s.vblank && t.odd == s.odd
  {
    hide Fired0, LineEvents;
  }

  // A stretch of n lines that stays on the screen: time, position and events.
  lemma {:induction false} LinesRun(p: Program, s: Sched, n: nat)
    requires OnScreen(s) && 0 < n <= LINES_TOTAL - s.line
    ensures var r := Lines(p, s, n);
            && r.line == (if s.line + n == LINES_TOTAL then 0 else s.line + n) && !r.boundaryDone
            && r.clk == s.clk + n * CYC_PER_LINE && r.ran == s.ran + n
            && r.video == s.video + LinesEvents(s.line, s.clk, n) && r.vblank == s.vblank && r.odd == s.odd
    decreases n
  {
    hide StepLine, LineEvents;
    var t := StepLine(p, s);
    StepLineMoves(p, s);
    if n > 1 {
      LinesRun(p, t, n - 1);
      assert s.video + (LineEvents(s.line, s.clk) + LinesEvents(t.line, t.clk, n - 1)) ==
             (s.video + LineEvents(s.line, s.clk)) + LinesEvents(t.line, t.clk, n - 1);
    } else {
      assert Lines(p, t, 0) == t;
      assert LinesEvents(s.line, s.clk, 1) == LineEvents(s.line, s.clk);
    }
  }

  // Between edges a field is just its lines.
  lemma {:induction false} FieldSkips(p: Program, s: Sched, visible: bool, n: nat)
    requires OnScreen(s) && n <= LINES_TOTAL - s.line && (s.boundaryDone || (s.line != 0 && s.line != LINE_VBLANK))
    requires s.line < LINE_VBLANK ==> s.line + n <= LINE_VBLANK
    ensures Field(p, s, visible) == Field(p, Lines(p, s, n), visible)
    decreases n
  {
    hide TimerLine;
    if n > 0 {
      var t := StepLine(p, s);
      if n > 1 {
        FieldSkips(p, t, visible, n - 1);
      } else {
        assert Lines(p, t, 0) == t;
      }
    }
  }

  // --------------------------------------------------------- whole fields

  // The state every completed field leaves.
  predicate AtBoundary(s: Sched) { s.line == LINE_VBLANK && s.boundaryDone }

  const BLANKED: nat := LINES_TOTAL - LINE_VBLANK

  // The video events of the field that starts at clk with the blanking interval.
  function FieldEvents(clk: nat): seq<VideoEvent> {
    var out := clk + BLANKED * CYC_PER_LINE;
    LinesEvents(LINE_VBLANK, clk, BLANKED) + [VBlankOut(out)] + LinesEvents(0, out, LINE_VBLANK)
    + [VBlankIn(clk + LINES_TOTAL * CYC_PER_LINE)]
  }

  // The two halves of a field.
  function Blanking(p: Program, s: Sched): (r: Sched)
    requires OnScreen(s)
    ensures OnScreen(r)
  {
    Lines(p, s, BLANKED)
  }

  function Scanout(p: Program, s: Sched): (r: Sched)
    requires OnScreen(s)
    ensures OnScreen(r)
  {
    Lines(p, OutEdge(p, s), LINE_VBLANK)
  }

  lemma FieldSplits(p: Program, s: Sched)
    requires AtBoundary(s)
    ensures var b := Blanking(p, s);
            AtOut(b) && AtIn(Scanout(p, b)) && Field(p, s, false) == InEdge(p, Scanout(p, b))
  {
    hide Lines, OutEdge;
    var b := Blanking(p, s);
    LinesRun(p, s, BLANKED);
    FieldSkips(p, s, false, BLANKED);
    FieldFromOut(p, b);
  }

  lemma FieldFromOut(p: Program, b: Sched)
    requires AtOut(b)
    ensures AtIn(Scanout(p, b)) && Field(p, b, false) == InEdge(p, Scanout(p, b))
  {
    hide Lines, TimerLine;
    var o := OutEdge(p, b);
    LinesRun(p, o, LINE_VBLANK);
    FieldSkips(p, o, true, LINE_VBLANK);
    assert Field(p, b, false) == Field(p, o, true) by {
      hide *;
      FieldAtOut(p, b);
    }
  }

  lemma FieldAtOut(p: Program, b: Sched)
    requires AtOut(b)
    ensures Field(p, b, false) == Field(p, OutEdge(p, b), true)
  {
  }

  // A field from the V-Blank boundary takes exactly 263 lines of 1820 clocks and
  // ends at the boundary again, on line 224.
  lemma FullField(p: Program, s: Sched)
    requires AtBoundary(s)
    ensures var r := Field(p, s, false);
            && AtBoundary(r) && r.line == 224 && r.vblank && r.ran == s.ran + 263
            && r.clk == s.clk + 478660
            && r.video == s.video + FieldEvents(s.clk)
            && r.odd == if p(r.ran).interlaced then !s.odd else true
  {
    hide Field, Lines, LinesEvents, Fired0;
    var b := Blanking(p, s);
    FieldSplits(p, s);
    LinesRun(p, s, BLANKED);
    var o := OutEdge(p, b);
    LinesRun(p, o, LINE_VBLANK);
    var l1, l2 := LinesEvents(LINE_VBLANK, s.clk, BLANKED), LinesEvents(0, b.clk, LINE_VBLANK);
    assert s.video + l1 + [VBlankOut(b.clk)] + l2 + [VBlankIn(s.clk + LINES_TOTAL * CYC_PER_LINE)] ==
           s.video + FieldEvents(s.clk);
  }

  lemma LinesSplit(line: nat, clk: nat, n: nat)
    requires n > 0
    ensures LinesEvents(line, clk, n) == LineEvents(line, clk) + LinesEvents(line + 1, clk + CYC_PER_LINE, n - 1)
  {
  }

  lemma {:induction false} LinesAt(line: nat, clk: nat, n: nat, k: nat)
    requires 0 < line && k < n
    ensures |LinesEvents(line, clk, n)| == n && LinesEvents(line, clk, n)[k] == HBlankIn(clk + 1820 * k + 1456)
    decreases n
  {
    if n > 1 {
      LinesAt(line + 1, clk + 1820, n - 1, if k == 0 then 0 else k - 1);
    } else {
      assert LinesEvents(line + 1, clk + CYC_PER_LINE, 0) == [];
    }
  }

  // The clock of the k-th of a field's 266 video events, by its number.
  predicate Timetable(clk: nat, k: nat, e: VideoEvent) {
    && (k < 39 ==> e == HBlankIn(clk + 1820 * k + 1456))
    && (k == 39 ==> e == VBlankOut(clk + 70980))
    && (k == 40 ==> e == FieldChange(clk + 70980 + 128))
    && (40 < k < 265 ==> e == HBlankIn(clk + 1820 * (k - 2) + 1456))
    && (k == 265 ==> e == VBlankIn(clk + 478660))
  }

  lemma FieldEventsAt(clk: nat, k: nat)
    requires k < 266
    ensures |FieldEvents(clk)| == 266 && Timetable(clk, k, FieldEvents(clk)[k])
  {
    hide LinesEvents;
    var l1, l2, l3 := LinesEvents(224, clk, 39), LinesEvents(0, clk + 70980, 224), LinesEvents(1, clk + 72800, 223);
    LinesSplit(0, clk + 70980, 224);
    LinesAt(224, clk, 39, if k < 39 then k else 0);
    LinesAt(1, clk + 72800, 223, if 41 < k < 265 then k - 42 else 0);
    assert FieldEvents(clk) == l1 + [VBlankOut(clk + 70980)] + l2 + [VBlankIn(clk + 478660)];
    assert l2 == [FieldChange(clk + 71108)] + [HBlankIn(clk + 72436)] + l3;
  }

  // What a field shows: 39 blanked lines, V-Blank-OUT, the field change 128
  // clocks later, 224 lines and V-Blank-IN; H-Blank is at clock 1456 of each
  // line of 1820.
  lemma FieldTimetable(p: Program, s: Sched, k: nat)
    requires AtBoundary(s) && k < 266
    ensures var r := Field(p, s, false);
            |r.video| == |s.video| + 266 && Timetable(s.clk, k, r.video[|s.video| + k])
  {
    hide Field, FieldEvents;
    FullField(p, s);
    FieldEventsAt(s.clk, k);
  }

  // From any line and latch state the field ends, at the boundary.
  lemma {:induction false} FieldReachesBoundary(p: Program, s: Sched, visible: bool)
    requires OnScreen(s)
    ensures AtBoundary(Field(p, s, visible))
    decreases if visible then 0 else 1, LinesTo(s, if visible then LINE_VBLANK else 0)
  {
    hide TimerLine, Fired0;
    if AtOut(s) {
      FieldReachesBoundary(p, StepLine(p, OutEdge(p, s)), true);
    } else if AtIn(s) {
      if !visible {
        FieldReachesBoundary(p, StepLine(p, InEdge(p, s)), false);
      }
    } else {
      FieldReachesBoundary(p, StepLine(p, s), visible);
    }
  }

  // ------------------------------------------------------------ many fields

  function Fields(p: Program, s: Sched, n: nat): (r: Sched)
    requires OnScreen(s)
    ensures OnScreen(r)
    decreases n
  {
    if n == 0 then s else Fields(p, Field(p, s, false), n - 1)
  }

  datatype Kind = Out | In | Blank | Change

  function KindOf(e: VideoEvent): Kind {
    match e
    case VBlankOut(_) => Out
    case VBlankIn(_) => In
    case HBlankIn(_) => Blank
    case FieldChange(_) => Change
  }

  // How many events of a kind there are.
  function Count(e: seq<VideoEvent>, k: Kind): nat
    decreases |e|
  {
    if e == [] then 0 else Count(e[..|e| - 1], k) + if KindOf(e[|e| - 1]) == k then 1 else 0
  }

  lemma {:induction false} CountConcat(a: seq<VideoEvent>, b: seq<VideoEvent>, k: Kind)
    ensures Count(a + b, k) == Count(a, k) + Count(b, k)
    decreases |b|
  {
    if b == [] {
      assert a + b == a;
    } else {
      assert (a + b)[..|a + b| - 1] == a + b[..|b| - 1];
      CountConcat(a, b[..|b| - 1], k);
    }
  }

  lemma CountOne(e: VideoEvent, k: Kind)
    ensures Count([e], k) == if KindOf(e) == k then 1 else 0
  {
    assert [e][..0] == [];
  }

  lemma CountLine(line: nat, clk: nat, k: Kind)
    ensures Count(LineEvents(line, clk), k) == if k == Blank || (line == 0 && k == Change) then 1 else 0
  {
    hide Count;
    var change, blank := FieldChange(clk + FIELD_CHANGE), HBlankIn(clk + HBLANK_START);
    CountOne(change, k);
    CountOne(blank, k);
    CountConcat([change], [blank], k);
  }

  lemma {:induction false} CountLines(line: nat, clk: nat, n: nat, k: Kind)
    ensures Count(LinesEvents(line, clk, n), k) ==
            if k == Blank then n else if line == 0 && n > 0 && k == Change then 1 else 0
    decreases n
  {
    hide LineEvents;
    if n > 0 {
      hide Count, LinesEvents;
      LinesSplit(line, clk, n);
      CountLine(line, clk, k);
      CountLines(line + 1, clk + CYC_PER_LINE, n - 1, k);
      CountConcat(LineEvents(line, clk), LinesEvents(line + 1, clk + CYC_PER_LINE, n - 1), k);
    }
  }

  lemma CountField(clk: nat, k: Kind)
    ensures Count(FieldEvents(clk), k) == if k == Blank then 263 else 1
  {
    hide LinesEvents, Count;
    var out, end := clk + BLANKED * CYC_PER_LINE, clk + LINES_TOTAL * CYC_PER_LINE;
    var l1, l2 := LinesEvents(LINE_VBLANK, clk, BLANKED), LinesEvents(0, out, LINE_VBLANK);
    CountLines(LINE_VBLANK, clk, BLANKED, k);
    CountLines(0, out, LINE_VBLANK, k);
    CountOne(VBlankOut(out), k);
    CountOne(VBlankIn(end), k);
    CountConcat(l1, [VBlankOut(out)], k);
    CountConcat(l1 + [VBlankOut(out)], l2, k);
    CountConcat(l1 + [VBlankOut(out)] + l2, [VBlankIn(end)], k);
  }

  // n calls one after the other raise each edge n times: none twice across a
  // call boundary, none missed.
  lemma {:induction false} EveryFieldOnce(p: Program, s: Sched, n: nat, k: Kind)
    requires AtBoundary(s)
    ensures var r := Fields(p, s, n);
            && AtBoundary(r) && r.clk == s.clk + n * 478660
            && Count(r.video, k) == Count(s.video, k) + n * (if k == Blank then 263 else 1)
    decreases n
  {
    hide Field, Count, FieldEvents;
    if n > 0 {
      var t := Field(p, s, false);
      FullField(p, s);
      CountConcat(s.video, FieldEvents(s.clk), k);
      CountField(s.clk, k);
      EveryFieldOnce(p, t, n - 1, k);
    }
  }

  // ------------------------------------------------------------- the timers

  function Count0(t: seq<TimerEvent>): nat
    decreases |t|
  {
    if t == [] then 0 else Count0(t[..|t| - 1]) + if t[|t| - 1].Timer0? then 1 else 0
  }

  function Count1(t: seq<TimerEvent>): nat
    decreases |t|
  {
    if t == [] then 0 else Count1(t[..|t| - 1]) + if t[|t| - 1].Timer1? then 1 else 0
  }

  lemma CountAppend(t: seq<TimerEvent>, e: TimerEvent)
    ensures Count0(t + [e]) == Count0(t) + if e.Timer0? then 1 else 0
    ensures Count1(t + [e]) == Count1(t) + if e.Timer1? then 1 else 0
  {
    assert (t + [e])[..|t|] == t;
  }

  // The timer is on with this compare value and mode for n lines.
  predicate Fixed(p: Program, ran: nat, n: nat, c: nat, lineMode: bool) {
    forall i: nat | ran <= i < ran + n :: p(i).timerOn && p(i).compare == c && p(i).timer1Line == lineMode
  }

  lemma TimerLineCounts(p: Program, s: Sched, c: nat, lineMode: bool)
    requires p(s.ran).timerOn && p(s.ran).compare == c && p(s.ran).timer1Line == lineMode && s.counter + 1 < 0x200
    ensures var r := TimerLine(p, s);
            && r.counter == s.counter + 1
            && Count0(r.timers) == Count0(s.timers) + (if c == s.counter + 1 then 1 else 0)
            && Count1(r.timers) == Count1(s.timers) + (if !lineMode || c == s.counter + 1 then 1 else 0)
  {
    hide Count0, Count1;
    var k := s.counter + 1;
    CountAppend(s.timers, Timer0(s.clk));
    CountAppend(s.timers, Timer1(s.clk));
    CountAppend(s.timers + [Timer0(s.clk)], Timer1(s.clk));
    assert s.timers + [] == s.timers;
  }

  function Within(c: nat, low: nat, high: nat): nat { if low < c <= high then 1 else 0 }

  lemma {:induction false} TimerLines(p: Program, s: Sched, n: nat, c: nat, lineMode: bool)
    requires OnScreen(s) && Fixed(p, s.ran, n, c, lineMode) && s.counter + n < 0x200
    ensures var r := Lines(p, s, n);
            && r.counter == s.counter + n && r.ran == s.ran + n
            && Count0(r.timers) == Count0(s.timers) + Within(c, s.counter, s.counter + n)
            && Count1(r.timers) == Count1(s.timers) + (if lineMode then Within(c, s.counter, s.counter + n) else n)
    decreases n
  {
    hide Count0, Count1, TimerLine;
    if n > 0 {
      TimerLineCounts(p, s, c, lineMode);
      TimerLines(p, StepLine(p, s), n - 1, c, lineMode);
    }
  }

  // With the timer on and its compare value fixed, Timer 0 fires exactly once in
  // a full field if the value is at most 263 and never otherwise; Timer 1 fires
  // on every line, or in line mode once for the values 1 to 263.
  lemma TimersPerField(p: Program, s: Sched, c: nat, lineMode: bool)
    requires AtBoundary(s) && s.counter == 224 && Fixed(p, s.ran, 263, c, lineMode)
    ensures var r := Field(p, s, false);
            && r.counter == 224
            && Count0(r.timers) == Count0(s.timers) + (if c <= 263 then 1 else 0)
            && Count1(r.timers) == Count1(s.timers) + (if !lineMode then 263 else if 1 <= c <= 263 then 1 else 0)
  {
    hide Field, Lines, Count0, Count1, TimerLine;
    FieldSplits(p, s);
    LinesRun(p, s, BLANKED);
    TimerLines(p, s, BLANKED, c, lineMode);
    var b := Blanking(p, s);
    CountAppend(b.timers, Timer0(b.clk));
    assert b.timers + [] == b.timers;
    var o := OutEdge(p, b);
    TimerLines(p, o, LINE_VBLANK, c, lineMode);
  }

  // The timer events since an earlier state.
  function Since(s: Sched, r: Sched): seq<TimerEvent> {
    if s.timers <= r.timers then r.timers[|s.timers|..] else []
  }

  lemma SinceLater(s: Sched, t: Sched, r: Sched, e: TimerEvent)
    requires s.timers <= t.timers && t.timers <= r.timers && (e in Since(s, t) || e in Since(t, r))
    ensures e in Since(s, r)
  {
    assert Since(s, r) == Since(s, t) + Since(t, r);
  }

  lemma {:induction false} LinesKeep(p: Program, s: Sched, n: nat)
    requires OnScreen(s)
    ensures s.timers <= Lines(p, s, n).timers
    decreases n
  {
    if n > 0 {
      LinesKeep(p, StepLine(p, s), n - 1);
    }
  }

  lemma StepFires(p: Program, s: Sched, c: nat, lineMode: bool)
    requires OnScreen(s) && Fixed(p, s.ran, 1, c, lineMode) && s.counter + 1 < 0x200
    ensures var t := StepLine(p, s);
            && s.timers <= t.timers && t.counter == s.counter + 1
            && (s.counter + 1 == c ==> Timer0(s.clk) in Since(s, t))
            && (!lineMode || s.counter + 1 == c ==> Timer1(s.clk) in Since(s, t))
  {
    var t := StepLine(p, s);
    var zero := Fired0(p(s.ran), s.counter + 1, s.clk);
    var one := if !lineMode || s.counter + 1 == c then [Timer1(s.clk)] else [];
    assert t.timers == s.timers + (zero + one);
    assert Since(s, t) == zero + one;
  }

  // The timer events of n lines, by the line on which they happen.
  lemma {:induction false} TimerLinesAt(p: Program, s: Sched, n: nat, c: nat, lineMode: bool, k: nat)
    requires OnScreen(s) && Fixed(p, s.ran, n, c, lineMode) && s.counter + n < 0x200 && k < n
    ensures s.timers <= Lines(p, s, n).timers
    ensures s.counter + 1 + k == c ==> Timer0(s.clk + 1820 * k) in Since(s, Lines(p, s, n))
    ensures !lineMode || s.counter + 1 + k == c ==> Timer1(s.clk + 1820 * k) in Since(s, Lines(p, s, n))
    decreases n
  {
    hide StepLine, Since, Fired0;
    var t, r := StepLine(p, s), Lines(p, s, n);
    StepFires(p, s, c, lineMode);
    StepLineMoves(p, s);
    LinesKeep(p, t, n - 1);
    if k > 0 {
      TimerLinesAt(p, t, n - 1, c, lineMode, k - 1);
    }
    var clk := s.clk + 1820 * k;
    if s.counter + 1 + k == c {
      SinceLater(s, t, r, Timer0(clk));
    }
    if !lineMode || s.counter + 1 + k == c {
      SinceLater(s, t, r, Timer1(clk));
    }
  }

  // The same for a stretch u of n lines within the time from s to r.
  lemma FiresWithin(p: Program, s: Sched, u: Sched, n: nat, r: Sched, c: nat, lineMode: bool, k: nat)
    requires OnScreen(u) && Fixed(p, u.ran, n, c, lineMode) && u.counter + n < 0x200 && k < n
    requires s.timers <= u.timers && Lines(p, u, n).timers <= r.timers
    ensures u.counter + 1 + k == c ==> Timer0(u.clk + 1820 * k) in Since(s, r)
    ensures !lineMode || u.counter + 1 + k == c ==> Timer1(u.clk + 1820 * k) in Since(s, r)
  {
    hide Lines, Since;
    var v, clk := Lines(p, u, n), u.clk + 1820 * k;
    TimerLinesAt(p, u, n, c, lineMode, k);
    if u.counter + 1 + k == c {
      SinceLater(s, u, v, Timer0(clk));
      SinceLater(s, v, r, Timer0(clk));
    }
    if !lineMode || u.counter + 1 + k == c {
      SinceLater(s, u, v, Timer1(clk));
      SinceLater(s, v, r, Timer1(clk));
    }
  }

  lemma OutFires(p: Program, b: Sched)
    ensures var o := OutEdge(p, b);
            && b.timers <= o.timers && o.counter == 0 && o.clk == b.clk && o.ran == b.ran && o.line == b.line
            && (p(b.ran).timerOn && p(b.ran).compare == 0 ==> Timer0(b.clk) in Since(b, o))
  {
    assert Since(b, OutEdge(p, b)) == Fired0(p(b.ran), 0, b.clk);
  }

  // When the timers fire: the counter starts from 0 at V-Blank-OUT, 39 lines into
  // the field, where compare value 0 fires, and counts at the start of each line.
  lemma TimerClocks(p: Program, s: Sched, c: nat, lineMode: bool, k: nat)
    requires AtBoundary(s) && s.counter == 224 && Fixed(p, s.ran, 263, c, lineMode) && k < 263
    ensures var since := Since(s, Field(p, s, false));
            && (1 <= c <= 224 ==> Timer0(s.clk + 1820 * (c + 38)) in since)
            && (225 <= c <= 263 ==> Timer0(s.clk + 1820 * (c - 225)) in since)
            && (c == 0 ==> Timer0(s.clk + 70980) in since)
            && (!lineMode ==> Timer1(s.clk + 1820 * k) in since)
            && (lineMode && 1 <= c <= 224 ==> Timer1(s.clk + 1820 * (c + 38)) in since)
            && (lineMode && 225 <= c <= 263 ==> Timer1(s.clk + 1820 * (c - 225)) in since)
  {
    hide Field, Lines, Since, OutEdge;
    FieldSplits(p, s);
    LinesRun(p, s, 39);
    LinesKeep(p, s, 39);
    TimerLines(p, s, 39, c, lineMode);
    var b := Blanking(p, s);
    var o, r := OutEdge(p, b), Field(p, s, false);
    OutFires(p, b);
    LinesKeep(p, o, 224);
    if k < 39 {
      FiresWithin(p, s, s, 39, r, c, lineMode, k);
    } else {
      FiresWithin(p, s, o, 224, r, c, lineMode, k - 39);
    }
    if 225 <= c <= 263 {
      FiresWithin(p, s, s, 39, r, c, lineMode, c - 225);
    } else if 1 <= c <= 224 {
      FiresWithin(p, s, o, 224, r, c, lineMode, c - 1);
    } else if c == 0 {
      SinceLater(s, b, o, Timer0(s.clk + 70980));
      SinceLater(s, o, r, Timer0(s.clk + 70980));
    }
  }

  // One field with the timer on brings the counter into step, whatever it held.
  lemma CounterInStep(p: Program, s: Sched, c: nat, lineMode: bool)
    requires AtBoundary(s) && Fixed(p, s.ran + 39, 224, c, lineMode)
    ensures Field(p, s, false).counter == 224
  {
    hide Field, Lines, Count0, Count1, TimerLine;
    FieldSplits(p, s);
    LinesRun(p, s, BLANKED);
    TimerLines(p, OutEdge(p, Blanking(p, s)), LINE_VBLANK, c, lineMode);
  }

  // With the timer off nothing fires, and the counter stays where V-Blank-OUT
  // put it.
  lemma TimersOff(p: Program, s: Sched)
    requires AtBoundary(s) && forall i: nat | s.ran <= i < s.ran + 263 :: !p(i).timerOn
    ensures var r := Field(p, s, false); r.timers == s.timers && r.counter == 0
  {
    hide Field, Lines;
    FieldSplits(p, s);
    LinesOff(p, s, 39);
    LinesRun(p, s, 39);
    LinesOff(p, OutEdge(p, Blanking(p, s)), 224);
  }

  lemma {:induction false} LinesOff(p: Program, s: Sched, n: nat)
    requires OnScreen(s) && forall i: nat | s.ran <= i < s.ran + n :: !p(i).timerOn
    ensures var r := Lines(p, s, n); r.timers == s.timers && r.counter == s.counter
    decreases n
  {
    if n > 0 {
      LinesOff(p, StepLine(p, s), n - 1);
    }
  }

  // So from the second field on: once per field, for any number of fields.
  lemma {:induction false} Timer0EveryField(p: Program, s: Sched, n: nat, c: nat, lineMode: bool)
    requires AtBoundary(s) && s.counter == 224 && Fixed(p, s.ran, n * 263, c, lineMode)
    ensures var r := Fields(p, s, n);
            Count0(r.timers) == Count0(s.timers) + (if c <= 263 then n else 0) && r.counter == 224
    decreases n
  {
    hide Field, Count0, Count1;
    if n > 0 {
      assert n * 263 == 263 + (n - 1) * 263;
      TimersPerField(p, s, c, lineMode);
      FullField(p, s);
      Timer0EveryField(p, Field(p, s, false), n - 1, c, lineMode);
    }
  }
}
