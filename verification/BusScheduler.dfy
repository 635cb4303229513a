// The scheduler as the program runs it: slices of a line, lines of a field.
// The processors are two functions, since nothing here looks inside them: what
// they leave in the registers at each line, and when the master halts.
module BusScheduler {
  import opened BusField

  class Machine {
    const program: Program
    const halts: nat -> bool

    var line: nat
    var boundaryDone: bool
    var clk: nat
    var ran: nat
    var counter: nat
    var hblank: bool
    var vblank: bool
    var odd: bool
    var halted: bool

    ghost var video: seq<VideoEvent>
    ghost var timers: seq<TimerEvent>

    ghost predicate Valid()
      reads this
    {
      line < LINES_TOTAL
    }

    ghost function Model(): Sched
      reads this
    {
      Sched(line, boundaryDone, clk, ran, counter, vblank, odd, video, timers)
    }

    constructor (program: Program, halts: nat -> bool)
      ensures Valid() && Model() == Sched(0, false, 0, 0, 0, false, false, [], [])
      ensures this.program == program && this.halts == halts
    {
      this.program, this.halts := program, halts;
      line, boundaryDone, clk, ran, counter := 0, false, 0, 0, 0;
      hblank, vblank, odd, halted := false, false, false, false;
      video, timers := [], [];
    }

    // The next slice: no longer than the quantum, and never over the H-Blank
    // edge or the field change.
    function Slice(pos: nat, quantum: nat, hb: bool, fieldChange: bool): (n: nat)
      requires 0 < quantum && pos < CYC_PER_LINE
      requires (hb <==> pos >= HBLANK_START) && (fieldChange <==> line == 0 && pos >= FIELD_CHANGE)
      reads `line
      ensures 0 < n <= quantum && pos + n <= CYC_PER_LINE
      ensures pos < HBLANK_START ==> pos + n <= HBLANK_START
      ensures line == 0 && pos < FIELD_CHANGE ==> pos + n <= FIELD_CHANGE
    {
      var n := if CYC_PER_LINE - pos > quantum then quantum else CYC_PER_LINE - pos;
      var n' := if !hb && pos < HBLANK_START && pos + n > HBLANK_START then HBLANK_START - pos else n;
      if line == 0 && !fieldChange && pos < FIELD_CHANGE && pos + n' > FIELD_CHANGE then FIELD_CHANGE - pos else n'
    }

    // The events of a line up to a position in it.
    ghost function EventsBy(start: nat, hb: bool, fieldChange: bool): seq<VideoEvent> {
      (if fieldChange then [FieldChange(start + FIELD_CHANGE)] else [])
      + (if hb then [HBlankIn(start + HBLANK_START)] else [])
    }

    lemma EventsGrow(start: nat, fieldChange: bool)
      ensures EventsBy(start, false, false) == []
      ensures EventsBy(start, false, true) == EventsBy(start, false, false) + [FieldChange(start + FIELD_CHANGE)]
      ensures EventsBy(start, true, fieldChange) ==
              EventsBy(start, false, fieldChange) + [HBlankIn(start + HBLANK_START)]
    {
    }

    // They lead up to the events of the whole line.
    lemma EventsOfLine(start: nat, hb: bool, fieldChange: bool)
      requires (fieldChange ==> line == 0) && (hb ==> (fieldChange <==> line == 0))
      ensures EventsBy(start, hb, fieldChange) <= LineEvents(line, start)
      ensures hb ==> EventsBy(start, hb, fieldChange) == LineEvents(line, start)
    {
    }

    // `saturn_run_line`, for every quantum.
    method RunLine(slice: nat)
      requires Valid()
      modifies `clk, `hblank, `halted, `video
      ensures Valid() && !hblank
      ensures !halted ==> Model() == AfterLine(old(Model()))
      ensures halted ==> old(clk) <= clk <= old(clk) + CYC_PER_LINE
      ensures halted ==> old(video) <= video <= AfterLine(old(Model())).video
    {
      hide Slice, EventsBy, LineEvents;
      EventsGrow(clk, line == 0);
      var quantum := if slice == 0 || slice > CYC_PER_LINE then CYC_PER_LINE else slice;
      var pos, hb, fieldChange := 0, false, false;
      halted := false;
      while pos < CYC_PER_LINE && !halted
        invariant pos <= CYC_PER_LINE && clk == old(clk) + pos
        invariant (hb <==> pos >= HBLANK_START) && (fieldChange <==> line == 0 && pos >= FIELD_CHANGE)
        invariant video == old(video) + EventsBy(old(clk), hb, fieldChange)
        decreases CYC_PER_LINE - pos, !halted
      {
        var n := Slice(pos, quantum, hb, fieldChange);
        pos := pos + n;
        clk := clk + n;
        if line == 0 && !fieldChange && pos >= FIELD_CHANGE {
          fieldChange := true;
          video := video + [FieldChange(clk)];
        }
        if !hb && pos >= HBLANK_START {
          hb := true;
          hblank := true;
          video := video + [HBlankIn(clk)];
        }
        halted := halts(clk);
      }
      hblank := false;
      EventsOfLine(old(clk), hb, fieldChange);
    }

    // `scu_check_timer0` and the two timer steps.
    method CheckTimer0()
      modifies `timers
      ensures timers == old(timers) + Fired0(program(ran), counter, clk)
    {
      var r := program(ran);
      if r.timerOn && counter == r.compare {
        timers := timers + [Timer0(clk)];
      }
    }

    method TimerVBlankOut()
      modifies `counter, `timers
      ensures Model() == TimerReset(program, old(Model()))
    {
      hide Fired0;
      counter := 0;
      CheckTimer0();
    }

    method TimerHBlank()
      modifies `counter, `timers
      ensures Model() == TimerLine(program, old(Model()))
    {
      hide Fired0;
      var r := program(ran);
      if !r.timerOn {
        return;
      }
      counter := (counter + 1) % 0x200;
      CheckTimer0();
      ghost var t := timers;
      if !r.timer1Line || counter == r.compare {
        timers := timers + [Timer1(clk)];
      } else {
        assert t + [] == t;
      }
    }

    method VBlankOutEdge()
      modifies `vblank, `counter, `boundaryDone, `video, `timers
      ensures Model() == OutEdge(program, old(Model()))
    {
      hide TimerReset;
      vblank := false;
      video := video + [VBlankOut(clk)];
      ghost var s := Model();
      TimerVBlankOut();
      ghost var t := TimerReset(program, s);
      boundaryDone := true;
    }

    method VBlankInEdge()
      modifies `vblank, `odd, `boundaryDone, `video
      ensures Model() == InEdge(program, old(Model()))
    {
      vblank := true;
      odd := if program(ran).interlaced then !odd else true;
      video := video + [VBlankIn(clk)];
      boundaryDone := true;
    }

    // One whole line and the step to the next.
    method RunAndStep(slice: nat)
      requires Valid()
      modifies `line, `boundaryDone, `clk, `ran, `counter, `hblank, `halted, `video, `timers
      ensures Valid() && !hblank && (!halted ==> Model() == StepLine(program, old(Model())))
    {
      hide TimerLine;
      TimerHBlank();
      assert line == old(line);
      RunLine(slice);
      if halted {
        return;
      }
      line := if line + 1 >= LINES_TOTAL then 0 else line + 1;
      boundaryDone := false;
      ran := ran + 1;
    }

    // `saturn_run_field`: unless the master halts, what it does depends on
    // neither the quantum nor where the slices fall.
    method RunField(slice: nat)
      requires Valid()
      modifies this
      ensures Valid() && (!halted ==> Model() == Field(program, old(Model()), false))
    {
      hide StepLine, OutEdge, InEdge;
      var visible := false;
      halted := false;
      while true
        invariant Valid() && !halted
        invariant Field(program, old(Model()), false) == Field(program, Model(), visible)
        decreases if visible then 0 else 1, LinesTo(Model(), if visible then LINE_VBLANK else 0)
      {
        FieldUnfolds(visible);
        LinesToFalls(program, Model());
        if !boundaryDone && line == 0 {
          VBlankOutEdge();
          visible := true;
        } else if !boundaryDone && line == LINE_VBLANK {
          VBlankInEdge();
          if visible {
            break;
          }
        }
        RunAndStep(slice);
        if halted {
          break;
        }
      }
    }

    lemma FieldUnfolds(visible: bool)
      requires Valid()
      ensures var s := Model();
              && (AtOut(s) ==>
                    Field(program, s, visible) == Field(program, StepLine(program, OutEdge(program, s)), true))
              && (AtIn(s) && visible ==> Field(program, s, visible) == InEdge(program, s))
              && (AtIn(s) && !visible ==>
                    Field(program, s, visible) == Field(program, StepLine(program, InEdge(program, s)), false))
              && (!AtOut(s) && !AtIn(s) ==> Field(program, s, visible) == Field(program, StepLine(program, s), visible))
    {
    }
  }
}
