/** What holds of the supervisor at every step, and at the end of every tick, of every run. */
module EvseInvariant {
  import opened J1772
  import Fault
  import GfciPolicy
  import OverTemp
  import opened SoftOverCurrent
  import opened Evse

  /** Holds between any two steps of a tick. */
  predicate Core(st: State) {
    && st.phase != Boot && st.phase != SelfTest
    && Fault.WellFormed(st.faults)
    && (st.session <==> st.phase == Charging)
    && (st.phase == Faulted <==> LatchedActive(st))
    && (st.latch <==> st.phase == Faulted)
    && (st.phase == Faulted ==> !st.closed && st.cp == StateF)
    && (st.window > 0 ==> st.cp == StateF)
    && Sound(RampOf(st))
  }

  /**
   * Holds at the end of every tick: the contactor is commanded closed exactly while
   * charging, and only with the pilot debounced at C.
   */
  predicate EndOfTick(st: State) {
    && Core(st)
    && (st.closed <==> st.phase == Charging)
    && (st.phase == Charging ==> st.pilot.committed == C)
  }

  /** Between `a` and `b` nothing was started, and no ground fault was forgotten. */
  predicate Calm(a: State, b: State) {
    && (b.phase == Charging ==> a.phase == Charging && b.closed == a.closed)
    && (b.closed ==> a.closed)
    && (Fault.GFCI in a.faults.active ==> Fault.GFCI in b.faults.active)
    && b.cStreak == a.cStreak
  }

  /** And nobody was authorised, or stopped being so. */
  predicate Steady(a: State, b: State) {
    Calm(a, b) && b.authorized == a.authorized
  }

  /**
   * Between `a` and `b` the over-temperature detector did not run, and the phase did not
   * move into or out of cooling down, except into a fault.
   */
  predicate HeatUntouched(a: State, b: State) {
    && b.overTemp == a.overTemp
    && (Fault.OVER_TEMP in b.faults.active <==> Fault.OVER_TEMP in a.faults.active)
    && (b.phase == a.phase || b.phase == Faulted
        || (a.phase != CoolingDown && a.phase != Faulted && b.phase != CoolingDown))
  }

  lemma TrippedIsCore(st: State, id: nat)
    requires Core(st) && 1 <= id < Fault.FIRST_SELF_CLEARING
    ensures Core(Tripped(st, id)) && Steady(st, Tripped(st, id)) && Tripped(st, id).phase == Faulted
    ensures Tripped(st, id).pilot == st.pilot
    ensures HeatUntouched(st, Tripped(st, id))
  {
    Fault.LatchedAfter(st.faults, id);
    Fault.OperationsKeepWellFormed(st.faults, id);
    if id in st.faults.active {
      assert id in Fault.Latched(st.faults.active);
    } else {
      assert id in Fault.Latched(Fault.Raised(st.faults, id).active);
    }
  }

  lemma MovedIsCore(st: State, next: Phase)
    requires Core(st) && st.phase != Faulted
    requires next == Ready || next == UserPaused || next == CoolingDown
    ensures Core(Transition(st, next)) && Steady(st, Transition(st, next)) && Transition(st, next).pilot == st.pilot
    ensures st.phase != CoolingDown && next != CoolingDown ==> HeatUntouched(st, Transition(st, next))
  {
  }

  /** Only the ground fault survives a request to clear everything; self-clearing faults are not counted. */
  lemma ClearedIsCore(st: State, id: nat)
    requires Core(st) && !ClearRefused(id)
    ensures var s := AfterClear(st, id);
      if s.phase == Faulted && !LatchedActive(s) then Core(Recovered(s)) && Steady(st, Recovered(s))
      else Core(s) && Steady(st, s)
  {
    Fault.OperationsKeepWellFormed(st.faults, id);
    var s := AfterClear(st, id);
    assert s.faults.active <= st.faults.active;
    assert Fault.Latched(s.faults.active) <= Fault.Latched(st.faults.active);
    assert Fault.SOFT_OVER_CURRENT !in Fault.Latched(st.faults.active);
  }

  lemma ProcessedIsCore(st: State, r: Request)
    requires Core(st)
    ensures Core(Processed(st, r)) && Steady(st, Processed(st, r))
  {
    match r
    case ClearFault(id) => if !ClearRefused(id) { ClearedIsCore(st, id); }
    case UserPause => if st.phase != Faulted { MovedIsCore(st, UserPaused); }
    case UserResume => if st.phase != Faulted { MovedIsCore(st, Ready); }
    case SimulateReplug => if st.phase != Faulted { MovedIsCore(st, UserPaused); }
    case LearnArm =>
    case Publish =>
    case RunGfciCalTest =>
    case Unknown =>
  }

  lemma {:induction false} DrainedIsCore(st: State, requests: seq<Request>)
    requires Core(st)
    ensures Core(Drained(st, requests)) && Steady(st, Drained(st, requests))
    decreases |requests|
  {
    if requests != [] {
      DrainedIsCore(st, requests[..|requests| - 1]);
      ProcessedIsCore(Drained(st, requests[..|requests| - 1]), requests[|requests| - 1]);
    }
  }

  lemma WindowServedIsCore(st: State)
    requires Core(st)
    ensures Core(WindowServed(st)) && Steady(st, WindowServed(st))
    ensures HeatUntouched(st, WindowServed(st))
  {
    if st.window == 1 && st.phase == UserPaused {
      MovedIsCore(st, Ready);
    }
  }

  lemma PilotSteppedIsCore(st: State, mv: int)
    requires Core(st)
    ensures Core(PilotStepped(st, mv)) && Steady(st, PilotStepped(st, mv))
    ensures HeatUntouched(st, PilotStepped(st, mv))
  {
  }

  lemma BegunIsCore(st: State, x: Input)
    requires Core(st)
    ensures Core(Begun(st, x)) && Steady(st, Begun(st, x))
  {
    var d := Drained(st, Taken(x.requests));
    DrainedIsCore(st, Taken(x.requests));
    WindowServedIsCore(d);
    PilotSteppedIsCore(WindowServed(d), x.mv);
  }

  lemma SafeFailIsCore(st: State, safeFail: bool)
    requires Core(st)
    ensures Core(SafeFailChecked(st, safeFail)) && Steady(st, SafeFailChecked(st, safeFail))
    ensures safeFail ==> SafeFailChecked(st, safeFail).phase == Faulted
    ensures SafeFailChecked(st, safeFail).pilot == st.pilot
    ensures HeatUntouched(st, SafeFailChecked(st, safeFail))
  {
    TrippedIsCore(st, Fault.CRASH_LOOP_SAFE_FAIL);
  }

  lemma GfciIsCore(st: State, x: GfciPolicy.Sample)
    requires Core(st)
    ensures Core(GfciChecked(st, x)) && Steady(st, GfciChecked(st, x))
    ensures st.phase == Faulted ==> GfciChecked(st, x).phase == Faulted
    ensures GfciChecked(st, x).pilot == st.pilot
    ensures HeatUntouched(st, GfciChecked(st, x))
  {
    var (c, act) := GfciPolicy.Stepped(st.gfci, x);
    var s := st.(gfci := c);
    TrippedIsCore(s, Fault.GFCI);
    assert act == GfciPolicy.RaiseFault ==> GfciChecked(st, x) == Tripped(s, Fault.GFCI);
  }

  lemma AdcIsCore(st: State, rail: bool)
    requires Core(st)
    ensures Core(AdcChecked(st, rail)) && Steady(st, AdcChecked(st, rail))
    ensures st.phase == Faulted ==> AdcChecked(st, rail).phase == Faulted
    ensures AdcChecked(st, rail).pilot == st.pilot
    ensures HeatUntouched(st, AdcChecked(st, rail))
  {
    TrippedIsCore(st.(adcStreak := Evse.Counted(st.adcStreak, rail, ADC_PERSIST_TICKS)), Fault.ADC_OUT_OF_RANGE);
  }

  lemma CpEIsCore(st: State)
    requires Core(st)
    ensures Core(CpEChecked(st)) && Steady(st, CpEChecked(st))
    ensures st.phase == Faulted ==> CpEChecked(st).phase == Faulted
    ensures CpEChecked(st).pilot == st.pilot
    ensures HeatUntouched(st, CpEChecked(st))
  {
    TrippedIsCore(st.(cpEStreak := Evse.Counted(st.cpEStreak, st.pilot.committed == E, CP_E_PERSIST_TICKS)),
                  Fault.CP_NO_PILOT);
  }

  lemma OverTempIsCore(st: State, x: OverTemp.Sample)
    requires Core(st)
    ensures Core(OverTempChecked(st, x)) && Steady(st, OverTempChecked(st, x))
    ensures st.phase == Faulted ==> OverTempChecked(st, x).phase == Faulted
    ensures OverTempChecked(st, x).pilot == st.pilot
  {
    var (c, act) := OverTemp.Stepped(st.overTemp.(faultActive := Fault.OVER_TEMP in st.faults.active), x);
    var s := st.(overTemp := c);
    SelfClearing(st.faults, Fault.OVER_TEMP);
    if st.phase != Faulted {
      if act == OverTemp.Trip {
        MovedIsCore(s.(faults := Fault.Raised(s.faults, Fault.OVER_TEMP)), CoolingDown);
      } else if act == OverTemp.Clear {
        MovedIsCore(s.(faults := Fault.Cleared(s.faults, Fault.OVER_TEMP)), Ready);
      }
    }
  }

  /** Raising or clearing a self-clearing fault does not touch the latched ones. */
  lemma SelfClearing(faults: Fault.Faults, id: nat)
    requires Fault.WellFormed(faults) && Fault.FIRST_SELF_CLEARING <= id < Fault.COUNT
    ensures Fault.WellFormed(Fault.Raised(faults, id)) && Fault.WellFormed(Fault.Cleared(faults, id))
    ensures Fault.Latched(Fault.Raised(faults, id).active) == Fault.Latched(faults.active)
    ensures Fault.Latched(Fault.Cleared(faults, id).active) == Fault.Latched(faults.active)
    ensures Fault.Raised(faults, id).active == faults.active + {id}
    ensures Fault.Cleared(faults, id).active == faults.active - {id}
  {
    Fault.LatchedAfter(faults, id);
    Fault.OperationsKeepWellFormed(faults, id);
  }

  lemma CheckedIsCore(st: State, x: Input)
    requires Core(st)
    ensures Core(Checked(st, x)) && Steady(st, Checked(st, x))
    ensures st.phase == Faulted || x.safeFail ==> Checked(st, x).phase == Faulted
    ensures Checked(st, x).pilot == st.pilot
  {
    var a := SafeFailChecked(st, x.safeFail);
    SafeFailIsCore(st, x.safeFail);
    var b := GfciChecked(a, GfciPolicy.Sample(x.gfciLow, x.gfciPolicy));
    GfciIsCore(a, GfciPolicy.Sample(x.gfciLow, x.gfciPolicy));
    var c := AdcChecked(b, OnRail(x.ac) || OnRail(x.ct) || OnRail(x.lct));
    AdcIsCore(b, OnRail(x.ac) || OnRail(x.ct) || OnRail(x.lct));
    CpEIsCore(c);
    OverTempIsCore(CpEChecked(c), OverTemp.Sample(x.ntc1, x.gun, true, true));
  }

  // --------------------------------------------------- phase, relay and pilot

  lemma HeldIsCore(st: State)
    requires Core(st) && st.phase == UserPaused
    ensures var s := Held(st);
      && Core(s) && s.closed == st.closed && s.pilot == st.pilot && s.faults == st.faults && s.phase != Charging
    ensures HeatUntouched(st, Held(st))
  {
  }

  lemma DweltIsCore(st: State, requireAuth: bool)
    requires Core(st) && (st.phase == Ready || st.phase == Charging)
    ensures var s := Dwelt(st, requireAuth);
      && Core(s) && s.closed == st.closed && s.pilot == st.pilot && s.faults == st.faults
      && (s.phase == Charging ==> s.pilot.committed == C)
    ensures HeatUntouched(st, Dwelt(st, requireAuth))
  {
  }

  lemma UpdatedIsCore(st: State, requireAuth: bool)
    requires Core(st)
    ensures var s := Updated(st, requireAuth);
      && Core(s) && s.closed == st.closed && s.pilot == st.pilot && s.faults == st.faults
      && (s.phase == Charging ==> s.pilot.committed == C)
      && (st.phase == Faulted ==> s.phase == Faulted)
    ensures HeatUntouched(st, Updated(st, requireAuth))
  {
    var s := if st.pilot.committed == A then st.(authorized := false) else st;
    if st.phase == UserPaused {
      HeldIsCore(s);
    } else if st.phase == Ready || st.phase == Charging {
      DweltIsCore(s, requireAuth);
    }
  }

  /** After the phase, the contactor: closed exactly while charging. */
  lemma DrivenEndsWell(st: State, x: Input)
    requires Core(st)
    ensures EndOfTick(Driven(st, x))
    ensures Driven(st, x).faults == st.faults && Driven(st, x).pilot == st.pilot
    ensures st.phase == Faulted ==> Driven(st, x).phase == Faulted
    ensures HeatUntouched(st, Driven(st, x))
  {
    var s := Updated(st, x.requireAuth);
    UpdatedIsCore(st, x.requireAuth);
    RelayEndsWell(s);
    CpKeepsEnd(RelayApplied(s), x.limits);
  }

  lemma RelayEndsWell(s: State)
    requires Core(s) && (s.phase == Charging ==> s.pilot.committed == C)
    ensures EndOfTick(RelayApplied(s))
  {
  }

  lemma CpKeepsEnd(s: State, l: Limits)
    requires EndOfTick(s)
    ensures EndOfTick(CpApplied(s, l))
  {
  }

  // -------------------------------------------------- detectors on the meter

  /** The pilot is as it was, and the phase too, unless there is a fault now. */
  predicate SameOrFaulted(a: State, b: State) {
    b.pilot == a.pilot && (b.phase == a.phase || b.phase == Faulted)
  }

  lemma EndKept(a: State, b: State)
    requires EndOfTick(a) && Core(b) && Calm(a, b) && SameOrFaulted(a, b)
    ensures EndOfTick(b)
  {
  }

  lemma AcIsCore(st: State, r: Reading)
    requires Core(st)
    ensures Core(AcChecked(st, r)) && Steady(st, AcChecked(st, r)) && SameOrFaulted(st, AcChecked(st, r))
    ensures HeatUntouched(st, AcChecked(st, r))
  {
    SelfClearing(st.faults, Fault.AC_ABSENT);
  }

  lemma WeldIsCore(st: State, r: Reading)
    requires Core(st)
    ensures Core(WeldChecked(st, r)) && Steady(st, WeldChecked(st, r)) && SameOrFaulted(st, WeldChecked(st, r))
    ensures HeatUntouched(st, WeldChecked(st, r))
  {
    if r.valid && r.scale > 0 {
      var e := EdgeNoted(st);
      var flow := Milliamps(r) >= FLOW_MA && !e.closed;
      TrippedIsCore(e.(meter := e.meter.(weldStreak := Evse.Counted(e.meter.weldStreak, flow, DETECTOR_PERSIST))),
                    Fault.RELAY_WELD);
    }
  }

  lemma StuckIsCore(st: State, r: Reading)
    requires Core(st)
    ensures Core(StuckChecked(st, r)) && Steady(st, StuckChecked(st, r)) && SameOrFaulted(st, StuckChecked(st, r))
    ensures HeatUntouched(st, StuckChecked(st, r))
  {
    if r.valid && r.scale > 0 {
      TrippedIsCore(st.(meter := st.meter.(
                          stuckStreak := Evse.Counted(st.meter.stuckStreak, Milliamps(r) < FLOW_MA, STUCK_OPEN_PERSIST))),
                    Fault.RELAY_STUCK_OPEN);
    }
  }

  lemma HardIsCore(st: State, l: Limits, r: Reading)
    requires Core(st)
    ensures Core(HardChecked(st, l, r)) && Steady(st, HardChecked(st, l, r)) && SameOrFaulted(st, HardChecked(st, l, r))
    ensures HeatUntouched(st, HardChecked(st, l, r))
  {
    if r.valid && r.scale > 0 {
      var over := Milliamps(r) > HocThreshold(Amps(l, st.derate));
      TrippedIsCore(st.(meter := st.meter.(hocStreak := Evse.Counted(st.meter.hocStreak, over, HOC_PERSIST_POLLS))),
                    Fault.HARD_OVER_CURRENT);
    }
  }

  lemma SoftIsCore(st: State, l: Limits, r: Reading)
    requires Core(st)
    ensures Core(SoftChecked(st, l, r)) && Steady(st, SoftChecked(st, l, r)) && SameOrFaulted(st, SoftChecked(st, l, r))
    ensures HeatUntouched(st, SoftChecked(st, l, r))
  {
    SelfClearing(st.faults, Fault.SOFT_OVER_CURRENT);
    if r.valid && r.scale > 0 {
      PolledIsSound(RampOf(st), l, Milliamps(r));
    }
  }

  lemma MeteredIsCore(st: State, x: Input)
    requires Core(st)
    ensures Core(Metered(st, x)) && Steady(st, Metered(st, x)) && SameOrFaulted(st, Metered(st, x))
    ensures HeatUntouched(st, Metered(st, x))
  {
    if st.meter.div + 1 >= POLL_TICKS {
      var r := x.reading;
      var a := AcChecked(st.(meter := st.meter.(div := 0)), r);
      AcIsCore(st.(meter := st.meter.(div := 0)), r);
      var b := WeldChecked(a, r);
      WeldIsCore(a, r);
      var c := StuckChecked(b, r);
      StuckIsCore(b, r);
      HardIsCore(c, x.limits, r);
      SoftIsCore(HardChecked(c, x.limits, r), x.limits, r);
    }
  }

  lemma SwipedIsCore(st: State, swipe: Swipe)
    requires Core(st)
    ensures Core(Swiped(st, swipe)) && Calm(st, Swiped(st, swipe)) && SameOrFaulted(st, Swiped(st, swipe))
    ensures HeatUntouched(st, Swiped(st, swipe))
  {
  }

  // -------------------------------------------------------------------- ticks

  /** A tick up to the pilot output. */
  function UpToPilot(st: State, x: Input): State {
    Performed(st, x, UP_TO_DRIVE)
  }

  /** The rest of it. */
  function AfterPilot(st: State, x: Input): State {
    Swiped(Metered(st, x), x.swipe)
  }

  lemma UpToPilotEndsWell(st: State, x: Input)
    requires Core(st)
    ensures EndOfTick(UpToPilot(st, x))
    ensures Fault.GFCI in st.faults.active ==> Fault.GFCI in UpToPilot(st, x).faults.active
    ensures x.safeFail ==> UpToPilot(st, x).phase == Faulted
  {
    StagesWrittenOut(st, x);
    BegunIsCore(st, x);
    CheckedIsCore(Begun(st, x), x);
    DrivenEndsWell(Checked(Begun(st, x), x), x);
  }

  lemma AfterPilotEndsWell(st: State, x: Input)
    requires EndOfTick(st)
    ensures EndOfTick(AfterPilot(st, x))
    ensures Fault.GFCI in st.faults.active ==> Fault.GFCI in AfterPilot(st, x).faults.active
    ensures st.phase == Faulted ==> AfterPilot(st, x).phase == Faulted
  {
    MeteredIsCore(st, x);
    EndKept(st, Metered(st, x));
    SwipedIsCore(Metered(st, x), x.swipe);
    EndKept(Metered(st, x), Swiped(Metered(st, x), x.swipe));
  }

  /** Every tick ends well, whatever its inputs. */
  lemma TickEndsWell(st: State, x: Input)
    requires Core(st)
    ensures EndOfTick(Tick(st, x))
    ensures Fault.GFCI in st.faults.active ==> Fault.GFCI in Tick(st, x).faults.active
    ensures x.safeFail ==> Tick(st, x).phase == Faulted
  {
    StagesWrittenOut(st, x);
    UpToPilotEndsWell(st, x);
    AfterPilotEndsWell(UpToPilot(st, x), x);
  }
}
