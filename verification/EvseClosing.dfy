/**
 * Exactly when the contactor closes, what a pause and a resume do, and what the pilot is
 * driven to: the outputs of the supervisor in terms of its history and inputs.
 */
module EvseClosing {
  import opened J1772
  import Fault
  import opened SoftOverCurrent
  import opened Evse
  import opened EvseInvariant
  import opened EvseRuns
  import opened EvseMeter
  import opened EvseWindow

  // -------------------------------------------------------------------- the dwell

  /** The state after the requests and the checks of a tick. */
  function Checks(st: State, x: Input): State {
    Performed(st, x, UP_TO_CHECK)
  }

  /** The tick counts towards the dwell: ready or charging, with the pilot at C. */
  predicate DwellSeen(st: State, x: Input) {
    var b := Checks(st, x);
    (b.phase == Ready || b.phase == Charging) && b.pilot.committed == C
  }

  function DwellHistory(st: State, xs: seq<Input>): (h: seq<bool>)
    ensures |h| == |xs|
  {
    if xs == [] then [] else DwellHistory(st, xs[..|xs| - 1]) + [DwellSeen(Run(st, xs[..|xs| - 1]), xs[|xs| - 1])]
  }

  lemma UpdatedDwell(b: State, requireAuth: bool)
    requires Core(b)
    ensures Updated(b, requireAuth).cStreak ==
      Evse.Counted(b.cStreak, (b.phase == Ready || b.phase == Charging) && b.pilot.committed == C, C_DWELL_TICKS)
  {
  }

  lemma TickDwell(st: State, x: Input)
    requires EndOfTick(st)
    ensures Checks(st, x).cStreak == st.cStreak && Checks(st, x).authorized == st.authorized
    ensures Tick(st, x).cStreak == Evse.Counted(st.cStreak, DwellSeen(st, x), C_DWELL_TICKS)
  {
    StagesWrittenOut(st, x);
    BegunIsCore(st, x);
    var b := Checked(Begun(st, x), x);
    CheckedIsCore(Begun(st, x), x);
    UpdatedDwell(b, x.requireAuth);
    DrivenEndsWell(b, x);
    MeteredIsCore(Driven(b, x), x);
    SwipedIsCore(Metered(Driven(b, x), x), x.swipe);
  }

  lemma {:induction false} DwellExactly(st: State, xs: seq<Input>)
    requires EndOfTick(st) && st.cStreak == 0
    ensures Run(st, xs).cStreak == CountedAll(DwellHistory(st, xs), C_DWELL_TICKS)
    decreases |xs|
  {
    if xs != [] {
      var ys, x := xs[..|xs| - 1], xs[|xs| - 1];
      DwellExactly(st, ys);
      RunEndsWell(st, ys);
      TickDwell(Run(st, ys), x);
      AppendObservation(DwellHistory(st, ys), [DwellSeen(Run(st, ys), x)], C_DWELL_TICKS);
    }
  }

  /**
   * The contactor closes in a tick exactly if no latched fault is up at its end, the pilot is
   * at C, the charger is ready after the checks and was ready or charging at C in the
   * forty-nine ticks before, and, where a card is required, a known card was presented
   * outside the learn window with no unplugging since.
   */
  lemma ClosesExactly(st: State, xs: seq<Input>, x: Input)
    requires EndOfTick(st) && st.cStreak == 0 && !st.authorized
    requires !Run(st, xs).closed
    ensures var s := Run(st, xs);
      Tick(s, x).closed <==>
        && !LatchedActive(Tick(s, x)) && Checks(s, x).pilot.committed == C && Checks(s, x).phase == Ready
        && LastAll(DwellHistory(st, xs), 49)
        && (x.requireAuth ==> Granted(History(st, xs)))
  {
    var s := Run(st, xs);
    RunEndsWell(st, xs);
    TickDwell(s, x);
    DwellExactly(st, xs);
    LimitReached(DwellHistory(st, xs), C_DWELL_TICKS, C_DWELL_TICKS - 1);
    HistoryExplains(st, xs);
    ClosedExactly(s, x);
    NothingStarts(s, x);
  }

  lemma NothingStarts(s: State, x: Input)
    requires EndOfTick(s) && !s.closed
    ensures Checks(s, x).phase != Charging
  {
    StagesWrittenOut(s, x);
    BegunIsCore(s, x);
    CheckedIsCore(Begun(s, x), x);
  }

  // ------------------------------------------------------------ pause and resume

  lemma LastRequest(st: State, rs: seq<Request>)
    requires rs != []
    ensures Drained(st, rs) == Processed(Drained(st, rs[..|rs| - 1]), rs[|rs| - 1])
  {
  }

  /** The state the requests of a tick leave. */
  function Requested(st: State, x: Input): State {
    Drained(st, Taken(x.requests))
  }

  predicate EndsWith(x: Input, r: Request) {
    Taken(x.requests) != [] && Taken(x.requests)[|Taken(x.requests)| - 1] == r
  }

  /** Cooling down nobody dwells. */
  lemma CoolingHasNoDwell(st: State, xs: seq<Input>)
    requires EndOfTick(st) && st.phase != CoolingDown
    ensures Run(st, xs).phase == CoolingDown ==> Run(st, xs).cStreak == 0
  {
    if xs != [] {
      var ys, x := xs[..|xs| - 1], xs[|xs| - 1];
      RunEndsWell(st, ys);
      CoolingEndsDwell(Run(st, ys), x);
    }
  }

  lemma CoolingEndsDwell(s: State, x: Input)
    requires EndOfTick(s)
    ensures Tick(s, x).phase == CoolingDown ==> Tick(s, x).cStreak == 0
  {
    TickDwell(s, x);
    StagesWrittenOut(s, x);
    BegunIsCore(s, x);
    var b := Checked(Begun(s, x), x);
    CheckedIsCore(Begun(s, x), x);
    DrivenEndsWell(b, x);
    CoolingIsNotDwelling(b, x.requireAuth);
    MeteredIsCore(Driven(b, x), x);
    SwipedIsCore(Metered(Driven(b, x), x), x.swipe);
  }

  lemma CoolingIsNotDwelling(b: State, requireAuth: bool)
    requires Core(b)
    ensures Updated(b, requireAuth).phase == CoolingDown ==> b.phase == CoolingDown
  {
  }

  lemma RequestsDoNotCool(st: State, rs: seq<Request>)
    requires Core(st) && st.phase != CoolingDown
    ensures Drained(st, rs).phase != CoolingDown
    decreases |rs|
  {
    if rs != [] {
      RequestsDoNotCool(st, rs[..|rs| - 1]);
      DrainedIsCore(st, rs[..|rs| - 1]);
      RequestDoesNotCool(Drained(st, rs[..|rs| - 1]), rs[|rs| - 1]);
    }
  }

  lemma RequestDoesNotCool(st: State, r: Request)
    requires st.phase != CoolingDown
    ensures Processed(st, r).phase != CoolingDown
  {
  }

  /** A pause takes a charger that is ready or charging into the pause, and no other. */
  lemma PausePauses(st: State)
    ensures Processed(st, UserPause).phase == UserPaused <==>
      st.phase == Ready || st.phase == Charging || st.phase == UserPaused
    ensures Processed(st, UserPause).phase != Ready && Processed(st, UserPause).phase != Charging
    ensures Processed(st, UserPause).window == st.window
  {
  }

  /** A resume takes it out of the pause, ready. */
  lemma ResumeResumes(st: State)
    ensures Processed(st, UserResume).phase == if st.phase == UserPaused then Ready else st.phase
  {
  }

  /** A tick whose last request is a pause ends with the contactor open, whatever else it brings. */
  lemma PauseOpens(boot: BootInput, xs: seq<Input>, x: Input)
    requires EndsWith(x, UserPause)
    ensures !Run(Booted(boot), xs + [x]).closed
  {
    assert (xs + [x])[..|xs|] == xs;
    BootEndsWell(boot);
    var s := Run(Booted(boot), xs);
    RunEndsWell(Booted(boot), xs);
    CoolingHasNoDwell(Booted(boot), xs);
    PausedTickOpens(s, x);
  }

  lemma PausedTickOpens(s: State, x: Input)
    requires EndOfTick(s) && (s.phase == CoolingDown ==> s.cStreak == 0)
    requires EndsWith(x, UserPause)
    ensures !Tick(s, x).closed
  {
    var rs := Taken(x.requests);
    LastRequest(s, rs);
    PausePauses(Drained(s, rs[..|rs| - 1]));
    var d := Requested(s, x);
    DrainedIsCore(s, rs);
    ClosedExactly(s, x);
    TickDwell(s, x);
    if s.phase != CoolingDown {
      RequestsDoNotCool(s, rs);
    }
    AfterPause(s, d, x);
  }

  /** After the requests have left the charger neither ready nor charging. */
  lemma AfterPause(s: State, d: State, x: Input)
    requires Core(s) && Core(d) && d == Requested(s, x) && d.phase != Ready && d.phase != Charging
    ensures var b := Checks(s, x);
      && b.phase != Charging
      && (b.phase == Ready ==> b.pilot.committed != C || d.phase == CoolingDown)
  {
    StagesWrittenOut(s, x);
    var a := Begun(s, x);
    WindowServedIsCore(d);
    PilotSteppedIsCore(WindowServed(d), x.mv);
    WindowEndsAtNoPilot(d, x.mv);
    CheckedIsCore(a, x);
    CheckedPhase(a, x);
  }

  lemma WindowEndsAtNoPilot(d: State, mv: int)
    requires d.phase != Ready && d.phase != Charging
    ensures var a := PilotStepped(WindowServed(d), mv);
      a.phase == d.phase || (a.phase == Ready && d.phase == UserPaused && a.pilot.committed != C)
  {
  }

  /**
   * Without requests a pause outside a replug window goes on exactly unless a latched fault
   * comes up, the sensors trip, or the vehicle is unplugged.
   */
  lemma PauseHolds(s: State, x: Input)
    requires EndOfTick(s) && s.phase == UserPaused && s.window == 0 && x.requests == []
    ensures Tick(s, x).phase == UserPaused <==>
      !LatchedActive(Tick(s, x)) && !Trips(s, x) && Checks(s, x).pilot.committed != A
  {
    StagesWrittenOut(s, x);
    assert Requested(s, x) == s;
    var a := Begun(s, x);
    assert a == PilotStepped(s, x.mv);
    BegunIsCore(s, x);
    CheckedIsCore(a, x);
    CheckedPhase(a, x);
    var b := Checked(a, x);
    DrivenEndsWell(b, x);
    PausedOrNot(b, x.requireAuth);
    MeteredIsCore(Driven(b, x), x);
    SwipedIsCore(Metered(Driven(b, x), x), x.swipe);
  }

  lemma PausedOrNot(b: State, requireAuth: bool)
    requires Core(b)
    ensures Updated(b, requireAuth).phase == UserPaused <==> b.phase == UserPaused && b.pilot.committed != A
  {
  }

  // ------------------------------------------------------------- the pilot output

  /**
   * What the pilot is driven to after the phase and the contactor: state F in a window and in
   * a fault; the current on offer exactly while ready or charging with a vehicle at B, C or D;
   * and a constant high level otherwise: unplugged, paused or cooling down.
   */
  lemma PilotOutput(st: State, x: Input)
    requires EndOfTick(st)
    ensures var c := UpToPilot(st, x);
      && (c.cp == StateF <==> c.window > 0 || c.phase == Faulted)
      && (c.cp.Advertise? <==>
            && c.window == 0 && (c.phase == Ready || c.phase == Charging)
            && (c.pilot.committed == B || c.pilot.committed == C || c.pilot.committed == D))
      && (c.cp.Advertise? ==> c.cp.amps == Amps(x.limits, c.derate))
      && (c.cp == IdleHigh <==>
            && c.window == 0 && c.phase != Faulted
            && (c.phase == CoolingDown || c.phase == UserPaused
                || !(c.pilot.committed == B || c.pilot.committed == C || c.pilot.committed == D)))
  {
    StagesWrittenOut(st, x);
    BegunIsCore(st, x);
    var b := Checked(Begun(st, x), x);
    CheckedIsCore(Begun(st, x), x);
    UpdatedIsCore(b, x.requireAuth);
    RelayIsCore(Updated(b, x.requireAuth));
    OutputMeans(RelayApplied(Updated(b, x.requireAuth)), x.limits);
  }

  lemma RelayIsCore(s: State)
    requires Core(s)
    ensures RelayApplied(s).phase != Boot && RelayApplied(s).phase != SelfTest
  {
  }

  lemma OutputMeans(s: State, l: Limits)
    requires s.phase != Boot && s.phase != SelfTest
    ensures var c := CpApplied(s, l);
      && c == s.(cp := c.cp)
      && (c.cp == StateF <==> s.window > 0 || s.phase == Faulted)
      && (c.cp.Advertise? <==>
            && s.window == 0 && (s.phase == Ready || s.phase == Charging)
            && (s.pilot.committed == B || s.pilot.committed == C || s.pilot.committed == D))
      && (c.cp.Advertise? ==> c.cp.amps == Amps(l, s.derate))
      && (c.cp == IdleHigh <==>
            && s.window == 0 && s.phase != Faulted
            && (s.phase == CoolingDown || s.phase == UserPaused
                || !(s.pilot.committed == B || s.pilot.committed == C || s.pilot.committed == D)))
  {
  }

  /** To the end of the tick it only changes for a fault: then it is state F. */
  lemma PilotKept(st: State, x: Input)
    requires EndOfTick(st)
    ensures var c, t := UpToPilot(st, x), Tick(st, x);
      t.cp == if t.phase == Faulted then StateF else c.cp
  {
    StagesWrittenOut(st, x);
    UpToPilotEndsWell(st, x);
    RestKeepsPilot(UpToPilot(st, x), x);
  }

  lemma RestKeepsPilot(c: State, x: Input)
    requires EndOfTick(c)
    ensures var t := Swiped(Metered(c, x), x.swipe);
      t.cp == if t.phase == Faulted then StateF else c.cp
  {
    MeteredIsCore(c, x);
    MeteredKeepsPilot(c, x);
    SwipeKeepsPilot(Metered(c, x), x.swipe);
  }

  lemma SwipeKeepsPilot(st: State, swipe: Swipe)
    ensures Swiped(st, swipe).cp == st.cp && Swiped(st, swipe).phase == st.phase
  {
  }

  lemma MeteredKeepsPilot(c: State, x: Input)
    requires EndOfTick(c)
    ensures Metered(c, x).phase != Faulted ==> Metered(c, x).cp == c.cp
  {
    if c.meter.div + 1 >= POLL_TICKS {
      var a := AcChecked(c.(meter := c.meter.(div := 0)), x.reading);
      AcIsCore(c.(meter := c.meter.(div := 0)), x.reading);
      WeldIsCore(a, x.reading);
      WeldPilot(a, x.reading);
      var b := WeldChecked(a, x.reading);
      StuckIsCore(b, x.reading);
      StuckPilot(b, x.reading);
      var d := StuckChecked(b, x.reading);
      HardIsCore(d, x.limits, x.reading);
      HardPilot(d, x.limits, x.reading);
      SoftIsCore(HardChecked(d, x.limits, x.reading), x.limits, x.reading);
    }
  }

  lemma TrippedOutput(st: State, id: nat)
    requires Core(st) && 1 <= id < Fault.FIRST_SELF_CLEARING
    ensures Tripped(st, id).phase == Faulted
  {
    TrippedIsCore(st, id);
  }

  lemma WeldPilot(st: State, r: Reading)
    requires Core(st)
    ensures WeldChecked(st, r).phase != Faulted ==> WeldChecked(st, r).cp == st.cp && st.phase != Faulted
  {
    WeldIsCore(st, r);
    if r.valid && r.scale > 0 {
      var e := EdgeNoted(st);
      var flow := Milliamps(r) >= FLOW_MA && !e.closed;
      TrippedOutput(e.(meter := e.meter.(weldStreak := Evse.Counted(e.meter.weldStreak, flow, DETECTOR_PERSIST))),
                    Fault.RELAY_WELD);
    }
  }

  lemma StuckPilot(st: State, r: Reading)
    requires Core(st)
    ensures StuckChecked(st, r).phase != Faulted ==> StuckChecked(st, r).cp == st.cp && st.phase != Faulted
  {
    StuckIsCore(st, r);
    if r.valid && r.scale > 0 {
      TrippedOutput(st.(meter := st.meter.(
                          stuckStreak := Evse.Counted(st.meter.stuckStreak, Milliamps(r) < FLOW_MA, STUCK_OPEN_PERSIST))),
                    Fault.RELAY_STUCK_OPEN);
    }
  }

  lemma HardPilot(st: State, l: Limits, r: Reading)
    requires Core(st)
    ensures HardChecked(st, l, r).phase != Faulted ==> HardChecked(st, l, r).cp == st.cp && st.phase != Faulted
  {
    HardIsCore(st, l, r);
    if r.valid && r.scale > 0 {
      var over := Milliamps(r) > HocThreshold(Amps(l, st.derate));
      TrippedOutput(st.(meter := st.meter.(hocStreak := Evse.Counted(st.meter.hocStreak, over, HOC_PERSIST_POLLS))),
                    Fault.HARD_OVER_CURRENT);
    }
  }
}
