/**
 * The detectors that run every tick, in terms of the whole history of a run: exactly when
 * the ground fault is up, and what must have been seen before a stuck analog input or a
 * missing pilot is reported.
 */
module EvseSensors {
  import opened J1772
  import Fault
  import GfciPolicy
  import OverTemp
  import opened SoftOverCurrent
  import opened Evse
  import opened EvseInvariant
  import opened EvseRuns

  /** Nothing these detectors remember has grown, and none of their faults has come up. */
  predicate Untouched(a: State, b: State) {
    && b.gfci == a.gfci && b.adcStreak == a.adcStreak && b.cpEStreak <= a.cpEStreak
    && (Fault.GFCI in b.faults.active <==> Fault.GFCI in a.faults.active)
    && (Fault.ADC_OUT_OF_RANGE in b.faults.active ==> Fault.ADC_OUT_OF_RANGE in a.faults.active)
    && (Fault.CP_NO_PILOT in b.faults.active ==> Fault.CP_NO_PILOT in a.faults.active)
  }

  lemma UntouchedTwice(a: State, b: State, c: State)
    requires Untouched(a, b) && Untouched(b, c)
    ensures Untouched(a, c)
  {
  }

  lemma MovedUntouched(st: State, next: Phase)
    ensures Untouched(st, Transition(st, next))
  {
  }

  lemma ClearedUntouched(st: State, id: nat)
    requires !ClearRefused(id)
    ensures Untouched(st, AfterClear(st, id))
  {
  }

  lemma RecoveredUntouched(st: State)
    ensures Untouched(st, Recovered(st))
  {
    MovedUntouched(st, Ready);
  }

  lemma ProcessedUntouched(st: State, r: Request)
    ensures Untouched(st, Processed(st, r))
  {
    match r
    case ClearFault(id) =>
      if !ClearRefused(id) {
        ClearedUntouched(st, id);
        RecoveredUntouched(AfterClear(st, id));
      }
    case UserPause => MovedUntouched(st, UserPaused);
    case UserResume => MovedUntouched(st, Ready);
    case SimulateReplug => MovedUntouched(st, UserPaused);
    case LearnArm =>
    case Publish =>
    case RunGfciCalTest =>
    case Unknown =>
  }

  lemma {:induction false} DrainedUntouched(st: State, rs: seq<Request>)
    ensures Untouched(st, Drained(st, rs))
    decreases |rs|
  {
    if rs != [] {
      DrainedUntouched(st, rs[..|rs| - 1]);
      ProcessedUntouched(Drained(st, rs[..|rs| - 1]), rs[|rs| - 1]);
    }
  }

  lemma WindowUntouched(st: State)
    ensures Untouched(st, WindowServed(st))
  {
  }

  lemma BegunUntouched(st: State, x: Input)
    ensures Untouched(st, Begun(st, x))
  {
    var d := Drained(st, Taken(x.requests));
    DrainedUntouched(st, Taken(x.requests));
    WindowUntouched(d);
    UntouchedTwice(st, d, WindowServed(d));
  }

  lemma OtherTripUntouched(st: State, id: nat)
    requires id != Fault.GFCI && id != Fault.ADC_OUT_OF_RANGE && id != Fault.CP_NO_PILOT
    ensures Untouched(st, Tripped(st, id))
  {
  }

  lemma OverTempUntouched(st: State, x: OverTemp.Sample)
    ensures Untouched(st, OverTempChecked(st, x))
  {
    var (c, act) := OverTemp.Stepped(st.overTemp.(faultActive := Fault.OVER_TEMP in st.faults.active), x);
    var s := st.(overTemp := c);
    MovedUntouched(s.(faults := Fault.Raised(s.faults, Fault.OVER_TEMP)), CoolingDown);
    MovedUntouched(s.(faults := Fault.Cleared(s.faults, Fault.OVER_TEMP)), Ready);
  }

  lemma DrivenUntouched(st: State, x: Input)
    ensures Untouched(st, Driven(st, x))
  {
    UpdatedUntouched(st, x.requireAuth);
  }

  lemma UpdatedUntouched(st: State, requireAuth: bool)
    ensures Untouched(st, Updated(st, requireAuth))
  {
    var s := if st.pilot.committed == A then st.(authorized := false) else st;
    MovedUntouched(s.(cStreak := 0), Ready);
    DweltUntouched(s, requireAuth);
  }

  lemma DweltUntouched(st: State, requireAuth: bool)
    ensures Untouched(st, Dwelt(st, requireAuth))
  {
    var s := st.(cStreak := Evse.Counted(st.cStreak, st.pilot.committed == C, C_DWELL_TICKS));
    MovedUntouched(s, Charging);
    MovedUntouched(s, Ready);
  }

  lemma AcUntouched(st: State, r: Reading)
    ensures Untouched(st, AcChecked(st, r))
  {
  }

  lemma WeldUntouched(st: State, r: Reading)
    ensures Untouched(st, WeldChecked(st, r))
  {
    if r.valid && r.scale > 0 {
      var e := EdgeNoted(st);
      OtherTripUntouched(e.(meter := e.meter.(weldStreak := Evse.Counted(e.meter.weldStreak,
                                                                        Milliamps(r) >= FLOW_MA && !e.closed, DETECTOR_PERSIST))),
                         Fault.RELAY_WELD);
    }
  }

  lemma StuckUntouched(st: State, r: Reading)
    ensures Untouched(st, StuckChecked(st, r))
  {
    if r.valid && r.scale > 0 {
      OtherTripUntouched(st.(meter := st.meter.(stuckStreak := Evse.Counted(st.meter.stuckStreak, Milliamps(r) < FLOW_MA,
                                                                           STUCK_OPEN_PERSIST))),
                         Fault.RELAY_STUCK_OPEN);
    }
  }

  lemma HardUntouched(st: State, l: Limits, r: Reading)
    ensures Untouched(st, HardChecked(st, l, r))
  {
    if r.valid && r.scale > 0 {
      var over := Milliamps(r) > HocThreshold(Amps(l, st.derate));
      OtherTripUntouched(st.(meter := st.meter.(hocStreak := Evse.Counted(st.meter.hocStreak, over, HOC_PERSIST_POLLS))),
                         Fault.HARD_OVER_CURRENT);
    }
  }

  lemma SoftUntouched(st: State, l: Limits, r: Reading)
    ensures Untouched(st, SoftChecked(st, l, r))
  {
  }

  lemma MeteredUntouched(st: State, x: Input)
    ensures Untouched(st, Metered(st, x))
  {
    if st.meter.div + 1 >= POLL_TICKS {
      var r := x.reading;
      var z := st.(meter := st.meter.(div := 0));
      var a := AcChecked(z, r);
      AcUntouched(z, r);
      var b := WeldChecked(a, r);
      WeldUntouched(a, r);
      UntouchedTwice(z, a, b);
      var c := StuckChecked(b, r);
      StuckUntouched(b, r);
      UntouchedTwice(z, b, c);
      var d := HardChecked(c, x.limits, r);
      HardUntouched(c, x.limits, r);
      UntouchedTwice(z, c, d);
      SoftUntouched(d, x.limits, r);
      UntouchedTwice(z, d, SoftChecked(d, x.limits, r));
    }
  }

  lemma AfterChecksUntouched(st: State, x: Input)
    ensures Untouched(st, Swiped(Metered(Driven(st, x), x), x.swipe))
  {
    DrivenUntouched(st, x);
    AfterDrivenUntouched(Driven(st, x), x);
    UntouchedTwice(st, Driven(st, x), Swiped(Metered(Driven(st, x), x), x.swipe));
  }

  lemma AfterDrivenUntouched(c: State, x: Input)
    ensures Untouched(c, Swiped(Metered(c, x), x.swipe))
  {
    MeteredUntouched(c, x);
    SwipedUntouched(Metered(c, x), x.swipe);
    UntouchedTwice(c, Metered(c, x), Swiped(Metered(c, x), x.swipe));
  }

  lemma SwipedUntouched(st: State, swipe: Swipe)
    ensures Untouched(st, Swiped(st, swipe))
  {
  }

  // ---------------------------------------------------------- one tick's checks

  function GfciSampleOf(x: Input): GfciPolicy.Sample {
    GfciPolicy.Sample(x.gfciLow, x.gfciPolicy)
  }

  /** The states the detectors find. */
  function AtGfci(st: State, x: Input): State {
    SafeFailChecked(Begun(st, x), x.safeFail)
  }

  function AtAdc(st: State, x: Input): State {
    GfciChecked(AtGfci(st, x), GfciSampleOf(x))
  }

  function Rail(x: Input): bool {
    OnRail(x.ac) || OnRail(x.ct) || OnRail(x.lct)
  }

  function AtCpE(st: State, x: Input): State {
    AdcChecked(AtAdc(st, x), Rail(x))
  }

  /** What the tick shows the rail detector: nothing while there is a fault. */
  predicate RailSeen(st: State, x: Input) {
    Rail(x) && AtAdc(st, x).phase != Faulted
  }

  /** What it shows the pilot detector: nothing during a fault or a replug window. */
  predicate NoPilotSeen(st: State, x: Input) {
    var s := AtCpE(st, x);
    s.phase != Faulted && s.window == 0 && s.pilot.committed == E
  }

  lemma GfciStep(st: State, x: GfciPolicy.Sample)
    ensures var s := GfciChecked(st, x);
      && s.gfci == GfciPolicy.Stepped(st.gfci, x).0
      && s.adcStreak == st.adcStreak && s.cpEStreak == st.cpEStreak
      && (Fault.GFCI in s.faults.active <==>
            Fault.GFCI in st.faults.active || GfciPolicy.Stepped(st.gfci, x).1 == GfciPolicy.RaiseFault)
      && (Fault.ADC_OUT_OF_RANGE in s.faults.active ==> Fault.ADC_OUT_OF_RANGE in st.faults.active)
      && (Fault.CP_NO_PILOT in s.faults.active ==> Fault.CP_NO_PILOT in st.faults.active)
  {
  }

  lemma AdcStep(st: State, rail: bool)
    requires Core(st)
    ensures var s := AdcChecked(st, rail);
      && s.gfci == st.gfci && s.cpEStreak == st.cpEStreak
      && s.adcStreak == Evse.Counted(st.adcStreak, rail && st.phase != Faulted, ADC_PERSIST_TICKS)
      && (Fault.GFCI in s.faults.active <==> Fault.GFCI in st.faults.active)
      && (Fault.CP_NO_PILOT in s.faults.active ==> Fault.CP_NO_PILOT in st.faults.active)
      && (Fault.ADC_OUT_OF_RANGE in s.faults.active <==>
            Fault.ADC_OUT_OF_RANGE in st.faults.active || s.adcStreak >= ADC_PERSIST_TICKS)
  {
  }

  lemma CpEStep(st: State)
    ensures var s := CpEChecked(st);
      && s.gfci == st.gfci && s.adcStreak == st.adcStreak
      && s.cpEStreak == Evse.Counted(st.cpEStreak, st.phase != Faulted && st.window == 0 && st.pilot.committed == E,
                                     CP_E_PERSIST_TICKS)
      && (Fault.GFCI in s.faults.active <==> Fault.GFCI in st.faults.active)
      && (Fault.ADC_OUT_OF_RANGE in s.faults.active <==> Fault.ADC_OUT_OF_RANGE in st.faults.active)
      && (Fault.CP_NO_PILOT in s.faults.active <==>
            Fault.CP_NO_PILOT in st.faults.active || s.cpEStreak >= CP_E_PERSIST_TICKS)
  {
  }

  /** What the tick's checks make of the state `a` they start from, in the terms of `Sensed`. */
  predicate Sensed(a: State, t: State, x: GfciPolicy.Sample, rail: bool, noPilot: bool) {
    var act := GfciPolicy.Stepped(a.gfci, x);
    && t.gfci == act.0
    && (Fault.GFCI in t.faults.active <==> Fault.GFCI in a.faults.active || act.1 == GfciPolicy.RaiseFault)
    && t.adcStreak == Evse.Counted(a.adcStreak, rail, ADC_PERSIST_TICKS)
    && (Fault.ADC_OUT_OF_RANGE in t.faults.active ==>
          Fault.ADC_OUT_OF_RANGE in a.faults.active || t.adcStreak >= ADC_PERSIST_TICKS)
    && t.cpEStreak <= (if noPilot then a.cpEStreak + 1 else 0)
    && (Fault.CP_NO_PILOT in t.faults.active ==>
          Fault.CP_NO_PILOT in a.faults.active || (noPilot && a.cpEStreak + 1 >= CP_E_PERSIST_TICKS))
  }

  lemma SensedAround(st: State, a: State, b: State, t: State, x: GfciPolicy.Sample, rail: bool, noPilot: bool)
    requires Untouched(st, a) && Sensed(a, b, x, rail, noPilot) && Untouched(b, t)
    ensures Sensed(st, t, x, rail, noPilot)
  {
  }

  lemma ChecksSense(st: State, x: Input)
    requires Core(st)
    ensures Sensed(AtGfci(st, x), CpEChecked(AtCpE(st, x)), GfciSampleOf(x), RailSeen(st, x), NoPilotSeen(st, x))
  {
    BegunIsCore(st, x);
    SafeFailIsCore(Begun(st, x), x.safeFail);
    SensedInThree(AtGfci(st, x), GfciSampleOf(x), Rail(x));
  }

  lemma SensedInThree(a: State, x: GfciPolicy.Sample, rail: bool)
    requires Core(a)
    ensures var b := GfciChecked(a, x);
      var c := AdcChecked(b, rail);
      Sensed(a, CpEChecked(c), x, rail && b.phase != Faulted, c.phase != Faulted && c.window == 0 && c.pilot.committed == E)
  {
    GfciStep(a, x);
    GfciIsCore(a, x);
    AdcStep(GfciChecked(a, x), rail);
    CpEStep(AdcChecked(GfciChecked(a, x), rail));
  }

  lemma BeforeGfciUntouched(st: State, x: Input)
    ensures Untouched(st, AtGfci(st, x))
  {
    BegunUntouched(st, x);
    OtherTripUntouched(Begun(st, x), Fault.CRASH_LOOP_SAFE_FAIL);
    UntouchedTwice(st, Begun(st, x), AtGfci(st, x));
  }

  lemma AfterCpEUntouched(st: State, x: Input)
    ensures Untouched(CpEChecked(AtCpE(st, x)), Tick(st, x))
  {
    var c := CpEChecked(AtCpE(st, x));
    var d := OverTempChecked(c, OverTemp.Sample(x.ntc1, x.gun, true, true));
    OverTempUntouched(c, OverTemp.Sample(x.ntc1, x.gun, true, true));
    AfterChecksUntouched(d, x);
    UntouchedTwice(c, d, Swiped(Metered(Driven(d, x), x), x.swipe));
    TickIsChain(st, x);
  }

  lemma TickIsChain(st: State, x: Input)
    ensures var d := OverTempChecked(CpEChecked(AtCpE(st, x)), OverTemp.Sample(x.ntc1, x.gun, true, true));
      Tick(st, x) == Swiped(Metered(Driven(d, x), x), x.swipe)
  {
    TickInStages(st, x);
    assert Checked(Begun(st, x), x)
        == OverTempChecked(CpEChecked(AtCpE(st, x)), OverTemp.Sample(x.ntc1, x.gun, true, true));
  }

  lemma TickOfSensors(st: State, x: Input)
    requires Core(st)
    ensures Sensed(st, Tick(st, x), GfciSampleOf(x), RailSeen(st, x), NoPilotSeen(st, x))
  {
    BeforeGfciUntouched(st, x);
    ChecksSense(st, x);
    AfterCpEUntouched(st, x);
    SensedAround(st, AtGfci(st, x), CpEChecked(AtCpE(st, x)), Tick(st, x), GfciSampleOf(x), RailSeen(st, x),
                 NoPilotSeen(st, x));
  }

  // ---------------------------------------------------------------- ground fault

  function GfciHistory(xs: seq<Input>): (h: seq<GfciPolicy.Sample>)
    ensures |h| == |xs|
  {
    seq(|xs|, i requires 0 <= i < |xs| => GfciSampleOf(xs[i]))
  }

  /**
   * From a start without a ground fault, the ground fault is up exactly if at some tick the
   * line had been low for three ticks under a policy other than WARN. No request, reading
   * or other fault makes a difference.
   */
  lemma {:induction false} GroundFaultExactly(st: State, xs: seq<Input>)
    requires EndOfTick(st) && st.gfci == GfciPolicy.IDLE && Fault.GFCI !in st.faults.active
    ensures Run(st, xs).gfci == GfciPolicy.After(GfciHistory(xs))
    ensures Fault.GFCI in Run(st, xs).faults.active <==> GfciPolicy.FaultDue(GfciHistory(xs))
    decreases |xs|
  {
    if xs != [] {
      var ys, x := xs[..|xs| - 1], xs[|xs| - 1];
      var h, g := GfciHistory(xs), GfciHistory(ys);
      assert h[..|h| - 1] == g && h[|h| - 1] == GfciSampleOf(x);
      GroundFaultExactly(st, ys);
      RunEndsWell(st, ys);
      TickOfSensors(Run(st, ys), x);
      GfciPolicy.ActionsAreEdges(h);
    }
  }

  // --------------------------------------------------------- rails and the pilot

  function RailHistory(st: State, xs: seq<Input>): (h: seq<bool>)
    ensures |h| == |xs|
  {
    if xs == [] then [] else RailHistory(st, xs[..|xs| - 1]) + [RailSeen(Run(st, xs[..|xs| - 1]), xs[|xs| - 1])]
  }

  function NoPilotHistory(st: State, xs: seq<Input>): (h: seq<bool>)
    ensures |h| == |xs|
  {
    if xs == [] then [] else NoPilotHistory(st, xs[..|xs| - 1]) + [NoPilotSeen(Run(st, xs[..|xs| - 1]), xs[|xs| - 1])]
  }

  /** How many of the last observations were all true. */
  function TrailingTrue(h: seq<bool>): (n: nat)
    ensures n <= |h|
    ensures forall i :: |h| - n <= i < |h| ==> h[i]
  {
    if h == [] || !h[|h| - 1] then 0 else TrailingTrue(h[..|h| - 1]) + 1
  }

  lemma TrailingStep(h: seq<bool>, b: bool)
    ensures TrailingTrue(h + [b]) == if b then TrailingTrue(h) + 1 else 0
  {
    assert (h + [b])[..|h|] == h;
  }

  // ---------------------------------------------- what the other stages leave alone

  /** The learn window and the pilot detector's streak are as they were. */
  predicate Still(a: State, b: State) {
    b.learn == a.learn && b.cpEStreak == a.cpEStreak
  }

  lemma TrippedStill(st: State, id: nat)
    ensures Still(st, Tripped(st, id))
  {
  }

  lemma GfciStill(st: State, x: GfciPolicy.Sample)
    ensures Still(st, GfciChecked(st, x))
  {
  }

  lemma AdcStill(st: State, rail: bool)
    ensures Still(st, AdcChecked(st, rail))
  {
    TrippedStill(st.(adcStreak := Evse.Counted(st.adcStreak, rail, ADC_PERSIST_TICKS)), Fault.ADC_OUT_OF_RANGE);
  }

  lemma UpToAdcStill(st: State, x: Input)
    ensures Still(Begun(st, x), AtCpE(st, x))
  {
    TrippedStill(Begun(st, x), Fault.CRASH_LOOP_SAFE_FAIL);
    GfciStill(AtGfci(st, x), GfciSampleOf(x));
    AdcStill(AtAdc(st, x), Rail(x));
  }

  lemma CpELearnSame(st: State)
    ensures CpEChecked(st).learn == st.learn
  {
    TrippedStill(st.(cpEStreak := Evse.Counted(st.cpEStreak, st.pilot.committed == E, CP_E_PERSIST_TICKS)),
                 Fault.CP_NO_PILOT);
  }

  lemma OverTempStill(st: State, x: OverTemp.Sample)
    ensures Still(st, OverTempChecked(st, x))
  {
  }

  lemma UpdatedStill(st: State, requireAuth: bool)
    ensures Still(st, Updated(st, requireAuth))
  {
  }

  lemma DrivenStill(st: State, x: Input)
    ensures Still(st, Driven(st, x))
  {
    UpdatedStill(st, x.requireAuth);
  }

  lemma WeldStill(st: State, r: Reading)
    ensures Still(st, WeldChecked(st, r))
  {
    if r.valid && r.scale > 0 {
      var e := EdgeNoted(st);
      TrippedStill(e.(meter := e.meter.(weldStreak := Evse.Counted(e.meter.weldStreak,
                                                                  Milliamps(r) >= FLOW_MA && !e.closed, DETECTOR_PERSIST))),
                   Fault.RELAY_WELD);
    }
  }

  lemma StuckStill(st: State, r: Reading)
    ensures Still(st, StuckChecked(st, r))
  {
    if r.valid && r.scale > 0 {
      TrippedStill(st.(meter := st.meter.(stuckStreak := Evse.Counted(st.meter.stuckStreak, Milliamps(r) < FLOW_MA,
                                                                     STUCK_OPEN_PERSIST))),
                   Fault.RELAY_STUCK_OPEN);
    }
  }

  lemma HardStill(st: State, l: Limits, r: Reading)
    ensures Still(st, HardChecked(st, l, r))
  {
    if r.valid && r.scale > 0 {
      var over := Milliamps(r) > HocThreshold(Amps(l, st.derate));
      TrippedStill(st.(meter := st.meter.(hocStreak := Evse.Counted(st.meter.hocStreak, over, HOC_PERSIST_POLLS))),
                   Fault.HARD_OVER_CURRENT);
    }
  }

  lemma MeteredStill(c: State, x: Input)
    ensures Still(c, Metered(c, x))
  {
    if c.meter.div + 1 >= POLL_TICKS {
      var a := AcChecked(c.(meter := c.meter.(div := 0)), x.reading);
      assert Still(c, a);
      WeldStill(a, x.reading);
      StuckStill(WeldChecked(a, x.reading), x.reading);
      HardStill(StuckChecked(WeldChecked(a, x.reading), x.reading), x.limits, x.reading);
    }
  }

  lemma RestStill(d: State, x: Input)
    ensures Still(d, Metered(Driven(d, x), x))
    ensures Swiped(Metered(Driven(d, x), x), x.swipe).cpEStreak == d.cpEStreak
  {
    DrivenStill(d, x);
    MeteredStill(Driven(d, x), x);
    SwipedStreak(Metered(Driven(d, x), x), x.swipe);
  }

  lemma SwipedStreak(st: State, swipe: Swipe)
    ensures Swiped(st, swipe).cpEStreak == st.cpEStreak
  {
  }

  lemma ChecksStill(st: State, x: Input)
    ensures Checked(Begun(st, x), x).learn == Begun(st, x).learn
    ensures Checked(Begun(st, x), x).cpEStreak == CpEChecked(AtCpE(st, x)).cpEStreak
  {
    UpToAdcStill(st, x);
    CpELearnSame(AtCpE(st, x));
    OverTempStill(CpEChecked(AtCpE(st, x)), OverTemp.Sample(x.ntc1, x.gun, true, true));
    ChecksInSteps(st, x);
  }

  lemma ChecksInSteps(st: State, x: Input)
    ensures Checked(Begun(st, x), x)
         == OverTempChecked(CpEChecked(AtCpE(st, x)), OverTemp.Sample(x.ntc1, x.gun, true, true))
  {
  }

  /** The state the card reader finds, and the streak the tick ends with. */
  lemma AfterCpEStill(st: State, x: Input)
    ensures Performed(st, x, UP_TO_METER).learn == Begun(st, x).learn
    ensures Tick(st, x).cpEStreak == CpEChecked(AtCpE(st, x)).cpEStreak
  {
    StagesWrittenOut(st, x);
    ChecksStill(st, x);
    RestStill(Checked(Begun(st, x), x), x);
  }

  // --------------------------------------------- exactly when these faults are up

  /** What a rail is. */
  lemma RailMeans(x: Input)
    ensures Rail(x) <==> !(100 <= x.ac <= 3995) || !(100 <= x.ct <= 3995) || !(100 <= x.lct <= 3995)
  {
  }

  /** From the rail detector to the end of the tick no latched fault goes. */
  lemma LatchedFromCpE(st: State, x: Input, f: nat)
    requires Core(st) && f < Fault.FIRST_SELF_CLEARING
    ensures f in CpEChecked(AtCpE(st, x)).faults.active ==> f in Tick(st, x).faults.active
  {
    TickIsChain(st, x);
    var c := CpEChecked(AtCpE(st, x));
    var o := OverTemp.Sample(x.ntc1, x.gun, true, true);
    OverTempLatches(c, o, f);
    BegunIsCore(st, x);
    CheckedIsCore(Begun(st, x), x);
    assert OverTempChecked(c, o) == Checked(Begun(st, x), x);
    AfterChecksLatch(OverTempChecked(c, o), x, f);
  }

  lemma AdcFaultInTick(st: State, x: Input)
    requires EndOfTick(st)
    ensures var t := Tick(st, x);
      && t.adcStreak == Evse.Counted(st.adcStreak, RailSeen(st, x), ADC_PERSIST_TICKS)
      && (Fault.ADC_OUT_OF_RANGE in t.faults.active <==>
            (Fault.ADC_OUT_OF_RANGE in st.faults.active && !Covered(Taken(x.requests), Fault.ADC_OUT_OF_RANGE))
            || t.adcStreak >= ADC_PERSIST_TICKS)
  {
    var f := Fault.ADC_OUT_OF_RANGE;
    TickOfSensors(st, x);
    TickLatches(st, x, f);
    BegunLatches(st, x, f);
    BegunIsCore(st, x);
    SafeFailIsCore(Begun(st, x), x.safeFail);
    GfciStep(AtGfci(st, x), GfciSampleOf(x));
    GfciIsCore(AtGfci(st, x), GfciSampleOf(x));
    AdcStep(AtAdc(st, x), Rail(x));
    CpEStep(AtCpE(st, x));
    AfterCpEUntouched(st, x);
    LatchedFromCpE(st, x, f);
  }

  lemma CpEFaultInTick(st: State, x: Input)
    requires EndOfTick(st)
    ensures var t := Tick(st, x);
      Fault.CP_NO_PILOT in t.faults.active <==>
        (Fault.CP_NO_PILOT in st.faults.active && !Covered(Taken(x.requests), Fault.CP_NO_PILOT))
        || t.cpEStreak >= CP_E_PERSIST_TICKS
  {
    var f := Fault.CP_NO_PILOT;
    TickLatches(st, x, f);
    BegunLatches(st, x, f);
    GfciStep(AtGfci(st, x), GfciSampleOf(x));
    AdcKeepsPilotFault(st, x);
    CpEStep(AtCpE(st, x));
    AfterCpEUntouched(st, x);
    AfterCpEStill(st, x);
    LatchedFromCpE(st, x, f);
  }

  lemma AdcKeepsPilotFault(st: State, x: Input)
    requires Core(st)
    ensures Fault.CP_NO_PILOT in AtCpE(st, x).faults.active ==> Fault.CP_NO_PILOT in AtAdc(st, x).faults.active
  {
    BegunIsCore(st, x);
    SafeFailIsCore(Begun(st, x), x.safeFail);
    GfciIsCore(AtGfci(st, x), GfciSampleOf(x));
    AdcStep(AtAdc(st, x), Rail(x));
  }

  predicate NoClears(rs: seq<Request>) {
    forall r :: r in rs ==> !r.ClearFault?
  }

  lemma {:induction false} DrainedKeepsStreak(st: State, rs: seq<Request>)
    requires NoClears(rs)
    ensures Drained(st, rs).cpEStreak == st.cpEStreak
    decreases |rs|
  {
    if rs != [] {
      assert rs[|rs| - 1] in rs;
      DrainedKeepsStreak(st, rs[..|rs| - 1]);
    }
  }

  /** Unless something is cleared, a tick counts one more tick without a pilot, or none. */
  lemma CpECounts(st: State, x: Input)
    requires NoClears(x.requests)
    ensures Tick(st, x).cpEStreak == Evse.Counted(st.cpEStreak, NoPilotSeen(st, x), CP_E_PERSIST_TICKS)
  {
    var d := Drained(st, Taken(x.requests));
    DrainedKeepsStreak(st, Taken(x.requests));
    UpToAdcStill(st, x);
    PilotUpToAdc(st, x);
    CpEStep(AtCpE(st, x));
    AfterCpEStill(st, x);
    WindowStreak(d, x.mv);
  }

  /** The end of a window resets the streak, but then the pilot is not known in the same tick either. */
  lemma WindowStreak(d: State, mv: int)
    ensures var a := PilotStepped(WindowServed(d), mv);
      a.cpEStreak == d.cpEStreak || (a.cpEStreak == 0 && a.pilot.committed != E)
  {
  }

  lemma PilotUpToAdc(st: State, x: Input)
    ensures AtCpE(st, x).pilot == Begun(st, x).pilot
  {
    TrippedPilot(Begun(st, x), Fault.CRASH_LOOP_SAFE_FAIL);
    GfciPilot(AtGfci(st, x), GfciSampleOf(x));
    TrippedPilot(AtAdc(st, x).(adcStreak := Evse.Counted(AtAdc(st, x).adcStreak, Rail(x), ADC_PERSIST_TICKS)),
                 Fault.ADC_OUT_OF_RANGE);
  }

  lemma TrippedPilot(st: State, id: nat)
    ensures Tripped(st, id).pilot == st.pilot
  {
  }

  lemma GfciPilot(st: State, x: GfciPolicy.Sample)
    ensures GfciChecked(st, x).pilot == st.pilot
  {
  }

  // ------------------------------------------------------------------------ runs

  /** As many of the last observations as the detector counts. */
  function CountedRun(h: seq<bool>, limit: nat): nat {
    if TrailingTrue(h) < limit then TrailingTrue(h) else limit
  }

  lemma {:induction false} RailStreak(st: State, xs: seq<Input>)
    requires EndOfTick(st) && st.adcStreak == 0
    ensures Run(st, xs).adcStreak == CountedRun(RailHistory(st, xs), ADC_PERSIST_TICKS)
    decreases |xs|
  {
    if xs != [] {
      var ys, x := xs[..|xs| - 1], xs[|xs| - 1];
      RailStreak(st, ys);
      RunEndsWell(st, ys);
      TickOfSensors(Run(st, ys), x);
      TrailingStep(RailHistory(st, ys), RailSeen(Run(st, ys), x));
    }
  }

  /**
   * After a tick an analog input is reported stuck exactly if it was on a rail in the last
   * five ticks, outside faults, or was reported before and has not been cleared by request.
   */
  lemma RailReported(st: State, xs: seq<Input>, x: Input)
    requires EndOfTick(st) && st.adcStreak == 0
    ensures Fault.ADC_OUT_OF_RANGE in Run(st, xs + [x]).faults.active <==>
      || TrailingTrue(RailHistory(st, xs + [x])) >= 5
      || (Fault.ADC_OUT_OF_RANGE in Run(st, xs).faults.active
          && !Covered(Taken(x.requests), Fault.ADC_OUT_OF_RANGE))
  {
    assert (xs + [x])[..|xs|] == xs;
    RailStreak(st, xs + [x]);
    RunEndsWell(st, xs);
    AdcFaultInTick(Run(st, xs), x);
  }

  lemma {:induction false} PilotStreakWithin(st: State, xs: seq<Input>)
    requires EndOfTick(st) && st.cpEStreak == 0
    ensures Run(st, xs).cpEStreak <= TrailingTrue(NoPilotHistory(st, xs))
    ensures (forall x :: x in xs ==> NoClears(x.requests)) ==>
      Run(st, xs).cpEStreak == CountedRun(NoPilotHistory(st, xs), CP_E_PERSIST_TICKS)
    decreases |xs|
  {
    if xs != [] {
      var ys, x := xs[..|xs| - 1], xs[|xs| - 1];
      assert x in xs;
      PilotStreakWithin(st, ys);
      RunEndsWell(st, ys);
      TickOfSensors(Run(st, ys), x);
      TrailingStep(NoPilotHistory(st, ys), NoPilotSeen(Run(st, ys), x));
      if NoClears(x.requests) {
        CpECounts(Run(st, ys), x);
      }
    }
  }

  /**
   * A missing pilot is reported only after three ticks in a row at E outside faults and
   * replug windows; and in a run in which nothing is cleared it is up exactly if there have
   * just been three such ticks, or it was up before.
   */
  lemma PilotLossReported(st: State, xs: seq<Input>, x: Input)
    requires EndOfTick(st) && st.cpEStreak == 0
    ensures var s, t, n := Run(st, xs), Run(st, xs + [x]), TrailingTrue(NoPilotHistory(st, xs + [x]));
      && (Fault.CP_NO_PILOT !in s.faults.active && Fault.CP_NO_PILOT in t.faults.active ==> n >= 3)
      && ((forall y :: y in xs + [x] ==> NoClears(y.requests)) ==>
            (Fault.CP_NO_PILOT in t.faults.active <==> Fault.CP_NO_PILOT in s.faults.active || n >= 3))
  {
    assert (xs + [x])[..|xs|] == xs;
    PilotStreakWithin(st, xs + [x]);
    RunEndsWell(st, xs);
    CpEFaultInTick(Run(st, xs), x);
    if forall y :: y in xs + [x] ==> NoClears(y.requests) {
      assert x in xs + [x];
      NothingCovered(x.requests, Fault.CP_NO_PILOT);
    }
  }

  lemma NothingCovered(rs: seq<Request>, f: nat)
    requires NoClears(rs)
    ensures !Covered(Taken(rs), f)
  {
  }
}
