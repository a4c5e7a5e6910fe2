/**
 * The three latched detectors that ride on the power meter, in terms of the whole history
 * of polls: when a run raises a welded contactor, one stuck open, or a hard over-current.
 */
module EvseMeter {
  import opened J1772
  import Fault
  import GfciPolicy
  import OverTemp
  import opened SoftOverCurrent
  import opened Evse
  import opened EvseInvariant
  import opened EvseRuns

  /** The faults this is about. */
  predicate MeterFault(id: nat) {
    id == Fault.RELAY_WELD || id == Fault.RELAY_STUCK_OPEN || id == Fault.HARD_OVER_CURRENT
  }

  /** The meter's streaks are as they were, and none of its faults has come up. */
  predicate MeterUntouched(a: State, b: State) {
    b.meter == a.meter && NoMeterFaultRaised(a, b)
  }

  predicate NoMeterFaultRaised(a: State, b: State) {
    forall id :: MeterFault(id) && id in b.faults.active ==> id in a.faults.active
  }

  // ------------------------------------------------------- ticks up to the poll

  lemma ProcessedUntouched(st: State, r: Request)
    ensures MeterUntouched(st, Processed(st, r))
  {
  }

  lemma {:induction false} DrainedUntouched(st: State, rs: seq<Request>)
    ensures MeterUntouched(st, Drained(st, rs))
    decreases |rs|
  {
    if rs != [] {
      DrainedUntouched(st, rs[..|rs| - 1]);
      ProcessedUntouched(Drained(st, rs[..|rs| - 1]), rs[|rs| - 1]);
    }
  }

  lemma BegunUntouched(st: State, x: Input)
    ensures MeterUntouched(st, Begun(st, x))
  {
    var d := Drained(st, Taken(x.requests));
    DrainedUntouched(st, Taken(x.requests));
    WindowUntouched(d);
    UntouchedTwice(st, d, WindowServed(d));
  }

  lemma WindowUntouched(st: State)
    ensures MeterUntouched(st, WindowServed(st))
  {
  }

  lemma OtherTripUntouched(st: State, id: nat)
    requires !MeterFault(id)
    ensures MeterUntouched(st, Tripped(st, id))
  {
  }

  lemma OverTempUntouched(st: State, x: OverTemp.Sample)
    ensures MeterUntouched(st, OverTempChecked(st, x))
  {
  }

  lemma UntouchedTwice(a: State, b: State, c: State)
    requires MeterUntouched(a, b) && MeterUntouched(b, c)
    ensures MeterUntouched(a, c)
  {
  }

  lemma GfciUntouched(st: State, x: GfciPolicy.Sample)
    ensures MeterUntouched(st, GfciChecked(st, x))
  {
  }

  lemma AdcUntouched(st: State, rail: bool)
    ensures MeterUntouched(st, AdcChecked(st, rail))
  {
    OtherTripUntouched(st.(adcStreak := Evse.Counted(st.adcStreak, rail, ADC_PERSIST_TICKS)), Fault.ADC_OUT_OF_RANGE);
  }

  lemma CpEUntouched(st: State)
    ensures MeterUntouched(st, CpEChecked(st))
  {
    OtherTripUntouched(st.(cpEStreak := Evse.Counted(st.cpEStreak, st.pilot.committed == E, CP_E_PERSIST_TICKS)),
                       Fault.CP_NO_PILOT);
  }

  lemma CheckedUntouched(st: State, x: Input)
    ensures MeterUntouched(st, Checked(st, x))
  {
    var a := SafeFailChecked(st, x.safeFail);
    OtherTripUntouched(st, Fault.CRASH_LOOP_SAFE_FAIL);
    var b := GfciChecked(a, GfciPolicy.Sample(x.gfciLow, x.gfciPolicy));
    GfciUntouched(a, GfciPolicy.Sample(x.gfciLow, x.gfciPolicy));
    UntouchedTwice(st, a, b);
    var c := AdcChecked(b, OnRail(x.ac) || OnRail(x.ct) || OnRail(x.lct));
    AdcUntouched(b, OnRail(x.ac) || OnRail(x.ct) || OnRail(x.lct));
    UntouchedTwice(st, b, c);
    CpEUntouched(c);
    UntouchedTwice(st, c, CpEChecked(c));
    OverTempUntouched(CpEChecked(c), OverTemp.Sample(x.ntc1, x.gun, true, true));
    UntouchedTwice(st, CpEChecked(c), Checked(st, x));
  }

  lemma UpdatedUntouched(st: State, requireAuth: bool)
    ensures MeterUntouched(st, Updated(st, requireAuth))
  {
  }

  lemma DrivenUntouched(st: State, x: Input)
    ensures MeterUntouched(st, Driven(st, x))
  {
    UpdatedUntouched(st, x.requireAuth);
  }

  /** The state a poll finds. */
  function AtPoll(st: State, x: Input): State {
    UpToPilot(st, x)
  }

  lemma AtPollUntouched(st: State, x: Input)
    ensures MeterUntouched(st, AtPoll(st, x))
  {
    StagesWrittenOut(st, x);
    var a := Begun(st, x);
    BegunUntouched(st, x);
    CheckedUntouched(a, x);
    UntouchedTwice(st, a, Checked(a, x));
    DrivenUntouched(Checked(a, x), x);
    UntouchedTwice(st, Checked(a, x), AtPoll(st, x));
  }

  predicate Polls(st: State) {
    st.meter.div + 1 >= 20
  }

  // ------------------------------------------------------------ the contactor

  /** What a valid poll saw: a meter without calibration, or a current and the commanded contactor. */
  datatype Poll = Uncalibrated | Measured(closed: bool, ma: nat)

  function WeldPoll(st: State, x: Input): seq<Poll> {
    if !Polls(st) || !x.reading.valid then []
    else if x.reading.scale <= 0 then [Uncalibrated]
    else [Measured(AtPoll(st, x).closed, Milliamps(x.reading))]
  }

  function WeldHistory(st: State, xs: seq<Input>): seq<Poll> {
    if xs == [] then []
    else WeldHistory(st, xs[..|xs| - 1]) + WeldPoll(Run(st, xs[..|xs| - 1]), xs[|xs| - 1])
  }

  /** How many polls at the end saw current through an open contactor. */
  function FlowRun(h: seq<Poll>): (n: nat)
    ensures n <= |h|
    ensures forall i :: |h| - n <= i < |h| ==> h[i].Measured? && !h[i].closed && h[i].ma >= 500
  {
    if h == [] then 0
    else
      var p := h[|h| - 1];
      if p.Measured? && !p.closed && p.ma >= 500 then FlowRun(h[..|h| - 1]) + 1 else 0
  }

  /** Some measurement found the contactor commanded closed. */
  predicate EverClosed(h: seq<Poll>) {
    h != [] && ((h[|h| - 1].Measured? && h[|h| - 1].closed) || EverClosed(h[..|h| - 1]))
  }

  /** How many measurements there have been since. */
  function SinceClosed(h: seq<Poll>): nat {
    if h == [] then 0
    else
      var p := h[|h| - 1];
      if p.Uncalibrated? then SinceClosed(h[..|h| - 1])
      else if p.closed then 0
      else SinceClosed(h[..|h| - 1]) + 1
  }

  /** The detector by itself. */
  datatype Weld = Weld(streak: nat, settle: nat, wasClosed: bool)

  function WeldOf(m: Metering): Weld {
    Weld(m.weldStreak, m.settle, m.wasClosed)
  }

  function WeldStep(w: Weld, p: Poll): Weld {
    match p
    case Uncalibrated => w.(streak := 0)
    case Measured(closed, ma) =>
      var settle := if w.wasClosed && !closed then WELD_SETTLE_POLLS else w.settle;
      if settle > 0 then Weld(0, settle - 1, closed)
      else Weld(Evse.Counted(w.streak, ma >= FLOW_MA && !closed, DETECTOR_PERSIST), 0, closed)
  }

  function Least(a: nat, b: nat): nat {
    if a < b then a else b
  }

  /** How many measurements at the end saw current through an open contactor that had had time to settle. */
  function SettledRun(h: seq<Poll>): nat {
    if !EverClosed(h) then FlowRun(h)
    else if SinceClosed(h) <= WELD_SETTLE_POLLS then 0
    else Least(FlowRun(h), SinceClosed(h) - WELD_SETTLE_POLLS)
  }

  /** Its variables, explained by the history. */
  predicate WeldExplained(w: Weld, h: seq<Poll>) {
    && w.streak == Least(SettledRun(h), DETECTOR_PERSIST)
    && (w.wasClosed <==> EverClosed(h) && SinceClosed(h) == 0)
    && (!EverClosed(h) ==> w.settle == 0)
    && (EverClosed(h) ==>
          var n := SinceClosed(h);
          n > 0 ==> w.settle == if n <= WELD_SETTLE_POLLS then WELD_SETTLE_POLLS - n else 0)
  }

  lemma WeldStepExplained(w: Weld, h: seq<Poll>, p: Poll)
    requires WeldExplained(w, h)
    ensures WeldExplained(WeldStep(w, p), h + [p])
  {
    assert (h + [p])[..|h|] == h;
  }

  lemma WeldCheckedSteps(st: State, r: Reading)
    ensures var s := WeldChecked(st, r);
      WeldOf(s.meter) ==
        if !r.valid then WeldOf(st.meter)
        else if r.scale <= 0 then WeldStep(WeldOf(st.meter), Uncalibrated)
        else WeldStep(WeldOf(st.meter), Measured(st.closed, Milliamps(r)))
  {
  }

  lemma WeldCheckedFaults(st: State, r: Reading)
    ensures var s := WeldChecked(st, r);
      && (Fault.RELAY_WELD in st.faults.active ==> Fault.RELAY_WELD in s.faults.active)
      && (r.valid && r.scale > 0 && s.meter.weldStreak >= DETECTOR_PERSIST ==> Fault.RELAY_WELD in s.faults.active)
      && (Fault.RELAY_WELD in s.faults.active && Fault.RELAY_WELD !in st.faults.active ==>
            s.meter.weldStreak >= DETECTOR_PERSIST && r.valid && r.scale > 0)
  {
  }

  // ------------------------------------------------------------ inside one poll

  /** The states between the detectors of a poll. */
  function AfterAc(st: State, x: Input): State {
    AcChecked(AtPoll(st, x).(meter := st.meter.(div := 0)), x.reading)
  }

  function AfterWeld(st: State, x: Input): State {
    WeldChecked(AfterAc(st, x), x.reading)
  }

  function AfterStuck(st: State, x: Input): State {
    StuckChecked(AfterWeld(st, x), x.reading)
  }

  function AfterHard(st: State, x: Input): State {
    HardChecked(AfterStuck(st, x), x.limits, x.reading)
  }

  lemma TickOfPoll(st: State, x: Input)
    ensures Polls(st) ==>
      && Tick(st, x).meter == SoftChecked(AfterHard(st, x), x.limits, x.reading).meter
      && Tick(st, x).faults == SoftChecked(AfterHard(st, x), x.limits, x.reading).faults
    ensures !Polls(st) ==>
      && Tick(st, x).meter == st.meter.(div := st.meter.div + 1) && Tick(st, x).faults == AtPoll(st, x).faults
  {
    AtPollUntouched(st, x);
    TickIsMetered(st, x);
    MeteredInSteps(AtPoll(st, x), x);
  }

  lemma TickIsMetered(st: State, x: Input)
    ensures Tick(st, x) == Swiped(Metered(AtPoll(st, x), x), x.swipe)
  {
    StagesWrittenOut(st, x);
  }

  lemma MeteredInSteps(d: State, x: Input)
    ensures Swiped(Metered(d, x), x.swipe).meter == Metered(d, x).meter
    ensures Swiped(Metered(d, x), x.swipe).faults == Metered(d, x).faults
    ensures !Polls(d) ==> Metered(d, x) == d.(meter := d.meter.(div := d.meter.div + 1))
    ensures Polls(d) ==>
      var weld := WeldChecked(AcChecked(d.(meter := d.meter.(div := 0)), x.reading), x.reading);
      Metered(d, x) == SoftChecked(HardChecked(StuckChecked(weld, x.reading), x.limits, x.reading), x.limits, x.reading)
  {
  }

  /** Equal but for the numbers of the detectors `b` has run since `a`. */
  lemma AcStep(st: State, r: Reading)
    ensures var s := AcChecked(st, r);
      && s.meter == st.meter.(acStreak := s.meter.acStreak) && NoMeterFaultRaised(st, s)
      && s.closed == st.closed
  {
  }

  lemma WeldOthers(st: State, r: Reading)
    ensures var s := WeldChecked(st, r);
      && s.meter.stuckStreak == st.meter.stuckStreak && s.meter.hocStreak == st.meter.hocStreak
      && (forall id :: MeterFault(id) && id != Fault.RELAY_WELD && id in s.faults.active ==> id in st.faults.active)
  {
    if r.valid && r.scale > 0 {
      JudgedOthers(EdgeNoted(st), r);
    }
  }

  lemma JudgedOthers(st: State, r: Reading)
    requires r.scale > 0
    ensures var s := WeldJudged(st, r);
      && s.meter.stuckStreak == st.meter.stuckStreak && s.meter.hocStreak == st.meter.hocStreak
      && (forall id :: MeterFault(id) && id != Fault.RELAY_WELD && id in s.faults.active ==> id in st.faults.active)
  {
  }

  lemma StuckStep(st: State, r: Reading)
    ensures var s := StuckChecked(st, r);
      && s.meter == st.meter.(stuckStreak := s.meter.stuckStreak)
      && s.meter.stuckStreak == (if !r.valid then st.meter.stuckStreak
                                 else Evse.Counted(st.meter.stuckStreak, StuckSeen(st, r), STUCK_OPEN_PERSIST))
      && (forall id :: MeterFault(id) && id != Fault.RELAY_STUCK_OPEN && id in s.faults.active ==> id in st.faults.active)
      && (Fault.RELAY_STUCK_OPEN in s.faults.active <==>
            Fault.RELAY_STUCK_OPEN in st.faults.active
            || (r.valid && StuckSeen(st, r) && s.meter.stuckStreak >= STUCK_OPEN_PERSIST))
  {
  }

  /** No current although charging with the contactor commanded closed. */
  predicate StuckSeen(st: State, r: Reading) {
    r.scale > 0 && st.phase == Charging && st.closed && Milliamps(r) < 500
  }

  lemma HardStep(st: State, l: Limits, r: Reading)
    ensures var s := HardChecked(st, l, r);
      && s.meter == st.meter.(hocStreak := s.meter.hocStreak)
      && s.meter.hocStreak == (if !r.valid then st.meter.hocStreak
                               else Evse.Counted(st.meter.hocStreak, HardSeen(st, l, r), HOC_PERSIST_POLLS))
      && (forall id :: MeterFault(id) && id != Fault.HARD_OVER_CURRENT && id in s.faults.active ==> id in st.faults.active)
      && (Fault.HARD_OVER_CURRENT in s.faults.active <==>
            Fault.HARD_OVER_CURRENT in st.faults.active
            || (r.valid && HardSeen(st, l, r) && s.meter.hocStreak >= HOC_PERSIST_POLLS))
  {
    if r.scale > 0 {
      ThresholdMeans(Amps(l, st.derate), Milliamps(r));
    }
  }

  lemma ThresholdMeans(amps: nat, ma: nat)
    ensures ma > HocThreshold(amps) <==> ma > 1200 * amps || ma > 60000
  {
  }

  /** More than 120 % of what is advertised, or more than 60 A. */
  predicate HardSeen(st: State, l: Limits, r: Reading) {
    r.scale > 0
    && (Milliamps(r) > 1200 * Amps(l, st.derate) || Milliamps(r) > 60000)
  }

  lemma SoftStep(st: State, l: Limits, r: Reading)
    ensures var s := SoftChecked(st, l, r);
      && s.meter == st.meter.(socStreak := s.meter.socStreak)
      && (forall id :: MeterFault(id) ==> (id in s.faults.active <==> id in st.faults.active))
  {
  }

  // -------------------------------------------------------------- welded shut

  lemma TickWeld(st: State, x: Input)
    ensures var t, ps := Tick(st, x), WeldPoll(st, x);
      && WeldOf(t.meter) == (if ps == [] then WeldOf(st.meter) else WeldStep(WeldOf(st.meter), ps[0]))
      && (Fault.RELAY_WELD in t.faults.active && Fault.RELAY_WELD !in st.faults.active ==>
            ps != [] && ps[0].Measured? && t.meter.weldStreak >= DETECTOR_PERSIST)
      && (ps != [] && ps[0].Measured? && t.meter.weldStreak >= DETECTOR_PERSIST ==> Fault.RELAY_WELD in t.faults.active)
  {
    TickOfPoll(st, x);
    AtPollUntouched(st, x);
    if Polls(st) {
      WeldStands(st, x);
      AcStep(AtPoll(st, x).(meter := st.meter.(div := 0)), x.reading);
      WeldCheckedSteps(AfterAc(st, x), x.reading);
      WeldCheckedFaults(AfterAc(st, x), x.reading);
      StuckStep(AfterWeld(st, x), x.reading);
      HardStep(AfterStuck(st, x), x.limits, x.reading);
      SoftStep(AfterHard(st, x), x.limits, x.reading);
    }
  }

  lemma {:induction false} WeldHistoryExplains(st: State, xs: seq<Input>)
    requires WeldOf(st.meter) == Weld(0, 0, false)
    ensures WeldExplained(WeldOf(Run(st, xs).meter), WeldHistory(st, xs))
    decreases |xs|
  {
    if xs != [] {
      var ys, x := xs[..|xs| - 1], xs[|xs| - 1];
      var ps := WeldPoll(Run(st, ys), x);
      WeldHistoryExplains(st, ys);
      TickWeld(Run(st, ys), x);
      if ps == [] {
        assert WeldHistory(st, ys) + ps == WeldHistory(st, ys);
      } else {
        WeldStepExplained(WeldOf(Run(st, ys).meter), WeldHistory(st, ys), ps[0]);
        assert ps == [ps[0]];
      }
    }
  }

  /** What follows the weld detector in a poll takes no weld away. */
  lemma WeldStands(st: State, x: Input)
    ensures Fault.RELAY_WELD in AfterWeld(st, x).faults.active ==>
      Fault.RELAY_WELD in SoftChecked(AfterHard(st, x), x.limits, x.reading).faults.active
  {
    StuckKeepsWeld(AfterWeld(st, x), x.reading);
    HardKeepsWeld(AfterStuck(st, x), x.limits, x.reading);
    SoftStep(AfterHard(st, x), x.limits, x.reading);
  }

  lemma StuckKeepsWeld(st: State, r: Reading)
    ensures Fault.RELAY_WELD in st.faults.active ==> Fault.RELAY_WELD in StuckChecked(st, r).faults.active
  {
  }

  lemma HardKeepsWeld(st: State, l: Limits, r: Reading)
    ensures Fault.RELAY_WELD in st.faults.active ==> Fault.RELAY_WELD in HardChecked(st, l, r).faults.active
  {
  }

  /** Three measurements at the end that count, in terms of the history. */
  lemma SettledLongEnough(h: seq<Poll>)
    ensures SettledRun(h) >= DETECTOR_PERSIST <==>
      FlowRun(h) >= 3 && (EverClosed(h) ==> SinceClosed(h) >= 11)
  {
  }

  /**
   * A weld is reported by a measurement exactly if the last three measurements all saw half
   * an ampere or more through a contactor commanded open, at least eleven measurements after
   * it was last seen commanded closed; and by nothing else.
   */
  lemma WeldReported(st: State, xs: seq<Input>, x: Input)
    requires WeldOf(st.meter) == Weld(0, 0, false)
    ensures var s, t, h, ps := Run(st, xs), Run(st, xs + [x]), WeldHistory(st, xs + [x]), WeldPoll(Run(st, xs), x);
      var due := FlowRun(h) >= 3 && (EverClosed(h) ==> SinceClosed(h) >= 11);
      && (ps != [] && ps[0].Measured? && due ==> Fault.RELAY_WELD in t.faults.active)
      && (Fault.RELAY_WELD !in s.faults.active && Fault.RELAY_WELD in t.faults.active ==>
            ps != [] && ps[0].Measured? && due)
  {
    assert (xs + [x])[..|xs|] == xs;
    WeldHistoryExplains(st, xs + [x]);
    SettledLongEnough(WeldHistory(st, xs + [x]));
    TickWeld(Run(st, xs), x);
  }

  /** And a charger whose contactor is reported welded is in the fault phase. */
  lemma WeldLocksOut(st: State, xs: seq<Input>, x: Input)
    requires EndOfTick(st) && WeldOf(st.meter) == Weld(0, 0, false)
    requires var ps, h := WeldPoll(Run(st, xs), x), WeldHistory(st, xs + [x]);
      ps != [] && ps[0].Measured? && FlowRun(h) >= 3 && (EverClosed(h) ==> SinceClosed(h) >= 11)
    ensures LockedOut(Run(st, xs + [x]))
  {
    WeldReported(st, xs, x);
    RunEndsWell(st, xs + [x]);
    LatchedLocksOut(Run(st, xs + [x]), Fault.RELAY_WELD);
  }

  // ------------------------------------------- stuck open, and far too much current

  /** Whether a valid poll saw the contactor stuck open; nothing if there was no such poll. */
  function StuckPoll(st: State, x: Input): seq<bool> {
    if Polls(st) && x.reading.valid then [StuckSeen(AfterWeld(st, x), x.reading)] else []
  }

  function HardPoll(st: State, x: Input): seq<bool> {
    if Polls(st) && x.reading.valid then [HardSeen(AfterStuck(st, x), x.limits, x.reading)] else []
  }

  function StuckHistory(st: State, xs: seq<Input>): seq<bool> {
    if xs == [] then []
    else StuckHistory(st, xs[..|xs| - 1]) + StuckPoll(Run(st, xs[..|xs| - 1]), xs[|xs| - 1])
  }

  function HardHistory(st: State, xs: seq<Input>): seq<bool> {
    if xs == [] then []
    else HardHistory(st, xs[..|xs| - 1]) + HardPoll(Run(st, xs[..|xs| - 1]), xs[|xs| - 1])
  }

  lemma TickStuckAndHard(st: State, x: Input)
    ensures var t, ps, qs := Tick(st, x), StuckPoll(st, x), HardPoll(st, x);
      && t.meter.stuckStreak ==
           (if ps == [] then st.meter.stuckStreak
            else Evse.Counted(st.meter.stuckStreak, ps[0], STUCK_OPEN_PERSIST))
      && t.meter.hocStreak ==
           (if qs == [] then st.meter.hocStreak else Evse.Counted(st.meter.hocStreak, qs[0], HOC_PERSIST_POLLS))
      && (Fault.RELAY_STUCK_OPEN in t.faults.active && Fault.RELAY_STUCK_OPEN !in st.faults.active ==>
            ps == [true] && t.meter.stuckStreak >= STUCK_OPEN_PERSIST)
      && (ps == [true] && t.meter.stuckStreak >= STUCK_OPEN_PERSIST ==> Fault.RELAY_STUCK_OPEN in t.faults.active)
      && (Fault.HARD_OVER_CURRENT in t.faults.active && Fault.HARD_OVER_CURRENT !in st.faults.active ==>
            qs == [true] && t.meter.hocStreak >= HOC_PERSIST_POLLS)
      && (qs == [true] && t.meter.hocStreak >= HOC_PERSIST_POLLS ==> Fault.HARD_OVER_CURRENT in t.faults.active)
  {
    TickOfPoll(st, x);
    AtPollUntouched(st, x);
    if Polls(st) {
      AcStep(AtPoll(st, x).(meter := st.meter.(div := 0)), x.reading);
      WeldOthers(AfterAc(st, x), x.reading);
      StuckStep(AfterWeld(st, x), x.reading);
      HardStep(AfterStuck(st, x), x.limits, x.reading);
      HardKeepsStuck(AfterStuck(st, x), x.limits, x.reading);
      SoftStep(AfterHard(st, x), x.limits, x.reading);
    }
  }

  lemma HardKeepsStuck(st: State, l: Limits, r: Reading)
    ensures Fault.RELAY_STUCK_OPEN in st.faults.active ==> Fault.RELAY_STUCK_OPEN in HardChecked(st, l, r).faults.active
  {
  }

  lemma {:induction false} StreaksAreHistory(st: State, xs: seq<Input>)
    requires st.meter.stuckStreak == 0 && st.meter.hocStreak == 0
    ensures Run(st, xs).meter.stuckStreak == CountedAll(StuckHistory(st, xs), STUCK_OPEN_PERSIST)
    ensures Run(st, xs).meter.hocStreak == CountedAll(HardHistory(st, xs), HOC_PERSIST_POLLS)
    decreases |xs|
  {
    if xs != [] {
      var ys, x := xs[..|xs| - 1], xs[|xs| - 1];
      StreaksAreHistory(st, ys);
      TickStuckAndHard(Run(st, ys), x);
      AppendObservation(StuckHistory(st, ys), StuckPoll(Run(st, ys), x), STUCK_OPEN_PERSIST);
      AppendObservation(HardHistory(st, ys), HardPoll(Run(st, ys), x), HOC_PERSIST_POLLS);
    }
  }

  lemma AppendObservation(h: seq<bool>, more: seq<bool>, limit: nat)
    requires |more| <= 1
    ensures CountedAll(h + more, limit) ==
      if more == [] then CountedAll(h, limit) else Evse.Counted(CountedAll(h, limit), more[0], limit)
  {
    if more == [] {
      assert h + more == h;
    } else {
      assert (h + more)[..|h|] == h;
    }
  }

  /** The last `n` of a history are all true. */
  predicate LastAll(h: seq<bool>, n: nat) {
    n <= |h| && forall i :: |h| - n <= i < |h| ==> h[i]
  }

  /**
   * A contactor is reported stuck open by a poll whose last 75 observations were all bad,
   * and by nothing else.
   */
  lemma StuckReported(st: State, xs: seq<Input>, x: Input)
    requires st.meter.stuckStreak == 0 && st.meter.hocStreak == 0
    ensures var s, t, h := Run(st, xs), Run(st, xs + [x]), StuckHistory(st, xs + [x]);
      && (Fault.RELAY_STUCK_OPEN !in s.faults.active && Fault.RELAY_STUCK_OPEN in t.faults.active ==>
            LastAll(h, 75))
      && (StuckPoll(s, x) != [] && LastAll(h, 75) ==> Fault.RELAY_STUCK_OPEN in t.faults.active)
  {
    assert (xs + [x])[..|xs|] == xs;
    StreaksAreHistory(st, xs + [x]);
    TickStuckAndHard(Run(st, xs), x);
    LimitReached(StuckHistory(st, xs + [x]), STUCK_OPEN_PERSIST, STUCK_OPEN_PERSIST);
  }

  /**
   * A hard over-current is reported by a poll whose last 13 observations were all over, and
   * by nothing else.
   */
  lemma HardReported(st: State, xs: seq<Input>, x: Input)
    requires st.meter.stuckStreak == 0 && st.meter.hocStreak == 0
    ensures var s, t, h := Run(st, xs), Run(st, xs + [x]), HardHistory(st, xs + [x]);
      && (Fault.HARD_OVER_CURRENT !in s.faults.active && Fault.HARD_OVER_CURRENT in t.faults.active ==>
            LastAll(h, 13))
      && (HardPoll(s, x) != [] && LastAll(h, 13) ==> Fault.HARD_OVER_CURRENT in t.faults.active)
  {
    assert (xs + [x])[..|xs|] == xs;
    StreaksAreHistory(st, xs + [x]);
    TickStuckAndHard(Run(st, xs), x);
    LimitReached(HardHistory(st, xs + [x]), HOC_PERSIST_POLLS, HOC_PERSIST_POLLS);
  }
}
