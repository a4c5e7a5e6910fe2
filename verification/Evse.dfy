/**
 * The safety supervisor as a state machine: one tick of 20 ms is a fixed sequence of steps,
 * each a function of the state and of that tick's inputs. Requests, sensor readings, the
 * pilot voltage, the meter and the persisted configuration are arbitrary inputs.
 */
module Evse {
  import opened J1772
  import Fault
  import GfciPolicy
  import OverTemp
  import opened SoftOverCurrent

  const DEBOUNCE_N: nat := 3
  const CP_E_PERSIST_TICKS: nat := 3
  const ADC_PERSIST_TICKS: nat := 5
  const ADC_MIN: nat := 100
  const ADC_MAX: nat := 3995
  const C_DWELL_TICKS: nat := 50
  const REPLUG_WINDOW_TICKS: nat := 150
  const LEARN_TICKS: nat := 1500
  const CP_PILOT_PRESENT_MV: int := 1500
  const POLL_TICKS: nat := 20
  const DETECTOR_PERSIST: nat := 3
  const STUCK_OPEN_PERSIST: nat := 75
  const WELD_SETTLE_POLLS: nat := 8
  const HOC_PERSIST_POLLS: nat := 13
  const V_AC_PRESENT: nat := 0x8_0000
  const FLOW_MA: nat := 500

  datatype Phase = Boot | SelfTest | Ready | Charging | UserPaused | CoolingDown | Faulted

  datatype Pwm = StateF | IdleHigh | Advertise(amps: nat)

  datatype Request =
    | ClearFault(id: nat)
    | UserPause
    | UserResume
    | LearnArm
    | Publish
    | SimulateReplug
    | RunGfciCalTest
    | Unknown

  /** The streaks of the detectors that ride on the power meter. */
  datatype Metering = Metering(div: nat, acStreak: nat, weldStreak: nat, settle: nat, wasClosed: bool,
                               stuckStreak: nat, hocStreak: nat, socStreak: nat)

  datatype State = State(
    phase: Phase,
    faults: Fault.Faults,
    pilot: Debouncer,
    session: bool,
    derate: nat,
    window: nat,
    authorized: bool,
    learn: nat,
    closed: bool,
    latch: bool,
    cp: Pwm,
    gfci: GfciPolicy.Context,
    overTemp: OverTemp.Context,
    cpEStreak: nat,
    cStreak: nat,
    adcStreak: nat,
    meter: Metering)

  /** A card presented to the reader: one the list knows, or one it does not. */
  datatype Swipe = NoCard | KnownCard | UnknownCard

  /** A snapshot of the power meter and its calibration. */
  datatype Reading = Reading(valid: bool, vRms: nat, iaRms: nat, scale: int)

  datatype Input = Input(
    requests: seq<Request>,
    mv: int,
    safeFail: bool,
    gfciLow: bool,
    gfciPolicy: nat,
    ac: nat,
    ct: nat,
    lct: nat,
    ntc1: nat,
    gun: nat,
    requireAuth: bool,
    limits: Limits,
    reading: Reading,
    swipe: Swipe)

  // ------------------------------------------------------------- transitions

  /** Charging is a session; the end of a session clears the derate. */
  function SessionMoved(st: State, next: Phase): State {
    if next == Charging then st.(session := true)
    else if st.phase == Charging && st.session then st.(session := false, derate := 0)
    else st
  }

  /** Entering a fault opens the contactor and drives the pilot at once; leaving one releases the latch. */
  function PhaseEntered(st: State, next: Phase): State {
    if next == Faulted then st.(phase := next, cp := StateF, closed := false, latch := true)
    else st.(phase := next, latch := false)
  }

  function Transition(st: State, next: Phase): State {
    if st.phase == next then st else PhaseEntered(SessionMoved(st, next), next)
  }

  /** Raise a latched fault and enter the fault phase, unless the fault is up already. */
  function Tripped(st: State, id: nat): State {
    if id in st.faults.active then st
    else Transition(st.(faults := Fault.Raised(st.faults, id)), Faulted)
  }

  // ---------------------------------------------------------------- requests

  predicate LatchedActive(st: State) {
    Fault.Latched(st.faults.active) != {}
  }

  /** A request to clear is turned down if it names the ground fault or no fault at all. */
  predicate ClearRefused(id: nat) {
    id == Fault.GFCI || id >= Fault.COUNT
  }

  function AfterClear(st: State, id: nat): State {
    var faults := if id == 0 then Fault.AllCleared(st.faults) else Fault.Cleared(st.faults, id);
    var cleared :=
      if id == 0 then Fault.Latched(st.faults.active) - {Fault.GFCI} != {} else id in st.faults.active;
    st.(faults := faults,
        cpEStreak := if cleared && (id == 0 || id == Fault.CP_NO_PILOT) then 0 else st.cpEStreak)
  }

  /** Leaving the fault phase: the pilot classifier and its fault streak start over. */
  function Recovered(st: State): State {
    var s := Transition(st, Ready);
    s.(faults := s.faults.(first := Fault.NONE), cpEStreak := 0, pilot := FRESH)
  }

  predicate Plugged(p: Pilot) {
    p == B || p == C || p == D
  }

  function Processed(st: State, r: Request): State {
    match r
    case ClearFault(id) =>
      if ClearRefused(id) then st
      else
        var s := AfterClear(st, id);
        if s.phase == Faulted && !LatchedActive(s) then Recovered(s) else s
    case UserPause => if st.phase == Ready || st.phase == Charging then Transition(st, UserPaused) else st
    case UserResume => if st.phase == UserPaused then Transition(st, Ready) else st
    case LearnArm => st.(learn := LEARN_TICKS)
    case SimulateReplug =>
      if !Plugged(st.pilot.committed) then st
      else if st.phase == Ready || st.phase == Charging || st.phase == UserPaused || st.phase == CoolingDown then
        Transition(st, UserPaused).(window := REPLUG_WINDOW_TICKS, cp := StateF)
      else st
    case Publish => st
    case RunGfciCalTest => st
    case Unknown => st
  }

  function Drained(st: State, requests: seq<Request>): State {
    if requests == [] then st else Processed(Drained(st, requests[..|requests| - 1]), requests[|requests| - 1])
  }

  /** At most four requests are taken in one tick. */
  function Taken(requests: seq<Request>): seq<Request> {
    if |requests| <= 4 then requests else requests[..4]
  }

  function WindowServed(st: State): State {
    if st.window == 0 then st
    else if st.window > 1 then st.(window := st.window - 1)
    else WindowOver(st.(window := 0))
  }

  /** After the window the charger is ready again, and the pilot is classified afresh. */
  function WindowOver(st: State): State {
    var s := if st.phase == UserPaused then Transition(st, Ready) else st;
    s.(cpEStreak := 0, pilot := FRESH)
  }

  function PilotStepped(st: State, mv: int): State {
    st.(pilot := Stepped(st.pilot, Classify(mv), DEBOUNCE_N))
  }

  // --------------------------------------------------------------- detectors

  function SafeFailChecked(st: State, safeFail: bool): State {
    if safeFail then Tripped(st, Fault.CRASH_LOOP_SAFE_FAIL) else st
  }

  function GfciChecked(st: State, x: GfciPolicy.Sample): State {
    var (c, act) := GfciPolicy.Stepped(st.gfci, x);
    var s := st.(gfci := c);
    if act == GfciPolicy.RaiseFault then
      Transition(s.(faults := Fault.Raised(s.faults, Fault.GFCI)), Faulted)
    else s
  }

  predicate OnRail(raw: nat) {
    raw < ADC_MIN || raw > ADC_MAX
  }

  function Counted(streak: nat, seen: bool, limit: nat): nat {
    if !seen then 0 else if streak < limit then streak + 1 else streak
  }

  /** The streak after a whole history of observations. */
  function CountedAll(h: seq<bool>, limit: nat): nat {
    if h == [] then 0 else Counted(CountedAll(h[..|h| - 1], limit), h[|h| - 1], limit)
  }

  /** A detector with limit `n` has reached it exactly when its last `n` observations all saw the condition. */
  lemma {:induction false} LimitReached(h: seq<bool>, limit: nat, n: nat)
    requires n <= limit
    ensures CountedAll(h, limit) <= limit
    ensures CountedAll(h, limit) >= n <==> n <= |h| && forall i :: |h| - n <= i < |h| ==> h[i]
    decreases n, |h|
  {
    if h != [] {
      var g := h[..|h| - 1];
      LimitReached(g, limit, 0);
      if n > 0 && h[|h| - 1] {
        LimitReached(g, limit, n - 1);
        assert forall i :: 0 <= i < |g| ==> g[i] == h[i];
      }
    }
  }

  function AdcChecked(st: State, rail: bool): State {
    if st.phase == Boot || st.phase == SelfTest || st.phase == Faulted then st.(adcStreak := 0)
    else
      var s := st.(adcStreak := Counted(st.adcStreak, rail, ADC_PERSIST_TICKS));
      if s.adcStreak >= ADC_PERSIST_TICKS then Tripped(s, Fault.ADC_OUT_OF_RANGE) else s
  }

  function CpEChecked(st: State): State {
    if st.phase == Faulted || st.window > 0 then st.(cpEStreak := 0)
    else
      var s := st.(cpEStreak := Counted(st.cpEStreak, st.pilot.committed == E, CP_E_PERSIST_TICKS));
      if s.cpEStreak >= CP_E_PERSIST_TICKS then Tripped(s, Fault.CP_NO_PILOT) else s
  }

  /** The detector's own record of the fault is first made to agree with the register. */
  function OverTempChecked(st: State, x: OverTemp.Sample): State {
    var (c, act) := OverTemp.Stepped(st.overTemp.(faultActive := Fault.OVER_TEMP in st.faults.active), x);
    var s := st.(overTemp := c);
    match act
    case Stay => s
    case Trip =>
      var t := s.(faults := Fault.Raised(s.faults, Fault.OVER_TEMP));
      if t.phase == Faulted then t else Transition(t, CoolingDown)
    case Clear =>
      var t := s.(faults := Fault.Cleared(s.faults, Fault.OVER_TEMP));
      if t.phase == CoolingDown then Transition(t, Ready) else t
  }

  // ------------------------------------------------------ phase, relay, pilot

  function Updated(st: State, requireAuth: bool): State {
    var js := st.pilot.committed;
    if st.phase != Ready && st.phase != Charging && st.phase != UserPaused then st.(cStreak := 0)
    else
      var s := if js == A then st.(authorized := false) else st;
      if s.phase == UserPaused then Held(s) else Dwelt(s, requireAuth)
  }

  /** A pause lasts until the vehicle is unplugged. */
  function Held(st: State): State {
    var s := st.(cStreak := 0);
    if s.pilot.committed == A then Transition(s, Ready) else s
  }

  /** Ready becomes charging after a second at C; charging ends the moment the pilot leaves C. */
  function Dwelt(st: State, requireAuth: bool): State {
    var js := st.pilot.committed;
    var s := st.(cStreak := Counted(st.cStreak, js == C, C_DWELL_TICKS));
    if s.phase == Ready && s.cStreak >= C_DWELL_TICKS && (!requireAuth || s.authorized) then Transition(s, Charging)
    else if s.phase == Charging && js != C then Transition(s, Ready)
    else s
  }

  predicate WantClosed(st: State) {
    st.phase == Charging && st.pilot.committed == C && !LatchedActive(st)
  }

  function RelayApplied(st: State): State {
    st.(closed := WantClosed(st))
  }

  function CpApplied(st: State, l: Limits): State {
    st.(cp :=
      if st.window > 0 || st.phase == Faulted then StateF
      else if st.phase == CoolingDown || st.phase == UserPaused then IdleHigh
      else if Plugged(st.pilot.committed) then Advertise(Amps(l, st.derate))
      else IdleHigh)
  }

  // -------------------------------------------------- detectors on the meter

  function Milliamps(r: Reading): nat
    requires r.scale > 0
  {
    r.iaRms * r.scale / 1000000
  }

  function AcChecked(st: State, r: Reading): State {
    if !r.valid then st
    else if r.vRms >= V_AC_PRESENT then
      st.(meter := st.meter.(acStreak := 0), faults := Fault.Cleared(st.faults, Fault.AC_ABSENT))
    else
      var s := st.(meter := st.meter.(acStreak := Counted(st.meter.acStreak, true, DETECTOR_PERSIST)));
      if s.meter.acStreak >= DETECTOR_PERSIST then s.(faults := Fault.Raised(s.faults, Fault.AC_ABSENT)) else s
  }

  function WeldChecked(st: State, r: Reading): State {
    if !r.valid then st
    else if r.scale <= 0 then st.(meter := st.meter.(weldStreak := 0))
    else
      var s := EdgeNoted(st);
      if s.meter.settle > 0 then s.(meter := s.meter.(settle := s.meter.settle - 1, weldStreak := 0))
      else WeldJudged(s, r)
  }

  /** An opening of the contactor since the last poll starts the settling time. */
  function EdgeNoted(st: State): State {
    st.(meter := st.meter.(settle := if st.meter.wasClosed && !st.closed then WELD_SETTLE_POLLS else st.meter.settle,
                           wasClosed := st.closed))
  }

  /** Current through a contactor that should be open, once it has had time to settle. */
  function WeldJudged(st: State, r: Reading): State
    requires r.scale > 0
  {
    var flow := Milliamps(r) >= FLOW_MA && !st.closed;
    var s := st.(meter := st.meter.(weldStreak := Counted(st.meter.weldStreak, flow, DETECTOR_PERSIST)));
    if s.meter.weldStreak >= DETECTOR_PERSIST then Tripped(s, Fault.RELAY_WELD) else s
  }

  function StuckChecked(st: State, r: Reading): State {
    if !r.valid then st
    else if r.scale <= 0 || st.phase != Charging || !st.closed then st.(meter := st.meter.(stuckStreak := 0))
    else
      var s := st.(meter := st.meter.(
        stuckStreak := Counted(st.meter.stuckStreak, Milliamps(r) < FLOW_MA, STUCK_OPEN_PERSIST)));
      if s.meter.stuckStreak >= STUCK_OPEN_PERSIST then Tripped(s, Fault.RELAY_STUCK_OPEN) else s
  }

  function HocThreshold(amps: nat): nat {
    var spec, ceiling := amps * 1000 * 120 / 100, HW_AMPS_MAX * 1000 * 125 / 100;
    if spec < ceiling then spec else ceiling
  }

  function HardChecked(st: State, l: Limits, r: Reading): State {
    if !r.valid then st
    else if r.scale <= 0 then st.(meter := st.meter.(hocStreak := 0))
    else
      var over := Milliamps(r) > HocThreshold(Amps(l, st.derate));
      var s := st.(meter := st.meter.(hocStreak := Counted(st.meter.hocStreak, over, HOC_PERSIST_POLLS)));
      if s.meter.hocStreak >= HOC_PERSIST_POLLS then Tripped(s, Fault.HARD_OVER_CURRENT) else s
  }

  /** The ramp as the supervisor holds it. */
  function RampOf(st: State): Ramp {
    Ramp(st.derate, st.meter.socStreak, Fault.SOFT_OVER_CURRENT in st.faults.active)
  }

  function WithRamp(st: State, r: Ramp): State {
    st.(derate := r.derate,
        meter := st.meter.(socStreak := r.streak),
        faults := if r.fault then Fault.Raised(st.faults, Fault.SOFT_OVER_CURRENT)
                  else Fault.Cleared(st.faults, Fault.SOFT_OVER_CURRENT))
  }

  function SoftChecked(st: State, l: Limits, r: Reading): State {
    if !r.valid then st
    else if r.scale <= 0 then st.(meter := st.meter.(socStreak := 0))
    else WithRamp(st, Polled(RampOf(st), l, Milliamps(r)))
  }

  // -------------------------------------------------------------------- tick

  function Swiped(st: State, swipe: Swipe): State {
    var s :=
      if swipe == NoCard then st
      else if st.learn > 0 then st.(learn := 0)
      else if swipe == KnownCard then st.(authorized := true)
      else st;
    s.(learn := if s.learn > 0 then s.learn - 1 else 0)
  }

  /** Requests, the replug window and the pilot. */
  function Begun(st: State, x: Input): State {
    PilotStepped(WindowServed(Drained(st, Taken(x.requests))), x.mv)
  }

  /** The fault detectors. */
  function Checked(st: State, x: Input): State {
    var s := GfciChecked(SafeFailChecked(st, x.safeFail), GfciPolicy.Sample(x.gfciLow, x.gfciPolicy));
    var t := CpEChecked(AdcChecked(s, OnRail(x.ac) || OnRail(x.ct) || OnRail(x.lct)));
    OverTempChecked(t, OverTemp.Sample(x.ntc1, x.gun, true, true))
  }

  /** Phase, contactor and pilot output. */
  function Driven(st: State, x: Input): State {
    CpApplied(RelayApplied(Updated(st, x.requireAuth)), x.limits)
  }

  /** Every twentieth tick the meter is polled and its detectors run. */
  function Metered(st: State, x: Input): State {
    if st.meter.div + 1 < POLL_TICKS then st.(meter := st.meter.(div := st.meter.div + 1))
    else
      var s := WeldChecked(AcChecked(st.(meter := st.meter.(div := 0)), x.reading), x.reading);
      SoftChecked(HardChecked(StuckChecked(s, x.reading), x.limits, x.reading), x.limits, x.reading)
  }

  /** The stages of a tick. */
  datatype Stage = Begin | Check | Drive | Meter | Card

  function Perform(st: State, x: Input, stage: Stage): State {
    match stage
    case Begin => Begun(st, x)
    case Check => Checked(st, x)
    case Drive => Driven(st, x)
    case Meter => Metered(st, x)
    case Card => Swiped(st, x.swipe)
  }

  /** The stages performed one after another. */
  function Performed(st: State, x: Input, stages: seq<Stage>): State
    decreases |stages|, st
  {
    if stages == [] then st
    else Perform(Performed(st, x, stages[..|stages| - 1]), x, stages[|stages| - 1])
  }

  /** Their order within a tick. */
  const STAGES: seq<Stage> := [Begin, Check, Drive, Meter, Card]
  const UP_TO_CHECK: seq<Stage> := [Begin, Check]
  const UP_TO_DRIVE: seq<Stage> := [Begin, Check, Drive]
  const UP_TO_METER: seq<Stage> := [Begin, Check, Drive, Meter]

  function Tick(st: State, x: Input): State {
    Performed(st, x, STAGES)
  }

  lemma OneMoreStage(st: State, x: Input, stages: seq<Stage>, stage: Stage)
    ensures Performed(st, x, stages + [stage]) == Perform(Performed(st, x, stages), x, stage)
  {
    assert (stages + [stage])[..|stages|] == stages;
  }

  /** What leads up to the outputs of a tick, and to its end, written out. */
  lemma StagesWrittenOut(st: State, x: Input)
    ensures Performed(st, x, UP_TO_CHECK) == Checked(Begun(st, x), x)
    ensures Performed(st, x, UP_TO_DRIVE) == Driven(Checked(Begun(st, x), x), x)
    ensures Performed(st, x, UP_TO_METER) == Metered(Driven(Checked(Begun(st, x), x), x), x)
    ensures Tick(st, x) == Swiped(Performed(st, x, UP_TO_METER), x.swipe)
  {
    assert UP_TO_CHECK == [] + [Begin] + [Check] && UP_TO_DRIVE == [] + [Begin] + [Check] + [Drive];
    assert UP_TO_METER == [] + [Begin] + [Check] + [Drive] + [Meter] && STAGES == UP_TO_METER + [Card];
    OneMoreStage(st, x, [], Begin);
    OneMoreStage(st, x, [] + [Begin], Check);
    OneMoreStage(st, x, [] + [Begin] + [Check], Drive);
    OneMoreStage(st, x, [] + [Begin] + [Check] + [Drive], Meter);
    OneMoreStage(st, x, UP_TO_METER, Card);
  }

  /** A tick written out. */
  lemma TickInStages(st: State, x: Input)
    ensures Tick(st, x) == Swiped(Metered(Driven(Checked(Begun(st, x), x), x), x), x.swipe)
  {
    StagesWrittenOut(st, x);
  }

  /** The state after any number of ticks. */
  function Run(st: State, xs: seq<Input>): State {
    if xs == [] then st else Tick(Run(st, xs[..|xs| - 1]), xs[|xs| - 1])
  }

  // -------------------------------------------------------------------- boot

  /** What the boot path sees: five pilot samples, four rails and the crash latch. */
  datatype BootInput = BootInput(pilot: seq<int>, ac: nat, ct: nat, lct: nat, cpRaw: nat, safeFail: bool)

  predicate SelfTestFails(x: BootInput) {
    || OnRail(x.ac) || OnRail(x.ct) || OnRail(x.lct) || OnRail(x.cpRaw)
    || (if x.pilot == [] then 0 else x.pilot[|x.pilot| - 1]) < CP_PILOT_PRESENT_MV
  }

  function PilotWarmUp(st: State, samples: seq<int>): State {
    if samples == [] then st
    else PilotStepped(PilotWarmUp(st, samples[..|samples| - 1]), samples[|samples| - 1])
  }

  const POWER_ON := State(Boot, Fault.CLEAN, FRESH, false, 0, 0, false, 0, false, false, IdleHigh,
                          GfciPolicy.IDLE, OverTemp.Context(0, false), 0, 0, 0,
                          Metering(0, 0, 0, 0, false, 0, 0, 0))

  function Booted(x: BootInput): State {
    var warm := PilotWarmUp(Transition(POWER_ON, SelfTest), x.pilot);
    var tested := if SelfTestFails(x) then Tripped(warm, Fault.BOOT_SELF_TEST) else warm;
    var checked := SafeFailChecked(tested, x.safeFail);
    if checked.phase == Faulted then checked else Transition(checked, Ready)
  }
}
