/**
 * Ticks in which nothing untoward is sensed, worked out: what they do to the pilot, the
 * dwell, the phase and the contactor. Concrete runs are put together from them.
 */
module EvseCalm {
  import opened J1772
  import GfciPolicy
  import OverTemp
  import opened SoftOverCurrent
  import opened Evse
  import opened EvseInvariant
  import opened EvseRuns
  import opened EvseHeat

  // ---------------------------------------------------------------- putting runs together

  function Times(x: Input, n: nat): (xs: seq<Input>)
    ensures |xs| == n
  {
    seq(n, _ => x)
  }

  lemma OneMoreTick(st: State, x: Input, n: nat)
    ensures Run(st, Times(x, n + 1)) == Tick(Run(st, Times(x, n)), x)
    ensures Run(st, Times(x, 0)) == st
  {
    assert Times(x, n + 1)[..n] == Times(x, n);
  }

  lemma {:induction false} RunInTwo(st: State, xs: seq<Input>, ys: seq<Input>)
    ensures Run(st, xs + ys) == Run(Run(st, xs), ys)
    decreases |ys|
  {
    if ys == [] {
      assert xs + ys == xs;
    } else {
      assert (xs + ys)[..|xs + ys| - 1] == xs + ys[..|ys| - 1];
      RunInTwo(st, xs, ys[..|ys| - 1]);
    }
  }

  // ------------------------------------------------------------------- calm inputs

  /** No meter reading yet. */
  const UNREAD := Reading(false, 0, 0, 0)

  /** All inputs in order, the sensors of plug and cable both hot or both cool, 48 A on offer. */
  function CalmInput(mv: int, hot: bool, r: Reading): Input {
    var ntc := if hot then 350 else 2000;
    Input([], mv, false, false, 0, ntc, 2000, 2000, ntc, ntc, false, Limits(true, 0), r, NoCard)
  }

  predicate IsCalm(x: Input) {
    x == CalmInput(x.mv, SampleOf(x).Hot(), x.reading).(requests := x.requests)
  }

  /** No detector of the sensors has begun to count, and nobody is about to be learnt. */
  predicate Unsuspecting(st: State) {
    st.gfci == GfciPolicy.IDLE && st.adcStreak == 0 && st.cpEStreak == 0 && st.learn == 0
  }

  /** The sensors' checks find nothing to do, and over-temperature is what it was. */
  lemma ChecksPass(a: State, x: Input)
    requires IsCalm(x) && Unsuspecting(a)
    requires a.phase == Ready || a.phase == Charging || a.phase == UserPaused || a.phase == CoolingDown
    requires a.window > 0 || a.pilot.committed != E
    requires IsHot(a) <==> SampleOf(x).Hot()
    ensures Checked(a, x) == a.(overTemp := OverTemp.Context(0, IsHot(a)))
  {
    EarlyChecksPass(a, x);
  }

  lemma EarlyChecksPass(a: State, x: Input)
    requires IsCalm(x) && Unsuspecting(a)
    requires a.phase == Ready || a.phase == Charging || a.phase == UserPaused || a.phase == CoolingDown
    requires a.window > 0 || a.pilot.committed != E
    ensures Checked(a, x) == OverTempChecked(a, SampleOf(x))
  {
    var s := GfciChecked(SafeFailChecked(a, false), GfciPolicy.Sample(false, 0));
    assert s == a;
    assert CpEChecked(AdcChecked(s, false)) == a;
  }

  function PilotAfter(st: State, mv: int): Debouncer {
    Stepped(st.pilot, Classify(mv), DEBOUNCE_N)
  }

  /** A calm tick from the state `d` after its requests. */
  lemma CalmTick(st: State, d: State, x: Input)
    requires d == Drained(st, Taken(x.requests)) && IsCalm(x) && Unsuspecting(d) && d.window != 1
    requires d.phase == Ready || d.phase == Charging || d.phase == UserPaused || d.phase == CoolingDown
    requires d.window > 0 || PilotAfter(d, x.mv).committed != E
    requires IsHot(d) <==> SampleOf(x).Hot()
    ensures var b := d.(window := if d.window > 0 then d.window - 1 else 0, pilot := PilotAfter(d, x.mv),
                        overTemp := OverTemp.Context(0, IsHot(d)));
      Tick(st, x) == AfterPilot(Driven(b, x), x)
  {
    TickInStages(st, x);
    var a := Begun(st, x);
    assert a == d.(window := if d.window > 0 then d.window - 1 else 0, pilot := PilotAfter(d, x.mv));
    ChecksPass(a, x);
  }

  lemma NoRequests(st: State)
    ensures Drained(st, Taken([])) == st
  {
  }

  /** Without a reading the meter only counts ticks. */
  lemma UnreadMeter(c: State, x: Input)
    requires x.reading == UNREAD && x.swipe == NoCard && c.learn == 0
    ensures AfterPilot(c, x) == c.(meter := c.meter.(div := NextDiv(c.meter.div)))
  {
  }

  function NextDiv(div: nat): nat {
    if div + 1 < POLL_TICKS then div + 1 else 0
  }

  /** The same but for the pilot, the dwell and the outputs; the meter has only counted ticks. */
  predicate Alike(a: State, b: State) {
    && b.faults == a.faults && b.derate == a.derate && b.meter == a.meter.(div := b.meter.div)
    && Unsuspecting(b)
  }

  /** The pilot has settled on a class. */
  predicate Settled(p: Debouncer, s: Pilot) {
    p.committed == s && p.candidate == s && p.streak >= DEBOUNCE_N
  }

  /** Ready outside a window, with the vehicle at C for `n` ticks. */
  predicate Dwelling(st: State, n: nat) {
    st.phase == Ready && st.window == 0 && st.cStreak == n && Settled(st.pilot, C) && Unsuspecting(st)
  }

  /** Ready outside a window, the pilot on its way from something else to C for `n` ticks. */
  predicate Arriving(st: State, n: nat) {
    && st.phase == Ready && st.window == 0 && st.cStreak == 0 && Unsuspecting(st)
    && st.pilot.committed != C && st.pilot.committed != E && n < DEBOUNCE_N
    && if n == 0 then st.pilot.candidate != C else st.pilot.candidate == C && st.pilot.streak == n
  }

  lemma DwellTick(st: State, x: Input, n: nat)
    requires Core(st) && Dwelling(st, n) && n < C_DWELL_TICKS - 1
    requires x == CalmInput(6000, IsHot(st), UNREAD)
    ensures Dwelling(Tick(st, x), n + 1) && Alike(st, Tick(st, x))
    ensures Tick(st, x).meter.div == NextDiv(st.meter.div)
  {
    NoRequests(st);
    CalmTick(st, st, x);
    var b := st.(pilot := PilotAfter(st, 6000), overTemp := OverTemp.Context(0, IsHot(st)));
    UnreadMeter(Driven(b, x), x);
  }

  lemma ArriveTick(st: State, x: Input, n: nat)
    requires Core(st) && Arriving(st, n)
    requires x == CalmInput(6000, IsHot(st), UNREAD)
    ensures if n + 1 < DEBOUNCE_N then Arriving(Tick(st, x), n + 1) else Dwelling(Tick(st, x), 1)
    ensures Alike(st, Tick(st, x))
    ensures Tick(st, x).meter.div == NextDiv(st.meter.div)
  {
    NoRequests(st);
    CalmTick(st, st, x);
    var b := st.(pilot := PilotAfter(st, 6000), overTemp := OverTemp.Context(0, IsHot(st)));
    UnreadMeter(Driven(b, x), x);
  }

  /** The fiftieth tick of the dwell starts the session, with whatever derate there is. */
  lemma StartTick(st: State, x: Input)
    requires Core(st) && Dwelling(st, C_DWELL_TICKS - 1)
    requires x == CalmInput(6000, IsHot(st), UNREAD)
    ensures var t := Tick(st, x);
      && t.phase == Charging && t.closed && t.session && t.window == 0 && t.cStreak == C_DWELL_TICKS
      && Settled(t.pilot, C) && Alike(st, t) && t.cp == Advertise(Amps(Limits(true, 0), st.derate))
      && t.meter.div == NextDiv(st.meter.div)
  {
    NoRequests(st);
    CalmTick(st, st, x);
    var b := st.(pilot := PilotAfter(st, 6000), overTemp := OverTemp.Context(0, IsHot(st)));
    UnreadMeter(Driven(b, x), x);
    assert !LatchedActive(st);
  }

  lemma {:induction false} DwellRun(st: State, x: Input, from: nat, n: nat)
    requires Core(st) && Dwelling(st, from) && from + n <= C_DWELL_TICKS - 1
    requires x == CalmInput(6000, IsHot(st), UNREAD)
    ensures var t := Run(st, Times(x, n));
      && Core(t) && Dwelling(t, from + n) && Alike(st, t)
      && (st.meter.div < POLL_TICKS ==> t.meter.div == (st.meter.div + n) % POLL_TICKS)
    decreases n
  {
    OneMoreTick(st, x, if n == 0 then 0 else n - 1);
    if n > 0 {
      DwellRun(st, x, from, n - 1);
      var s := Run(st, Times(x, n - 1));
      DwellTick(s, x, from + n - 1);
      TickEndsWell(s, x);
      if st.meter.div < POLL_TICKS {
        DivStep(st.meter.div, n);
      }
    }
  }

  lemma DivStep(div: nat, n: nat)
    requires div < POLL_TICKS && n > 0
    ensures NextDiv((div + n - 1) % POLL_TICKS) == (div + n) % POLL_TICKS
  {
  }

  /** Three ticks bring the pilot to C, and forty-nine more start a session. */
  lemma ArrivalRun(st: State)
    requires EndOfTick(st) && Arriving(st, 0)
    ensures var x := CalmInput(6000, IsHot(st), UNREAD);
      var s, t := Run(st, Times(x, 51)), Run(st, Times(x, 52));
      && EndOfTick(s) && s.phase == Ready
      && t.phase == Charging && t.closed && t.session && t.window == 0
      && Alike(st, t) && t.cp == Advertise(Amps(Limits(true, 0), st.derate))
  {
    var x := CalmInput(6000, IsHot(st), UNREAD);
    ArriveThree(st, x);
    var c := Run(st, Times(x, 3));
    DwellRun(c, x, 1, 48);
    var s := Run(c, Times(x, 48));
    RunInTwo(st, Times(x, 3), Times(x, 48));
    assert Times(x, 3) + Times(x, 48) == Times(x, 51);
    RunEndsWell(st, Times(x, 51));
    StartTick(s, x);
    OneMoreTick(st, x, 51);
  }

  lemma ArriveThree(st: State, x: Input)
    requires EndOfTick(st) && Arriving(st, 0) && x == CalmInput(6000, IsHot(st), UNREAD)
    ensures var t := Run(st, Times(x, 3)); EndOfTick(t) && Dwelling(t, 1) && Alike(st, t)
  {
    var a := Tick(st, x);
    ArriveTick(st, x, 0);
    TickEndsWell(st, x);
    var b := Tick(a, x);
    ArriveTick(a, x, 1);
    TickEndsWell(a, x);
    ArriveTick(b, x, 2);
    TickEndsWell(b, x);
    ThreeTicks(st, x);
  }

  lemma ThreeTicks(st: State, x: Input)
    ensures Run(st, Times(x, 3)) == Tick(Tick(Tick(st, x), x), x)
  {
    OneMoreTick(st, x, 0);
    OneMoreTick(st, x, 1);
    OneMoreTick(st, x, 2);
  }
}
