/**
 * Properties one might expect of the supervisor that it does not have: for each, a run from
 * boot in which it fails. What holds instead is in `EvseDerate`, `EvseWindow` and `EvseHeat`.
 */
module EvseGaps {
  import opened J1772
  import Fault
  import GfciPolicy
  import OverTemp
  import opened SoftOverCurrent
  import opened Evse
  import opened EvseInvariant
  import opened EvseRuns
  import opened EvseHeat
  import opened EvseCalm

  // ------------------------------------------------------------------------ boot

  /** A boot with everything in order and the vehicle at C. */
  const AT_C := BootInput([6000, 6000, 6000, 6000, 6000], 2000, 2000, 2000, 2000, false)

  lemma WarmUpStep(st: State, samples: seq<int>, mv: int)
    ensures PilotWarmUp(st, samples + [mv]) == PilotStepped(PilotWarmUp(st, samples), mv)
  {
    assert (samples + [mv])[..|samples|] == samples;
  }

  lemma WarmUpAtC(st: State)
    requires st.pilot == FRESH
    ensures PilotWarmUp(st, AT_C.pilot).pilot == Debouncer(C, C, 5)
  {
    var a, b, c, d := [6000], [6000, 6000], [6000, 6000, 6000], [6000, 6000, 6000, 6000];
    assert a == [] + [6000] && b == a + [6000] && c == b + [6000] && d == c + [6000] && AT_C.pilot == d + [6000];
    WarmUpStep(st, [], 6000);
    WarmUpStep(st, a, 6000);
    WarmUpStep(st, b, 6000);
    WarmUpStep(st, c, 6000);
    WarmUpStep(st, d, 6000);
  }

  lemma BootAtC()
    ensures var st := Booted(AT_C);
      EndOfTick(st) && Dwelling(st, 0) && st.faults == Fault.CLEAN && st.derate == 0 && st.meter == POWER_ON.meter
      && st.overTemp == OverTemp.Context(0, false)
  {
    BootEndsWell(AT_C);
    var start := Transition(POWER_ON, SelfTest);
    WarmUpOnlyPilot(start, AT_C.pilot);
    WarmUpAtC(start);
  }

  const WAIT := CalmInput(6000, false, UNREAD)

  /** Fifty ticks after that boot a session has started. */
  lemma FiftyTicks()
    ensures var t := Run(Booted(AT_C), Times(WAIT, 50));
      && EndOfTick(t) && t.phase == Charging && t.closed && t.session && t.window == 0 && t.cStreak == C_DWELL_TICKS
      && Settled(t.pilot, C) && t.faults == Fault.CLEAN && t.derate == 0 && Unsuspecting(t)
      && t.meter == POWER_ON.meter.(div := 10)
  {
    BootAtC();
    var st := Booted(AT_C);
    DwellRun(st, WAIT, 0, 49);
    OneMoreTick(st, WAIT, 49);
    var s := Run(st, Times(WAIT, 49));
    StartTick(s, WAIT);
    RunEndsWell(st, Times(WAIT, 50));
  }

  // ----------------------------------------------- a session that starts derated

  /** 52 A, where 48 A are on offer: above 105 %, below 120 %. */
  const HIGH := Reading(true, V_AC_PRESENT, 5_200_000, 10_000)
  const DRAW := CalmInput(6000, false, HIGH)
  const LEFT := CalmInput(9000, false, HIGH)

  /** The parts of the meter that this run leaves at rest. */
  predicate AtRest(m: Metering) {
    m.acStreak == 0 && m.weldStreak == 0 && m.settle == 0 && m.stuckStreak == 0 && m.hocStreak == 0 && m.div < POLL_TICKS
  }

  /** Charging, and drawing too much for `n` ticks. */
  predicate Drawing(st: State, n: nat) {
    && st.phase == Charging && st.session && st.closed && st.window == 0 && st.cStreak == C_DWELL_TICKS
    && st.faults == Fault.CLEAN && st.derate == 0 && Unsuspecting(st) && Settled(st.pilot, C)
    && AtRest(st.meter) && (n >= 10 ==> st.meter.wasClosed) && st.meter.div + POLL_TICKS * st.meter.socStreak == 10 + n
  }

  /** What the poll of such a tick makes of the meter. */
  lemma HighPoll(c: State, x: Input)
    requires x.reading == HIGH && x.limits == Limits(true, 0) && x.swipe == NoCard && c.learn == 0
    requires c.closed && c.phase == Charging && c.faults == Fault.CLEAN && c.derate == 0
    requires AtRest(c.meter) && Polls(c) && c.meter.socStreak < PERSIST_POLLS
    ensures AfterPilot(c, x) ==
      c.(meter := c.meter.(div := 0, wasClosed := true, weldStreak := 0, socStreak := c.meter.socStreak + 1))
  {
    assert Milliamps(HIGH) == 52000;
    var z := c.(meter := c.meter.(div := 0));
    assert AcChecked(z, HIGH) == z;
    var w := z.(meter := z.meter.(wasClosed := true, weldStreak := 0));
    assert WeldChecked(z, HIGH) == w;
    assert StuckChecked(w, HIGH) == w;
    assert HardChecked(w, x.limits, HIGH) == w;
  }

  predicate Polls(st: State) {
    st.meter.div + 1 >= POLL_TICKS
  }

  lemma NoPollYet(c: State, x: Input)
    requires x.swipe == NoCard && c.learn == 0 && !Polls(c)
    ensures AfterPilot(c, x) == c.(meter := c.meter.(div := c.meter.div + 1))
  {
  }

  lemma DrawTick(st: State, n: nat)
    requires Core(st) && Drawing(st, n) && n < 1490
    ensures Drawing(Tick(st, DRAW), n + 1)
  {
    NoRequests(st);
    CalmTick(st, st, DRAW);
    var b := st.(pilot := PilotAfter(st, 6000), overTemp := OverTemp.Context(0, false));
    var c := Driven(b, DRAW);
    assert !LatchedActive(b);
    assert c == b.(cp := c.cp);
    if Polls(c) {
      HighPoll(c, DRAW);
    } else {
      NoPollYet(c, DRAW);
    }
  }

  lemma {:induction false} DrawRun(st: State, n: nat)
    requires EndOfTick(st) && Drawing(st, 0) && n <= 1490
    ensures EndOfTick(Run(st, Times(DRAW, n))) && Drawing(Run(st, Times(DRAW, n)), n)
    decreases n
  {
    OneMoreTick(st, DRAW, if n == 0 then 0 else n - 1);
    if n > 0 {
      DrawRun(st, n - 1);
      DrawTick(Run(st, Times(DRAW, n - 1)), n - 1);
      TickEndsWell(Run(st, Times(DRAW, n - 1)), DRAW);
    }
  }

  predicate LeavingC(p: Debouncer, n: nat) {
    if n == 0 then Settled(p, C)
    else if n < DEBOUNCE_N then p.committed == C && p.candidate == B && p.streak == n
    else Settled(p, B)
  }

  /** For `n` ticks the pilot has been at B; from the third on the session is over. */
  predicate Leaving(st: State, n: nat) {
    && st.window == 0 && st.faults == Fault.CLEAN && st.derate == 0 && Unsuspecting(st)
    && AtRest(st.meter) && st.meter.wasClosed && st.meter.socStreak == PERSIST_POLLS && st.meter.div == n
    && LeavingC(st.pilot, n)
    && if n < DEBOUNCE_N then st.phase == Charging && st.session && st.closed && st.cStreak == C_DWELL_TICKS
       else st.phase == Ready && !st.session && !st.closed && st.cStreak == 0
  }

  /** Phase and contactor in such a tick. */
  lemma LeaveDrives(st: State, n: nat)
    requires Core(st) && Leaving(st, n) && n < POLL_TICKS
    ensures var b := st.(pilot := PilotAfter(st, 9000), overTemp := OverTemp.Context(0, false));
      var c := Driven(b, LEFT);
      && Tick(st, LEFT) == AfterPilot(c, LEFT) && LeavingC(c.pilot, n + 1)
      && c.meter == st.meter && c.faults == st.faults && c.derate == 0 && c.window == 0 && Unsuspecting(c)
      && if n + 1 < DEBOUNCE_N then c.phase == Charging && c.session && c.closed && c.cStreak == C_DWELL_TICKS
         else c.phase == Ready && !c.session && !c.closed && c.cStreak == 0
  {
    NoRequests(st);
    CalmTick(st, st, LEFT);
    assert !LatchedActive(st);
  }

  lemma LeaveTick(st: State, n: nat)
    requires Core(st) && Leaving(st, n) && n + 1 < POLL_TICKS
    ensures Leaving(Tick(st, LEFT), n + 1)
  {
    LeaveDrives(st, n);
    var b := st.(pilot := PilotAfter(st, 9000), overTemp := OverTemp.Context(0, false));
    NoPollYet(Driven(b, LEFT), LEFT);
  }

  lemma {:induction false} LeaveRun(st: State, n: nat)
    requires EndOfTick(st) && Leaving(st, 0) && n < POLL_TICKS
    ensures EndOfTick(Run(st, Times(LEFT, n))) && Leaving(Run(st, Times(LEFT, n)), n)
    decreases n
  {
    OneMoreTick(st, LEFT, if n == 0 then 0 else n - 1);
    if n > 0 {
      LeaveRun(st, n - 1);
      LeaveTick(Run(st, Times(LEFT, n - 1)), n - 1);
      TickEndsWell(Run(st, Times(LEFT, n - 1)), LEFT);
    }
  }

  /** The next poll, its reading still high, ramps although the session is over. */
  lemma LatePoll(c: State, x: Input)
    requires x.reading == HIGH && x.limits == Limits(true, 0) && x.swipe == NoCard && c.learn == 0
    requires !c.closed && c.phase == Ready && c.faults == Fault.CLEAN && c.derate == 0
    requires AtRest(c.meter) && c.meter.wasClosed && Polls(c) && c.meter.socStreak == PERSIST_POLLS
    ensures AfterPilot(c, x) ==
      c.(derate := 4, meter := c.meter.(div := 0, wasClosed := false, settle := 7, socStreak := 0))
  {
    assert Milliamps(HIGH) == 52000;
    var z := c.(meter := c.meter.(div := 0));
    assert AcChecked(z, HIGH) == z;
    var w := z.(meter := z.meter.(wasClosed := false, settle := 7));
    assert WeldChecked(z, HIGH) == w;
    assert StuckChecked(w, HIGH) == w;
    assert HardChecked(w, x.limits, HIGH) == w;
  }

  /** The twentieth tick at B. */
  lemma LateRamp(st: State)
    requires Core(st) && Leaving(st, POLL_TICKS - 1)
    ensures var t := Tick(st, LEFT);
      Arriving(t, 0) && t.derate == 4 && t.faults == Fault.CLEAN && t.phase == Ready
  {
    LeaveDrives(st, POLL_TICKS - 1);
    var b := st.(pilot := PilotAfter(st, 9000), overTemp := OverTemp.Context(0, false));
    LatePoll(Driven(b, LEFT), LEFT);
  }

  /** Fifty ticks to a session, 75 polls over the threshold, twenty ticks unplugged to B, back at C. */
  function DeratedStory(): seq<Input> {
    Times(WAIT, 50) + Times(DRAW, 1490) + Times(LEFT, 20) + Times(WAIT, 51)
  }

  /** Where the third part of it ends. */
  lemma AfterLeaving()
    ensures var t := Run(Booted(AT_C), Times(WAIT, 50) + Times(DRAW, 1490) + Times(LEFT, 20));
      EndOfTick(t) && Arriving(t, 0) && t.derate == 4 && t.faults == Fault.CLEAN
  {
    var st := Booted(AT_C);
    FiftyTicks();
    var a := Run(st, Times(WAIT, 50));
    DrawRun(a, 1490);
    RunInTwo(st, Times(WAIT, 50), Times(DRAW, 1490));
    var b := Run(a, Times(DRAW, 1490));
    LeaveRun(b, 19);
    OneMoreTick(b, LEFT, 19);
    LateRamp(Run(b, Times(LEFT, 19)));
    RunInTwo(st, Times(WAIT, 50) + Times(DRAW, 1490), Times(LEFT, 20));
    BootAtC();
    RunEndsWell(st, Times(WAIT, 50) + Times(DRAW, 1490) + Times(LEFT, 20));
  }

  /**
   * A session can start with a derate: a poll that comes after the end of a session, while
   * the reading is still high and the streak of that session still stands, ramps, and
   * nothing takes the derate away before the next session. It starts at 44 of 48 A.
   */
  lemma StartsDerated()
    ensures var s, t := Run(Booted(AT_C), DeratedStory()), Run(Booted(AT_C), DeratedStory() + [WAIT]);
      && EndOfTick(s) && !s.session && t.session && t.closed
      && t.derate == 4 && t.cp == Advertise(44) && Amps(WAIT.limits, 0) == 48
  {
    var st := Booted(AT_C);
    var start := Times(WAIT, 50) + Times(DRAW, 1490) + Times(LEFT, 20);
    AfterLeaving();
    var r := Run(st, start);
    ArrivalRun(r);
    RunInTwo(st, start, Times(WAIT, 51));
    assert DeratedStory() + [WAIT] == start + Times(WAIT, 52);
    RunInTwo(st, start, Times(WAIT, 52));
  }

  // ------------------------------------------------ a contactor that closes while hot

  const HOT := CalmInput(6000, true, UNREAD)

  /** The reading of the pilot while it is driven to state F. */
  const DRIVEN_F: int := 725
  const HOT_REPLUG := CalmInput(DRIVEN_F, true, UNREAD).(requests := [SimulateReplug])
  const HOT_WINDOW := CalmInput(DRIVEN_F, true, UNREAD)

  /** Ready at C, and hot for `n` ticks. */
  predicate Heating(st: State, n: nat) {
    Dwelling(st, n) && st.faults == Fault.CLEAN && st.overTemp == OverTemp.Context(n, false)
  }

  lemma HeatTick(st: State, n: nat)
    requires EndOfTick(st) && Heating(st, n) && n < OverTemp.PERSIST_TICKS - 1
    ensures EndOfTick(Tick(st, HOT)) && Heating(Tick(st, HOT), n + 1)
  {
    TickEndsWell(st, HOT);
    TickInStages(st, HOT);
    NoRequests(st);
    var a := Begun(st, HOT);
    assert a == st.(pilot := PilotAfter(st, 6000));
    EarlyChecksPass(a, HOT);
    var b := a.(overTemp := OverTemp.Context(n + 1, false));
    assert OverTempChecked(a, SampleOf(HOT)) == b;
    UnreadMeter(Driven(b, HOT), HOT);
  }

  /** Too hot, nothing else wrong, and the pilot anything but unplugged. */
  predicate OnlyHot(st: State) {
    st.faults.active == {Fault.OVER_TEMP} && Unsuspecting(st) && st.pilot.committed != A && st.cStreak == 0
  }

  /** The fifth hot tick trips. */
  lemma HeatTrips(st: State)
    requires EndOfTick(st) && Heating(st, OverTemp.PERSIST_TICKS - 1)
    ensures var t := Tick(st, HOT);
      EndOfTick(t) && OnlyHot(t) && t.phase == CoolingDown && t.pilot.committed == C && t.window == 0
  {
    TickEndsWell(st, HOT);
    TickInStages(st, HOT);
    NoRequests(st);
    var a := Begun(st, HOT);
    assert a == st.(pilot := PilotAfter(st, 6000));
    EarlyChecksPass(a, HOT);
    var b := a.(overTemp := OverTemp.Context(5, true), faults := Fault.Faults({Fault.OVER_TEMP}, Fault.OVER_TEMP),
                phase := CoolingDown);
    assert Fault.Raised(Fault.CLEAN, Fault.OVER_TEMP) == b.faults;
    assert OverTempChecked(a, SampleOf(HOT)) == b;
    UnreadMeter(Driven(b, HOT), HOT);
  }

  lemma FiveHotTicks()
    ensures var t := Run(Booted(AT_C), Times(HOT, 5));
      EndOfTick(t) && OnlyHot(t) && t.phase == CoolingDown && t.pilot.committed == C && t.window == 0
  {
    BootAtC();
    var s0 := Booted(AT_C);
    var s1 := Tick(s0, HOT);
    HeatTick(s0, 0);
    OneMoreTick(s0, HOT, 0);
    var s2 := Tick(s1, HOT);
    HeatTick(s1, 1);
    OneMoreTick(s0, HOT, 1);
    var s3 := Tick(s2, HOT);
    HeatTick(s2, 2);
    OneMoreTick(s0, HOT, 2);
    var s4 := Tick(s3, HOT);
    HeatTick(s3, 3);
    OneMoreTick(s0, HOT, 3);
    HeatTrips(s4);
    OneMoreTick(s0, HOT, 4);
  }

  /** Paused by a simulated replug for `n` ticks. */
  predicate Replugging(st: State, n: nat) {
    OnlyHot(st) && st.phase == UserPaused && st.window == REPLUG_WINDOW_TICKS - n
  }

  lemma ReplugTick(st: State)
    requires EndOfTick(st) && OnlyHot(st) && st.phase == CoolingDown && st.pilot.committed == C && st.window == 0
    ensures var t := Tick(st, HOT_REPLUG); EndOfTick(t) && Replugging(t, 1)
  {
    var x := HOT_REPLUG;
    TickEndsWell(st, x);
    var d := Drained(st, Taken(x.requests));
    assert Taken(x.requests) == [] + [SimulateReplug];
    assert Drained(st, [] + [SimulateReplug]) == Processed(st, SimulateReplug);
    assert d.phase == UserPaused && d.window == REPLUG_WINDOW_TICKS && d.faults == st.faults;
    CalmTick(st, d, x);
    var b := d.(window := d.window - 1, pilot := PilotAfter(d, x.mv), overTemp := OverTemp.Context(0, true));
    UnreadMeter(Driven(b, x), x);
  }

  lemma WindowTick(st: State, n: nat)
    requires EndOfTick(st) && Replugging(st, n) && 0 < n < REPLUG_WINDOW_TICKS - 1
    ensures var t := Tick(st, HOT_WINDOW); EndOfTick(t) && Replugging(t, n + 1)
  {
    var x := HOT_WINDOW;
    TickEndsWell(st, x);
    NoRequests(st);
    CalmTick(st, st, x);
    var b := st.(window := st.window - 1, pilot := PilotAfter(st, x.mv), overTemp := OverTemp.Context(0, true));
    UnreadMeter(Driven(b, x), x);
  }

  lemma {:induction false} WindowRun(st: State, n: nat)
    requires EndOfTick(st) && Replugging(st, 1) && n < REPLUG_WINDOW_TICKS - 1
    ensures EndOfTick(Run(st, Times(HOT_WINDOW, n))) && Replugging(Run(st, Times(HOT_WINDOW, n)), n + 1)
    decreases n
  {
    OneMoreTick(st, HOT_WINDOW, if n == 0 then 0 else n - 1);
    if n > 0 {
      WindowRun(st, n - 1);
      WindowTick(Run(st, Times(HOT_WINDOW, n - 1)), n);
    }
  }

  /** The tick that ends the window makes the charger ready, hot as it is. */
  lemma WindowEnds(st: State)
    requires EndOfTick(st) && Replugging(st, REPLUG_WINDOW_TICKS - 1)
    ensures var t := Tick(st, HOT_WINDOW);
      EndOfTick(t) && Arriving(t, 0) && t.faults.active == {Fault.OVER_TEMP}
  {
    var x := HOT_WINDOW;
    TickEndsWell(st, x);
    TickInStages(st, x);
    NoRequests(st);
    var a := Begun(st, x);
    assert a == Transition(st, Ready).(window := 0, cpEStreak := 0, pilot := Debouncer(Invalid, E, 1));
    ChecksPass(a, x);
    var b := a.(overTemp := OverTemp.Context(0, true));
    UnreadMeter(Driven(b, x), x);
  }

  /** Five hot ticks, a simulated replug and nothing else, its window, and the vehicle back at C. */
  function HotStory(): seq<Input> {
    Times(HOT, 5) + [HOT_REPLUG] + Times(HOT_WINDOW, 149) + Times(HOT, 52)
  }

  lemma ThroughTheWindow()
    ensures var t := Run(Booted(AT_C), Times(HOT, 5) + [HOT_REPLUG] + Times(HOT_WINDOW, 149));
      EndOfTick(t) && Arriving(t, 0) && t.faults.active == {Fault.OVER_TEMP}
  {
    var st := Booted(AT_C);
    FiveHotTicks();
    var a := Run(st, Times(HOT, 5));
    ReplugTick(a);
    var xs := Times(HOT, 5) + [HOT_REPLUG];
    assert xs[..5] == Times(HOT, 5);
    var b := Run(st, xs);
    WindowRun(b, 148);
    OneMoreTick(b, HOT_WINDOW, 148);
    WindowEnds(Run(b, Times(HOT_WINDOW, 148)));
    RunInTwo(st, xs, Times(HOT_WINDOW, 149));
  }

  /**
   * The contactor can close while over-temperature is active: a simulated replug takes the
   * charger out of cooling down, and after its window the vehicle starts a session as ever.
   */
  lemma ClosesWhileHot()
    ensures var t := Run(Booted(AT_C), HotStory());
      IsHot(t) && t.closed && t.session && t.window == 0
  {
    var st := Booted(AT_C);
    var xs := Times(HOT, 5) + [HOT_REPLUG] + Times(HOT_WINDOW, 149);
    ThroughTheWindow();
    BootAtC();
    RunEndsWell(st, xs);
    var t := Run(st, xs);
    ArrivalRun(t);
    RunInTwo(st, xs, Times(HOT, 52));
  }

  // --------------------------------------- a contactor closed in the replug window

  const RESUMED := CalmInput(6000, false, UNREAD).(requests := [SimulateReplug, UserResume])
  const WINDOW_TICK := CalmInput(DRIVEN_F, false, UNREAD)

  lemma DrainTwo(st: State, r: Request, q: Request)
    ensures Drained(st, [r, q]) == Processed(Processed(st, r), q)
  {
    assert [r, q][..1] == [r] && [r][..0] == [];
    assert Drained(st, [r]) == Processed(Drained(st, []), r);
  }

  /** In the window for `n` ticks, and still charging: the pilot has not been committed to E yet. */
  predicate StillClosed(st: State, n: nat) {
    && st.phase == Charging && st.closed && st.window == REPLUG_WINDOW_TICKS - n && st.cp == StateF
    && st.faults == Fault.CLEAN && Unsuspecting(st) && st.pilot.committed == C
    && if n == 1 then Settled(st.pilot, C) else st.pilot.candidate == E && st.pilot.streak == n - 1
  }

  lemma DrainResumed(st: State)
    requires Core(st) && st.phase == Charging && st.pilot.committed == C
    ensures Drained(st, Taken(RESUMED.requests)) ==
      st.(phase := Ready, session := false, derate := 0, window := REPLUG_WINDOW_TICKS, cp := StateF, latch := false)
  {
    DrainTwo(st, SimulateReplug, UserResume);
    ReplugEndsSession(st);
  }

  lemma ReplugEndsSession(st: State)
    requires Core(st) && st.phase == Charging && st.pilot.committed == C
    ensures Processed(st, SimulateReplug) ==
      st.(phase := UserPaused, session := false, derate := 0, window := REPLUG_WINDOW_TICKS, cp := StateF, latch := false)
  {
  }

  lemma ResumedAtOnce(st: State)
    requires EndOfTick(st) && st.phase == Charging && st.window == 0 && st.cStreak == C_DWELL_TICKS
    requires Settled(st.pilot, C) && st.faults == Fault.CLEAN && Unsuspecting(st)
    ensures EndOfTick(Tick(st, RESUMED)) && StillClosed(Tick(st, RESUMED), 1)
  {
    var x := RESUMED;
    TickEndsWell(st, x);
    var d := Drained(st, Taken(x.requests));
    DrainResumed(st);
    CalmTick(st, d, x);
    var b := d.(window := d.window - 1, pilot := PilotAfter(d, x.mv), overTemp := OverTemp.Context(0, false));
    UnreadMeter(Driven(b, x), x);
    assert !LatchedActive(b);
  }

  lemma ClosedOneMore(st: State, n: nat)
    requires EndOfTick(st) && StillClosed(st, n) && 1 <= n < DEBOUNCE_N
    ensures EndOfTick(Tick(st, WINDOW_TICK)) && StillClosed(Tick(st, WINDOW_TICK), n + 1)
  {
    var x := WINDOW_TICK;
    TickEndsWell(st, x);
    NoRequests(st);
    CalmTick(st, st, x);
    var b := st.(window := st.window - 1, pilot := PilotAfter(st, x.mv), overTemp := OverTemp.Context(0, false));
    UnreadMeter(Driven(b, x), x);
    assert !LatchedActive(b);
  }

  /**
   * Nor does a simulated replug keep the contactor open: with a resume in the same drain it
   * is closed at three tick ends of the window, until the pilot, driven to state F, is
   * committed to E.
   */
  lemma ReplugCanStayClosed()
    ensures var st := Run(Booted(AT_C), Times(WAIT, 50));
      var a := Tick(st, RESUMED);
      var b := Tick(a, WINDOW_TICK);
      var c := Tick(b, WINDOW_TICK);
      a.closed && b.closed && c.closed && a.window == 149 && b.window == 148 && c.window == 147 && c.cp == StateF
  {
    var st := Run(Booted(AT_C), Times(WAIT, 50));
    FiftyTicks();
    ResumedAtOnce(st);
    ClosedOneMore(Tick(st, RESUMED), 1);
    ClosedOneMore(Tick(Tick(st, RESUMED), WINDOW_TICK), 2);
  }

  // ------------------------------------------------------ stranded while cooling down

  /**
   * Clearing the over-temperature fault while cooling down strands the charger there: from
   * then on it stays unless the sensors get hot again, a replug is simulated or a fault
   * is cleared.
   */
  lemma ClearStrands(st: State)
    requires EndOfTick(st) && st.phase == CoolingDown
    ensures var s := Processed(st, ClearFault(Fault.OVER_TEMP));
      s.phase == CoolingDown && !IsHot(s)
  {
    assert !LatchedActive(st);
  }

  lemma {:induction false} StaysStranded(st: State, xs: seq<Input>)
    requires EndOfTick(st) && !IsHot(st) && (st.phase == CoolingDown || st.phase == Faulted)
    requires forall x :: x in xs ==> NoneMeddles(x.requests) && !SampleOf(x).Hot()
    ensures !IsHot(Run(st, xs)) && (Run(st, xs).phase == CoolingDown || Run(st, xs).phase == Faulted)
    decreases |xs|
  {
    if xs != [] {
      assert xs[|xs| - 1] in xs;
      StaysStranded(st, xs[..|xs| - 1]);
      RunEndsWell(st, xs[..|xs| - 1]);
      TickStaysStranded(Run(st, xs[..|xs| - 1]), xs[|xs| - 1]);
    }
  }

  predicate Stranded(st: State) {
    !IsHot(st) && (st.phase == CoolingDown || st.phase == Faulted)
  }

  lemma {:induction false} DrainedStaysStranded(st: State, rs: seq<Request>)
    requires Core(st) && Stranded(st) && NoneMeddles(rs)
    ensures Core(Drained(st, rs)) && Stranded(Drained(st, rs))
    decreases |rs|
  {
    if rs != [] {
      var d, r := Drained(st, rs[..|rs| - 1]), rs[|rs| - 1];
      assert r in rs;
      DrainedStaysStranded(st, rs[..|rs| - 1]);
      ProcessedIsCore(d, r);
      ProcessedUnmeddled(d, r);
    }
  }

  lemma TickStaysStranded(st: State, x: Input)
    requires Core(st) && Stranded(st) && NoneMeddles(x.requests) && !SampleOf(x).Hot()
    ensures Stranded(Tick(st, x))
  {
    TickInStages(st, x);
    var d := Drained(st, Taken(x.requests));
    DrainedStaysStranded(st, Taken(x.requests));
    WindowServedIsCore(d);
    PilotSteppedIsCore(WindowServed(d), x.mv);
    var a := Begun(st, x);
    CheckedStaysStranded(a, x);
    CheckedIsCore(a, x);
    AfterChecksUntouched(Checked(a, x), x);
  }

  lemma CheckedStaysStranded(st: State, x: Input)
    requires Core(st) && Stranded(st) && !SampleOf(x).Hot()
    ensures Stranded(Checked(st, x))
  {
    var a := SafeFailChecked(st, x.safeFail);
    SafeFailIsCore(st, x.safeFail);
    var b := GfciChecked(a, GfciPolicy.Sample(x.gfciLow, x.gfciPolicy));
    GfciIsCore(a, GfciPolicy.Sample(x.gfciLow, x.gfciPolicy));
    var c := AdcChecked(b, OnRail(x.ac) || OnRail(x.ct) || OnRail(x.lct));
    AdcIsCore(b, OnRail(x.ac) || OnRail(x.ct) || OnRail(x.lct));
    CpEIsCore(c);
    assert OverTempChecked(CpEChecked(c), SampleOf(x)).phase == CpEChecked(c).phase;
  }
}
