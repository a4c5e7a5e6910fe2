/**
 * The self-clearing detectors on the meter, over whole runs: when the advertised current is
 * ramped down, how long a ramp lasts, with what derate a session starts, and when a soft
 * over-current or a missing supply voltage is reported.
 */
module EvseDerate {
  import opened J1772
  import Fault
  import GfciPolicy
  import OverTemp
  import opened SoftOverCurrent
  import opened Evse
  import opened EvseInvariant
  import opened EvseRuns
  import opened EvseMeter

  /** From `a` to `b` no session started, and the derate went exactly if one ended. */
  predicate NoStart(a: State, b: State) {
    && (b.session ==> a.session)
    && b.derate == if a.session && !b.session then 0 else a.derate
  }

  predicate ClearsItself(f: nat) {
    f == Fault.SOFT_OVER_CURRENT || f == Fault.AC_ABSENT
  }

  /** The self-clearing fault `f` is as it was. */
  predicate SameFault(a: State, b: State, f: nat) {
    f in b.faults.active <==> f in a.faults.active
  }

  predicate Quiet(a: State, b: State, f: nat) {
    NoStart(a, b) && SameFault(a, b, f)
  }

  lemma QuietTwice(a: State, b: State, c: State, f: nat)
    requires Quiet(a, b, f) && Quiet(b, c, f)
    ensures Quiet(a, c, f)
  {
  }

  lemma MovedQuiet(st: State, next: Phase, f: nat)
    requires (st.session <==> st.phase == Charging) && next != Charging
    ensures Quiet(st, Transition(st, next), f)
  {
  }

  lemma TrippedQuiet(st: State, id: nat, f: nat)
    requires (st.session <==> st.phase == Charging) && id != f
    ensures Quiet(st, Tripped(st, id), f)
  {
  }

  // ------------------------------------------------------------------ requests

  lemma ProcessedNoStart(st: State, r: Request)
    requires Core(st)
    ensures NoStart(st, Processed(st, r))
  {
    if r.ClearFault? && !ClearRefused(r.id) {
      MovedQuiet(AfterClear(st, r.id), Ready, 0);
    } else if r == UserPause || r == SimulateReplug {
      MovedQuiet(st, UserPaused, 0);
    } else if r == UserResume {
      MovedQuiet(st, Ready, 0);
    }
  }

  lemma {:induction false} DrainedNoStart(st: State, rs: seq<Request>)
    requires Core(st)
    ensures NoStart(st, Drained(st, rs))
    decreases |rs|
  {
    if rs != [] {
      DrainedNoStart(st, rs[..|rs| - 1]);
      DrainedIsCore(st, rs[..|rs| - 1]);
      ProcessedNoStart(Drained(st, rs[..|rs| - 1]), rs[|rs| - 1]);
    }
  }

  lemma WindowQuiet(st: State, f: nat)
    requires Core(st)
    ensures Quiet(st, WindowServed(st), f)
  {
    MovedQuiet(st.(window := 0), Ready, f);
  }

  // ----------------------------------------------------------------- detectors

  lemma GfciQuiet(st: State, x: GfciPolicy.Sample, f: nat)
    requires Core(st) && ClearsItself(f)
    ensures Quiet(st, GfciChecked(st, x), f)
  {
    var s := st.(gfci := GfciPolicy.Stepped(st.gfci, x).0);
    MovedQuiet(s.(faults := Fault.Raised(s.faults, Fault.GFCI)), Faulted, f);
  }

  lemma AdcQuiet(st: State, rail: bool, f: nat)
    requires Core(st) && ClearsItself(f)
    ensures Quiet(st, AdcChecked(st, rail), f)
  {
    TrippedQuiet(st.(adcStreak := Evse.Counted(st.adcStreak, rail, ADC_PERSIST_TICKS)), Fault.ADC_OUT_OF_RANGE, f);
  }

  lemma CpEQuiet(st: State, f: nat)
    requires Core(st) && ClearsItself(f)
    ensures Quiet(st, CpEChecked(st), f)
  {
    TrippedQuiet(st.(cpEStreak := Evse.Counted(st.cpEStreak, st.pilot.committed == E, CP_E_PERSIST_TICKS)),
                 Fault.CP_NO_PILOT, f);
  }

  lemma OverTempQuiet(st: State, x: OverTemp.Sample, f: nat)
    requires Core(st) && ClearsItself(f)
    ensures Quiet(st, OverTempChecked(st, x), f)
  {
    var (c, act) := OverTemp.Stepped(st.overTemp.(faultActive := Fault.OVER_TEMP in st.faults.active), x);
    var s := st.(overTemp := c);
    if act == OverTemp.Trip {
      MovedQuiet(s.(faults := Fault.Raised(s.faults, Fault.OVER_TEMP)), CoolingDown, f);
    } else if act == OverTemp.Clear {
      MovedQuiet(s.(faults := Fault.Cleared(s.faults, Fault.OVER_TEMP)), Ready, f);
    }
  }

  lemma CheckedQuiet(st: State, x: Input, f: nat)
    requires Core(st) && ClearsItself(f)
    ensures Quiet(st, Checked(st, x), f)
  {
    var a := SafeFailChecked(st, x.safeFail);
    SafeFailIsCore(st, x.safeFail);
    TrippedQuiet(st, Fault.CRASH_LOOP_SAFE_FAIL, f);
    var g := GfciPolicy.Sample(x.gfciLow, x.gfciPolicy);
    var b := GfciChecked(a, g);
    GfciIsCore(a, g);
    GfciQuiet(a, g, f);
    QuietTwice(st, a, b, f);
    LaterChecksQuiet(b, x, f);
    QuietTwice(st, b, Checked(st, x), f);
  }

  lemma LaterChecksQuiet(b: State, x: Input, f: nat)
    requires Core(b) && ClearsItself(f)
    ensures var c := AdcChecked(b, OnRail(x.ac) || OnRail(x.ct) || OnRail(x.lct));
      Quiet(b, OverTempChecked(CpEChecked(c), OverTemp.Sample(x.ntc1, x.gun, true, true)), f)
  {
    var rail := OnRail(x.ac) || OnRail(x.ct) || OnRail(x.lct);
    var c := AdcChecked(b, rail);
    AdcIsCore(b, rail);
    AdcQuiet(b, rail, f);
    CpEIsCore(c);
    CpEQuiet(c, f);
    QuietTwice(b, c, CpEChecked(c), f);
    var o := OverTemp.Sample(x.ntc1, x.gun, true, true);
    OverTempQuiet(CpEChecked(c), o, f);
    QuietTwice(b, CpEChecked(c), OverTempChecked(CpEChecked(c), o), f);
  }

  /** Phase and contactor: here a session may start, with the derate there is. */
  lemma DrivenMoves(st: State, x: Input, f: nat)
    requires Core(st)
    ensures var c := Driven(st, x);
      SameFault(st, c, f) && c.derate == (if st.session && !c.session then 0 else st.derate)
  {
    UpdatedMoves(st, x.requireAuth);
  }

  lemma UpdatedMoves(st: State, requireAuth: bool)
    requires Core(st)
    ensures var s := Updated(st, requireAuth);
      s.faults == st.faults && s.derate == (if st.session && !s.session then 0 else st.derate)
  {
  }

  // ------------------------------------------------------------- inside one poll

  lemma WeldQuiet(st: State, r: Reading, f: nat)
    requires Core(st) && ClearsItself(f)
    ensures Quiet(st, WeldChecked(st, r), f) && WeldChecked(st, r).meter.socStreak == st.meter.socStreak
    ensures WeldChecked(st, r).meter.acStreak == st.meter.acStreak
  {
    if r.valid && r.scale > 0 {
      var e := EdgeNoted(st);
      TrippedQuiet(e.(meter := e.meter.(weldStreak := Evse.Counted(e.meter.weldStreak,
                                                                  Milliamps(r) >= FLOW_MA && !e.closed, DETECTOR_PERSIST))),
                   Fault.RELAY_WELD, f);
    }
  }

  lemma StuckQuiet(st: State, r: Reading, f: nat)
    requires Core(st) && ClearsItself(f)
    ensures Quiet(st, StuckChecked(st, r), f) && StuckChecked(st, r).meter.socStreak == st.meter.socStreak
    ensures StuckChecked(st, r).meter.acStreak == st.meter.acStreak
  {
    if r.valid && r.scale > 0 {
      TrippedQuiet(st.(meter := st.meter.(stuckStreak := Evse.Counted(st.meter.stuckStreak, Milliamps(r) < FLOW_MA,
                                                                     STUCK_OPEN_PERSIST))),
                   Fault.RELAY_STUCK_OPEN, f);
    }
  }

  lemma HardQuiet(st: State, l: Limits, r: Reading, f: nat)
    requires Core(st) && ClearsItself(f)
    ensures Quiet(st, HardChecked(st, l, r), f) && HardChecked(st, l, r).meter.socStreak == st.meter.socStreak
    ensures HardChecked(st, l, r).meter.acStreak == st.meter.acStreak
  {
    if r.valid && r.scale > 0 {
      var over := Milliamps(r) > HocThreshold(Amps(l, st.derate));
      TrippedQuiet(st.(meter := st.meter.(hocStreak := Evse.Counted(st.meter.hocStreak, over, HOC_PERSIST_POLLS))),
                   Fault.HARD_OVER_CURRENT, f);
    }
  }

  /** From the measurement of the supply to the soft over-current check. */
  lemma PollQuiet(a: State, x: Input, f: nat)
    requires Core(a) && ClearsItself(f)
    ensures var h := HardChecked(StuckChecked(WeldChecked(a, x.reading), x.reading), x.limits, x.reading);
      Quiet(a, h, f) && h.meter.socStreak == a.meter.socStreak && h.meter.acStreak == a.meter.acStreak && Core(h)
  {
    var b := WeldChecked(a, x.reading);
    WeldIsCore(a, x.reading);
    WeldQuiet(a, x.reading, f);
    var c := StuckChecked(b, x.reading);
    StuckIsCore(b, x.reading);
    StuckQuiet(b, x.reading, f);
    QuietTwice(a, b, c, f);
    HardIsCore(c, x.limits, x.reading);
    HardQuiet(c, x.limits, x.reading, f);
    QuietTwice(a, c, HardChecked(c, x.limits, x.reading), f);
  }

  // ------------------------------------------------------------ what a tick shows

  /** A session ended in this tick: before the phase is updated, by that, or by a detector on the meter. */
  predicate Ends(st: State, x: Input) {
    var b, c := Performed(st, x, UP_TO_CHECK), UpToPilot(st, x);
    (st.session && !b.session) || (b.session && !c.session) || (c.session && !Tick(st, x).session)
  }

  /** And one started. */
  predicate Starts(st: State, x: Input) {
    !Performed(st, x, UP_TO_CHECK).session && UpToPilot(st, x).session
  }

  /** The derate that the end of a session leaves. */
  function Carried(st: State, x: Input): nat {
    if Ends(st, x) then 0 else st.derate
  }

  /** A poll of this tick measured more than 105 % of what is then advertised. */
  predicate Over(st: State, x: Input) {
    && Polls(st) && x.reading.valid && x.reading.scale > 0
    && Milliamps(x.reading) > 1050 * Amps(x.limits, Carried(st, x))
  }

  /** It was one too many, and there is room to lower the advertisement. */
  predicate Ramps(st: State, x: Input) {
    Over(st, x) && st.meter.socStreak == 75 && Amps(x.limits, Carried(st, x)) > 6
  }

  /** The states before and after the checks, and at the phase and the contactor. */
  lemma DerateToPilot(st: State, x: Input, f: nat)
    requires EndOfTick(st) && ClearsItself(f)
    ensures var b, c := Performed(st, x, UP_TO_CHECK), UpToPilot(st, x);
      && NoStart(st, b) && EndOfTick(c)
      && c.derate == (if b.session && !c.session then 0 else b.derate)
      && (f in c.faults.active <==> f in st.faults.active && !Covered(Taken(x.requests), f))
  {
    StagesWrittenOut(st, x);
    var a := Begun(st, x);
    BegunNoStart(st, x);
    BegunIsCore(st, x);
    BegunLatches(st, x, f);
    CheckedQuiet(a, x, f);
    CheckedIsCore(a, x);
    DrivenMoves(Checked(a, x), x, f);
    UpToPilotEndsWell(st, x);
  }

  lemma BegunNoStart(st: State, x: Input)
    requires Core(st)
    ensures NoStart(st, Begun(st, x))
  {
    var d := Drained(st, Taken(x.requests));
    DrainedNoStart(st, Taken(x.requests));
    DrainedIsCore(st, Taken(x.requests));
    WindowQuiet(d, Fault.AC_ABSENT);
  }

  lemma SwipeAside(d: State, swipe: Swipe)
    ensures var t := Swiped(d, swipe);
      t.derate == d.derate && t.session == d.session && t.meter == d.meter && t.faults == d.faults
  {
  }

  /** A tick without a poll adds nothing to the pilot's part of it. */
  lemma NoPoll(st: State, x: Input)
    requires !Polls(st)
    ensures var c, t := UpToPilot(st, x), Tick(st, x);
      && t.derate == c.derate && t.session == c.session && t.faults == c.faults
      && t.meter == st.meter.(div := st.meter.div + 1)
  {
    AtPollUntouched(st, x);
    TickIsMetered(st, x);
    SwipeAside(Metered(AtPoll(st, x), x), x.swipe);
  }

  /** A tick with a poll ends with the soft over-current check of the state the other detectors left. */
  lemma WithPoll(st: State, x: Input)
    requires Polls(st)
    ensures var t, s := Tick(st, x), SoftChecked(AfterHard(st, x), x.limits, x.reading);
      t.derate == s.derate && t.session == s.session && t.meter == s.meter && t.faults == s.faults
  {
    AtPollUntouched(st, x);
    TickIsMetered(st, x);
    MeteredInSteps(AtPoll(st, x), x);
    SwipeAside(Metered(AtPoll(st, x), x), x.swipe);
  }

  /** What the soft over-current check finds. */
  lemma FoundBySoft(st: State, x: Input)
    requires EndOfTick(st) && Polls(st)
    ensures var c, h := UpToPilot(st, x), AfterHard(st, x);
      && Core(h) && h.derate == (if c.session && !h.session then 0 else c.derate)
      && h.meter.socStreak == st.meter.socStreak
      && SameFault(c, h, Fault.SOFT_OVER_CURRENT)
  {
    DerateToPilot(st, x, Fault.SOFT_OVER_CURRENT);
    AtPollUntouched(st, x);
    var z := AtPoll(st, x).(meter := st.meter.(div := 0));
    AcIsCore(z, x.reading);
    AcAside(z, x.reading);
    PollQuiet(AfterAc(st, x), x, Fault.SOFT_OVER_CURRENT);
  }

  lemma AcAside(z: State, r: Reading)
    ensures var a := AcChecked(z, r);
      && a.session == z.session && a.derate == z.derate && a.meter.socStreak == z.meter.socStreak
      && SameFault(z, a, Fault.SOFT_OVER_CURRENT)
  {
  }

  /** The soft over-current check by itself. */
  lemma SoftMoves(h: State, l: Limits, r: Reading)
    requires Core(h)
    ensures var s, over := SoftChecked(h, l, r), r.valid && r.scale > 0 && Milliamps(r) > Threshold(Amps(l, h.derate));
      var due := over && h.meter.socStreak == PERSIST_POLLS;
      var ramps := due && Amps(l, h.derate) > FLOOR;
      && s.session == h.session
      && s.derate == h.derate + (if ramps then RampStep(Amps(l, h.derate)) else 0)
      && s.meter.socStreak == (if !r.valid then h.meter.socStreak
                               else Evse.Counted(h.meter.socStreak, over && !ramps, PERSIST_POLLS))
      && (Fault.SOFT_OVER_CURRENT in s.faults.active <==>
            (due && !ramps) || (Fault.SOFT_OVER_CURRENT in h.faults.active && (!r.valid || r.scale <= 0 || over)))
  {
    EvseInvariant.SelfClearing(h.faults, Fault.SOFT_OVER_CURRENT);
  }

  /**
   * One tick: a session that ends takes the derate with it, a ramp adds its step, and the
   * streak counts the polls that were over without ramping.
   */
  lemma TickDerate(st: State, x: Input)
    requires EndOfTick(st)
    ensures var t := Tick(st, x);
      && t.derate == Carried(st, x) + (if Ramps(st, x) then RampStep(Amps(x.limits, Carried(st, x))) else 0)
      && t.meter.socStreak == (if !Polls(st) || !x.reading.valid then st.meter.socStreak
                               else Evse.Counted(st.meter.socStreak, Over(st, x) && !Ramps(st, x), PERSIST_POLLS))
  {
    DerateToPilot(st, x, Fault.SOFT_OVER_CURRENT);
    if Polls(st) {
      FoundBySoft(st, x);
      SoftMoves(AfterHard(st, x), x.limits, x.reading);
      WithPoll(st, x);
    } else {
      NoPoll(st, x);
    }
  }

  // ------------------------------------------------------------- runs: the derate

  /** What one tick did to the derate. */
  datatype Turn = Turn(ended: bool, ramped: bool)

  function Turns(st: State, xs: seq<Input>): (h: seq<Turn>)
    ensures |h| == |xs|
  {
    if xs == [] then []
    else
      var s, x := Run(st, xs[..|xs| - 1]), xs[|xs| - 1];
      Turns(st, xs[..|xs| - 1]) + [Turn(Ends(s, x), Ramps(s, x))]
  }

  /** Some tick ramped, and no session has ended in a later one. */
  ghost predicate Outstanding(h: seq<Turn>) {
    exists k :: 0 <= k < |h| && h[k].ramped && NoneEndedAfter(h, k)
  }

  predicate NoneEndedAfter(h: seq<Turn>, k: int) {
    forall i :: 0 <= k < i < |h| ==> !h[i].ended
  }

  lemma OutstandingStep(h: seq<Turn>, t: Turn)
    ensures Outstanding(h + [t]) <==> t.ramped || (Outstanding(h) && !t.ended)
  {
    var e := h + [t];
    if t.ramped {
      assert e[|h|].ramped && NoneEndedAfter(e, |h|);
    } else if Outstanding(h) && !t.ended {
      var k :| 0 <= k < |h| && h[k].ramped && NoneEndedAfter(h, k);
      assert e[k].ramped && NoneEndedAfter(e, k);
    }
    if Outstanding(e) {
      var k :| 0 <= k < |e| && e[k].ramped && NoneEndedAfter(e, k);
      if k < |h| {
        assert forall i :: k < i < |h| ==> h[i] == e[i];
        assert h[k].ramped && NoneEndedAfter(h, k) && !e[|h|].ended;
      }
    }
  }

  /** There is a derate exactly if some tick has ramped and no session has ended in a later one. */
  lemma {:induction false} DerateExplained(st: State, xs: seq<Input>)
    requires EndOfTick(st) && st.derate == 0
    ensures Run(st, xs).derate > 0 <==> Outstanding(Turns(st, xs))
    decreases |xs|
  {
    if xs != [] {
      var ys, x := xs[..|xs| - 1], xs[|xs| - 1];
      var s := Run(st, ys);
      DerateExplained(st, ys);
      RunEndsWell(st, ys);
      TickDerate(s, x);
      OutstandingStep(Turns(st, ys), Turn(Ends(s, x), Ramps(s, x)));
    }
  }

  /**
   * A session starts without a derate exactly if none was left: since boot no tick has
   * ramped without a session ending in a later one, or one ends in the very tick in which
   * the next starts. Half a minute over the threshold is enough only if no session then ends.
   */
  lemma SessionStartsUnderated(st: State, xs: seq<Input>, x: Input)
    requires EndOfTick(st) && st.derate == 0
    requires Starts(Run(st, xs), x)
    ensures UpToPilot(Run(st, xs), x).derate == 0 <==> !Outstanding(Turns(st, xs)) || Run(st, xs).session
  {
    var s := Run(st, xs);
    DerateExplained(st, xs);
    RunEndsWell(st, xs);
    DerateToPilot(s, x, Fault.SOFT_OVER_CURRENT);
  }

  /** What a derate means for the session that starts with it: less than the limits allow is advertised, down to the floor. */
  lemma DeratedOffer(l: Limits, derate: nat)
    ensures Amps(l, derate) <= Amps(l, 0)
    ensures derate > 0 && Amps(l, 0) > FLOOR ==> Amps(l, derate) < Amps(l, 0)
  {
  }

  // -------------------------------------------------- runs: the polls that ramp

  /** Whether a valid poll was over without ramping; nothing if there was none. */
  function SoftPoll(st: State, x: Input): seq<bool> {
    if Polls(st) && x.reading.valid then [Over(st, x) && !Ramps(st, x)] else []
  }

  function SoftHistory(st: State, xs: seq<Input>): seq<bool> {
    if xs == [] then []
    else SoftHistory(st, xs[..|xs| - 1]) + SoftPoll(Run(st, xs[..|xs| - 1]), xs[|xs| - 1])
  }

  lemma {:induction false} SoftStreakIsHistory(st: State, xs: seq<Input>)
    requires EndOfTick(st) && st.meter.socStreak == 0
    ensures Run(st, xs).meter.socStreak == CountedAll(SoftHistory(st, xs), PERSIST_POLLS)
    decreases |xs|
  {
    if xs != [] {
      var ys, x := xs[..|xs| - 1], xs[|xs| - 1];
      SoftStreakIsHistory(st, ys);
      RunEndsWell(st, ys);
      TickDerate(Run(st, ys), x);
      AppendObservation(SoftHistory(st, ys), SoftPoll(Run(st, ys), x), PERSIST_POLLS);
    }
  }

  /**
   * The advertisement is lowered exactly by a poll that is over after seventy-five polls
   * that were over, and the soft over-current fault comes up exactly there when there is
   * nothing left to lower; it goes with the first poll that is not over, or on request.
   */
  lemma SoftReported(st: State, xs: seq<Input>, x: Input)
    requires EndOfTick(st) && st.meter.socStreak == 0
    ensures var s := Run(st, xs);
      var due := Over(s, x) && LastAll(SoftHistory(st, xs), 75);
      && (Ramps(s, x) <==> due && Amps(x.limits, Carried(s, x)) > 6)
      && (Fault.SOFT_OVER_CURRENT in Tick(s, x).faults.active <==>
            || (due && Amps(x.limits, Carried(s, x)) == 6)
            || (Fault.SOFT_OVER_CURRENT in s.faults.active
                && !Covered(Taken(x.requests), Fault.SOFT_OVER_CURRENT)
                && (!Polls(s) || !x.reading.valid || x.reading.scale <= 0 || Over(s, x))))
  {
    var s := Run(st, xs);
    RunEndsWell(st, xs);
    SoftStreakIsHistory(st, xs);
    LimitReached(SoftHistory(st, xs), PERSIST_POLLS, PERSIST_POLLS);
    SoftInTick(s, x);
  }

  lemma SoftInTick(s: State, x: Input)
    requires EndOfTick(s)
    ensures Fault.SOFT_OVER_CURRENT in Tick(s, x).faults.active <==>
      || (Over(s, x) && s.meter.socStreak == PERSIST_POLLS && Amps(x.limits, Carried(s, x)) == FLOOR)
      || (Fault.SOFT_OVER_CURRENT in s.faults.active
          && !Covered(Taken(x.requests), Fault.SOFT_OVER_CURRENT)
          && (!Polls(s) || !x.reading.valid || x.reading.scale <= 0 || Over(s, x)))
  {
    DerateToPilot(s, x, Fault.SOFT_OVER_CURRENT);
    if Polls(s) {
      FoundBySoft(s, x);
      SoftMoves(AfterHard(s, x), x.limits, x.reading);
      WithPoll(s, x);
    } else {
      NoPoll(s, x);
    }
  }

  // --------------------------------------------------- runs: the supply voltage

  /** Whether a valid poll found no supply voltage; nothing if there was no such poll. */
  function AcPoll(st: State, x: Input): seq<bool> {
    if Polls(st) && x.reading.valid then [x.reading.vRms < 0x8_0000] else []
  }

  function AcHistory(st: State, xs: seq<Input>): seq<bool> {
    if xs == [] then []
    else AcHistory(st, xs[..|xs| - 1]) + AcPoll(Run(st, xs[..|xs| - 1]), xs[|xs| - 1])
  }

  lemma AcMoves(z: State, r: Reading)
    requires Core(z)
    ensures var a := AcChecked(z, r);
      && Core(a) && a.meter.acStreak == (if !r.valid then z.meter.acStreak
                              else Evse.Counted(z.meter.acStreak, r.vRms < V_AC_PRESENT, DETECTOR_PERSIST))
      && (Fault.AC_ABSENT in a.faults.active <==>
            if !r.valid then Fault.AC_ABSENT in z.faults.active
            else r.vRms < V_AC_PRESENT && (a.meter.acStreak >= DETECTOR_PERSIST || Fault.AC_ABSENT in z.faults.active))
  {
    AcIsCore(z, r);
    EvseInvariant.SelfClearing(z.faults, Fault.AC_ABSENT);
  }

  lemma SoftSparesAc(h: State, l: Limits, r: Reading)
    requires Core(h)
    ensures var s := SoftChecked(h, l, r);
      s.meter.acStreak == h.meter.acStreak && SameFault(h, s, Fault.AC_ABSENT)
  {
    EvseInvariant.SelfClearing(h.faults, Fault.SOFT_OVER_CURRENT);
  }

  /** The supply in one tick. */
  lemma AcInTick(st: State, x: Input)
    requires EndOfTick(st)
    ensures var t, up := Tick(st, x), Fault.AC_ABSENT in st.faults.active && !Covered(Taken(x.requests), Fault.AC_ABSENT);
      && t.meter.acStreak == (if AcPoll(st, x) == [] then st.meter.acStreak
                              else Evse.Counted(st.meter.acStreak, AcPoll(st, x)[0], DETECTOR_PERSIST))
      && (Fault.AC_ABSENT in t.faults.active <==>
            if AcPoll(st, x) == [] then up else AcPoll(st, x)[0] && (t.meter.acStreak >= DETECTOR_PERSIST || up))
  {
    DerateToPilot(st, x, Fault.AC_ABSENT);
    if Polls(st) {
      AtPollUntouched(st, x);
      AcMoves(AtPoll(st, x).(meter := st.meter.(div := 0)), x.reading);
      PollQuiet(AfterAc(st, x), x, Fault.AC_ABSENT);
      SoftSparesAc(AfterHard(st, x), x.limits, x.reading);
      WithPoll(st, x);
    } else {
      NoPoll(st, x);
    }
  }

  lemma {:induction false} AcStreakIsHistory(st: State, xs: seq<Input>)
    requires EndOfTick(st) && st.meter.acStreak == 0
    ensures Run(st, xs).meter.acStreak == CountedAll(AcHistory(st, xs), DETECTOR_PERSIST)
    decreases |xs|
  {
    if xs != [] {
      var ys, x := xs[..|xs| - 1], xs[|xs| - 1];
      AcStreakIsHistory(st, ys);
      RunEndsWell(st, ys);
      AcInTick(Run(st, ys), x);
      AppendObservation(AcHistory(st, ys), AcPoll(Run(st, ys), x), DETECTOR_PERSIST);
    }
  }

  /**
   * A poll leaves a missing supply reported exactly if the last three polls found none, or
   * it was reported before, was not cleared by request and is not found now.
   */
  lemma AbsentReported(st: State, xs: seq<Input>, x: Input)
    requires EndOfTick(st) && st.meter.acStreak == 0
    ensures var s, t, h := Run(st, xs), Run(st, xs + [x]), AcHistory(st, xs + [x]);
      var up := Fault.AC_ABSENT in s.faults.active && !Covered(Taken(x.requests), Fault.AC_ABSENT);
      Fault.AC_ABSENT in t.faults.active <==>
        if AcPoll(s, x) == [] then up else LastAll(h, 3) || (LastAll(h, 1) && up)
  {
    assert (xs + [x])[..|xs|] == xs;
    var s := Run(st, xs);
    RunEndsWell(st, xs);
    AcStreakIsHistory(st, xs + [x]);
    AcInTick(s, x);
    var h := AcHistory(st, xs + [x]);
    LimitReached(h, DETECTOR_PERSIST, DETECTOR_PERSIST);
    if AcPoll(s, x) != [] {
      assert h == AcHistory(st, xs) + [AcPoll(s, x)[0]];
    }
  }
}
