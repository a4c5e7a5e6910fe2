/** What the supervisor's runs can and cannot do. */
module EvseRuns {
  import opened J1772
  import Fault
  import GfciPolicy
  import OverTemp
  import opened SoftOverCurrent
  import opened Evse
  import opened EvseInvariant

  // --------------------------------------------------------------- every run

  lemma {:induction false} WarmUpOnlyPilot(st: State, samples: seq<int>)
    ensures PilotWarmUp(st, samples) == st.(pilot := PilotWarmUp(st, samples).pilot)
    decreases |samples|
  {
    if samples != [] {
      WarmUpOnlyPilot(st, samples[..|samples| - 1]);
    }
  }

  /** The samples of the boot path debounce like any others. */
  lemma {:induction false} WarmUpDebounces(st: State, samples: seq<int>)
    requires st.pilot == FRESH
    ensures PilotWarmUp(st, samples).pilot == After(Classes(samples), 3)
    decreases |samples|
  {
    if samples != [] {
      var n := |samples| - 1;
      WarmUpDebounces(st, samples[..n]);
      assert Classes(samples)[..n] == Classes(samples[..n]);
    }
  }

  /** The boot path ends ready or in a fault, with the contactor open. */
  lemma BootEndsWell(x: BootInput)
    ensures EndOfTick(Booted(x)) && !Booted(x).closed
    ensures Booted(x).phase == Ready <==>
      && !x.safeFail && x.pilot != [] && x.pilot[|x.pilot| - 1] >= 1500
      && 100 <= x.ac <= 3995 && 100 <= x.ct <= 3995 && 100 <= x.lct <= 3995 && 100 <= x.cpRaw <= 3995
    ensures Booted(x).phase == Ready || Booted(x).phase == Faulted
    ensures Booted(x).pilot == After(Classes(x.pilot), 3)
    ensures var s := Booted(x);
      && s.cStreak == 0 && !s.authorized && s.derate == 0 && s.window == 0 && s.learn == 0
      && s.overTemp.tripStreak == 0 && s.adcStreak == 0 && s.cpEStreak == 0
      && s.gfci == GfciPolicy.IDLE && s.meter == POWER_ON.meter
      && s.faults.active == (if SelfTestFails(x) then {Fault.BOOT_SELF_TEST} else {})
                          + (if x.safeFail then {Fault.CRASH_LOOP_SAFE_FAIL} else {})
  {
    var start := Transition(POWER_ON, SelfTest);
    WarmUpOnlyPilot(start, x.pilot);
    WarmUpDebounces(start, x.pilot);
    var warm := PilotWarmUp(start, x.pilot);
    assert Fault.Latched({}) == {};
    if SelfTestFails(x) {
      BootTrip(warm, Fault.BOOT_SELF_TEST);
      SafeFailIsCore(Tripped(warm, Fault.BOOT_SELF_TEST), x.safeFail);
    } else if x.safeFail {
      BootTrip(warm, Fault.CRASH_LOOP_SAFE_FAIL);
    }
  }

  lemma BootTrip(warm: State, id: nat)
    requires warm == POWER_ON.(phase := SelfTest, pilot := warm.pilot) && 1 <= id < Fault.FIRST_SELF_CLEARING
    ensures Core(Tripped(warm, id)) && Tripped(warm, id).phase == Faulted
    ensures Tripped(warm, id) == warm.(phase := Faulted, faults := Fault.Faults({id}, id), cp := StateF, latch := true)
  {
    assert id in Fault.Latched(Fault.Raised(warm.faults, id).active);
  }

  /** Every tick end of every run. */
  lemma {:induction false} RunEndsWell(st: State, xs: seq<Input>)
    requires EndOfTick(st)
    ensures EndOfTick(Run(st, xs))
    decreases |xs|
  {
    if xs != [] {
      RunEndsWell(st, xs[..|xs| - 1]);
      TickEndsWell(Run(st, xs[..|xs| - 1]), xs[|xs| - 1]);
    }
  }

  /** Locked out: in the fault phase, contactor open, force-open latch asserted, pilot at state F. */
  predicate LockedOut(st: State) {
    st.phase == Faulted && !st.closed && st.latch && st.cp == StateF && !st.session
  }

  lemma LatchedLocksOut(st: State, id: nat)
    requires EndOfTick(st) && id in st.faults.active && 1 <= id < Fault.FIRST_SELF_CLEARING
    ensures LockedOut(st)
  {
    assert id in Fault.Latched(st.faults.active);
  }

  // ------------------------------------------------------- faults and their clears

  /** A request to clear covers one fault, or, as a request for all, every latched one; never the ground fault. */
  predicate Covers(r: Request, f: nat) {
    r.ClearFault? && f != Fault.GFCI && (r.id == f || (r.id == 0 && f < Fault.FIRST_SELF_CLEARING))
  }

  predicate Covered(rs: seq<Request>, f: nat) {
    exists r :: r in rs && Covers(r, f)
  }

  lemma ClearedFaults(st: State, id: nat, f: nat)
    requires Fault.WellFormed(st.faults) && !ClearRefused(id)
    ensures Fault.WellFormed(AfterClear(st, id).faults)
    ensures f in AfterClear(st, id).faults.active <==> f in st.faults.active && !Covers(ClearFault(id), f)
  {
    Fault.OperationsKeepWellFormed(st.faults, id);
    if f in st.faults.active {
      Fault.ClearRemovesExactly(st.faults, id, f);
    }
  }

  lemma RecoveredFaults(st: State)
    requires Fault.WellFormed(st.faults)
    ensures Recovered(st).faults == st.faults.(first := Fault.NONE) && Fault.WellFormed(Recovered(st).faults)
  {
  }

  lemma OtherRequestsKeepFaults(st: State, r: Request)
    requires !r.ClearFault?
    ensures Processed(st, r).faults == st.faults
  {
  }

  lemma ProcessedFaults(st: State, r: Request, f: nat)
    requires Fault.WellFormed(st.faults)
    ensures Fault.WellFormed(Processed(st, r).faults)
    ensures f in Processed(st, r).faults.active <==> f in st.faults.active && !Covers(r, f)
  {
    if !r.ClearFault? {
      OtherRequestsKeepFaults(st, r);
    } else if ClearRefused(r.id) {
      RefusedCoversNothing(st.faults, r.id, f);
    } else {
      ClearedFaults(st, r.id, f);
      RecoveredFaults(AfterClear(st, r.id));
    }
  }

  lemma RefusedCoversNothing(s: Fault.Faults, id: nat, f: nat)
    requires Fault.WellFormed(s) && ClearRefused(id)
    ensures f in s.active ==> !Covers(ClearFault(id), f)
  {
  }

  /** Requests take away exactly the faults they cover. */
  lemma {:induction false} DrainedFaults(st: State, rs: seq<Request>, f: nat)
    requires Fault.WellFormed(st.faults)
    ensures Fault.WellFormed(Drained(st, rs).faults)
    ensures f in Drained(st, rs).faults.active <==> f in st.faults.active && !Covered(rs, f)
    decreases |rs|
  {
    if rs != [] {
      var front, r := rs[..|rs| - 1], rs[|rs| - 1];
      DrainedFaults(st, front, f);
      ProcessedFaults(Drained(st, front), r, f);
      assert rs == front + [r];
      assert Covered(rs, f) <==> Covered(front, f) || Covers(r, f);
    }
  }

  /**
   * Between `a` and `b` the latched fault `f` was not taken away; and the fault of the
   * crash latch did not come up.
   */
  predicate Latches(a: State, b: State, f: nat) {
    && (f in a.faults.active ==> f in b.faults.active)
    && (Fault.CRASH_LOOP_SAFE_FAIL in b.faults.active ==> Fault.CRASH_LOOP_SAFE_FAIL in a.faults.active)
  }

  lemma BegunLatches(st: State, x: Input, f: nat)
    requires Core(st)
    ensures f in Begun(st, x).faults.active <==> f in st.faults.active && !Covered(Taken(x.requests), f)
  {
    DrainedFaults(st, Taken(x.requests), f);
  }

  lemma TrippedLatches(st: State, id: nat, f: nat)
    requires id != Fault.CRASH_LOOP_SAFE_FAIL
    ensures Latches(st, Tripped(st, id), f)
  {
  }

  lemma SafeFailLatches(st: State, safeFail: bool, f: nat)
    ensures var s := SafeFailChecked(st, safeFail).faults.active;
      && (f in st.faults.active ==> f in s)
      && (Fault.CRASH_LOOP_SAFE_FAIL in s <==> Fault.CRASH_LOOP_SAFE_FAIL in st.faults.active || safeFail)
  {
  }

  lemma GfciLatches(st: State, x: GfciPolicy.Sample, f: nat)
    ensures Latches(st, GfciChecked(st, x), f)
  {
  }

  lemma AdcLatches(st: State, rail: bool, f: nat)
    ensures Latches(st, AdcChecked(st, rail), f)
  {
    TrippedLatches(st.(adcStreak := Evse.Counted(st.adcStreak, rail, ADC_PERSIST_TICKS)), Fault.ADC_OUT_OF_RANGE, f);
  }

  lemma CpELatches(st: State, f: nat)
    ensures Latches(st, CpEChecked(st), f)
  {
    TrippedLatches(st.(cpEStreak := Evse.Counted(st.cpEStreak, st.pilot.committed == E, CP_E_PERSIST_TICKS)),
                   Fault.CP_NO_PILOT, f);
  }

  lemma DetectorsLatch(st: State, x: Input, f: nat)
    requires f < Fault.FIRST_SELF_CLEARING
    ensures Latches(SafeFailChecked(st, x.safeFail), Checked(st, x), f)
  {
    var a := SafeFailChecked(st, x.safeFail);
    var b := GfciChecked(a, GfciPolicy.Sample(x.gfciLow, x.gfciPolicy));
    GfciLatches(a, GfciPolicy.Sample(x.gfciLow, x.gfciPolicy), f);
    var rail := OnRail(x.ac) || OnRail(x.ct) || OnRail(x.lct);
    AdcLatches(b, rail, f);
    CpELatches(AdcChecked(b, rail), f);
    OverTempLatches(CpEChecked(AdcChecked(b, rail)), OverTemp.Sample(x.ntc1, x.gun, true, true), f);
  }

  lemma OverTempLatches(st: State, x: OverTemp.Sample, f: nat)
    requires f < Fault.FIRST_SELF_CLEARING
    ensures Latches(st, OverTempChecked(st, x), f)
  {
  }

  lemma AcLatches(st: State, r: Reading, f: nat)
    requires f < Fault.FIRST_SELF_CLEARING
    ensures Latches(st, AcChecked(st, r), f)
  {
  }

  lemma WeldLatches(st: State, r: Reading, f: nat)
    ensures Latches(st, WeldChecked(st, r), f)
  {
    if r.valid && r.scale > 0 {
      JudgedLatches(EdgeNoted(st), r, f);
    }
  }

  lemma JudgedLatches(st: State, r: Reading, f: nat)
    requires r.scale > 0
    ensures Latches(st, WeldJudged(st, r), f)
  {
    TrippedLatches(st.(meter := WeldJudged(st, r).meter), Fault.RELAY_WELD, f);
  }

  lemma StuckLatches(st: State, r: Reading, f: nat)
    ensures Latches(st, StuckChecked(st, r), f)
  {
    if r.valid && r.scale > 0 {
      TrippedLatches(st.(meter := st.meter.(
                           stuckStreak := Evse.Counted(st.meter.stuckStreak, Milliamps(r) < FLOW_MA, STUCK_OPEN_PERSIST))),
                     Fault.RELAY_STUCK_OPEN, f);
    }
  }

  lemma HardLatches(st: State, l: Limits, r: Reading, f: nat)
    ensures Latches(st, HardChecked(st, l, r), f)
  {
    if r.valid && r.scale > 0 {
      var over := Milliamps(r) > HocThreshold(Amps(l, st.derate));
      TrippedLatches(st.(meter := st.meter.(hocStreak := Evse.Counted(st.meter.hocStreak, over, HOC_PERSIST_POLLS))),
                     Fault.HARD_OVER_CURRENT, f);
    }
  }

  lemma SoftLatches(st: State, l: Limits, r: Reading, f: nat)
    requires f < Fault.FIRST_SELF_CLEARING
    ensures Latches(st, SoftChecked(st, l, r), f)
  {
  }

  lemma MeteredLatches(st: State, x: Input, f: nat)
    requires f < Fault.FIRST_SELF_CLEARING
    ensures Latches(st, Metered(st, x), f)
  {
    if st.meter.div + 1 >= POLL_TICKS {
      var a := AcChecked(st.(meter := st.meter.(div := 0)), x.reading);
      AcLatches(st.(meter := st.meter.(div := 0)), x.reading, f);
      var b := WeldChecked(a, x.reading);
      WeldLatches(a, x.reading, f);
      var c := StuckChecked(b, x.reading);
      StuckLatches(b, x.reading, f);
      HardLatches(c, x.limits, x.reading, f);
      SoftLatches(HardChecked(c, x.limits, x.reading), x.limits, x.reading, f);
    }
  }

  /** After the requests of a tick nothing takes a latched fault away, and only its flag raises that of the crash latch. */
  lemma TickLatches(st: State, x: Input, f: nat)
    requires Core(st) && f < Fault.FIRST_SELF_CLEARING
    ensures f in st.faults.active && !Covered(Taken(x.requests), f) ==> f in Tick(st, x).faults.active
    ensures f == Fault.CRASH_LOOP_SAFE_FAIL ==>
      (f in Tick(st, x).faults.active <==> x.safeFail || (f in st.faults.active && !Covered(Taken(x.requests), f)))
  {
    TickInStages(st, x);
    var a := Begun(st, x);
    BegunLatches(st, x, f);
    BegunIsCore(st, x);
    SafeFailLatches(a, x.safeFail, f);
    DetectorsLatch(a, x, f);
    CheckedIsCore(a, x);
    AfterChecksLatch(Checked(a, x), x, f);
  }

  lemma AfterChecksLatch(b: State, x: Input, f: nat)
    requires Core(b) && f < Fault.FIRST_SELF_CLEARING
    ensures Latches(b, Swiped(Metered(Driven(b, x), x), x.swipe), f)
  {
    DrivenEndsWell(b, x);
    MeteredLatches(Driven(b, x), x, f);
  }

  /** No tick takes a request that covers the fault. */
  ghost predicate NeverCovered(xs: seq<Input>, f: nat) {
    forall x :: x in xs ==> !Covered(Taken(x.requests), f)
  }

  /** Any latched fault locks the charger out for as long as no clear that covers it is taken. */
  lemma {:induction false} LatchedStays(st: State, xs: seq<Input>, f: nat)
    requires EndOfTick(st) && f in st.faults.active && f < Fault.FIRST_SELF_CLEARING
    requires NeverCovered(xs, f)
    ensures EndOfTick(Run(st, xs)) && f in Run(st, xs).faults.active && LockedOut(Run(st, xs))
    decreases |xs|
  {
    RunEndsWell(st, xs);
    if xs != [] {
      var ys, x := xs[..|xs| - 1], xs[|xs| - 1];
      assert x in xs;
      LatchedStays(st, ys, f);
      TickLatches(Run(st, ys), x, f);
    }
    LatchedLocksOut(Run(st, xs), f);
  }

  /** A ground fault is for ever, whatever is requested, configured or sensed afterwards. */
  lemma GroundFaultIsAbsorbing(st: State, xs: seq<Input>)
    requires EndOfTick(st) && Fault.GFCI in st.faults.active
    ensures Fault.GFCI in Run(st, xs).faults.active && LockedOut(Run(st, xs))
  {
    LatchedStays(st, xs, Fault.GFCI);
  }

  /** While the crash latch is set the charger is locked out at every tick end, even if asked to clear it. */
  lemma SafeFailLocksOut(st: State, xs: seq<Input>, x: Input)
    requires EndOfTick(st) && x.safeFail
    ensures LockedOut(Run(st, xs + [x]))
  {
    assert (xs + [x])[..|xs|] == xs;
    RunEndsWell(st, xs);
    TickEndsWell(Run(st, xs), x);
  }

  // -------------------------------------------------- history of closing edges

  /** What one tick shows: the debounced pilot, an unplugging that ends an authorisation, a card that grants one. */
  datatype Glimpse = Glimpse(js: Pilot, unplugged: bool, granted: bool)

  function GlimpseOf(st: State, x: Input): Glimpse {
    var b := Performed(st, x, UP_TO_CHECK);
    Glimpse(b.pilot.committed,
            (b.phase == Ready || b.phase == Charging || b.phase == UserPaused) && b.pilot.committed == A,
            x.swipe == KnownCard && Performed(st, x, UP_TO_METER).learn == 0)
  }

  function History(st: State, xs: seq<Input>): (h: seq<Glimpse>)
    ensures |h| == |xs|
  {
    if xs == [] then []
    else History(st, xs[..|xs| - 1]) + [GlimpseOf(Run(st, xs[..|xs| - 1]), xs[|xs| - 1])]
  }

  /** How many ticks at the end of the history had the pilot at C. */
  function TrailingC(h: seq<Glimpse>): (n: nat)
    ensures n <= |h|
    ensures forall i :: |h| - n <= i < |h| ==> h[i].js == C
  {
    if h == [] || h[|h| - 1].js != C then 0 else TrailingC(h[..|h| - 1]) + 1
  }

  /** A known card was presented, and the vehicle was not seen unplugged after that. */
  ghost predicate Granted(h: seq<Glimpse>) {
    exists k :: 0 <= k < |h| && h[k].granted && NotUnpluggedAfter(h, k)
  }

  predicate NotUnpluggedAfter(h: seq<Glimpse>, k: int) {
    forall i :: 0 <= k < i < |h| ==> !h[i].unplugged
  }

  lemma GrantedStep(h: seq<Glimpse>, g: Glimpse)
    ensures Granted(h + [g]) <==> g.granted || (Granted(h) && !g.unplugged)
  {
    var e := h + [g];
    if g.granted {
      assert e[|h|].granted && NotUnpluggedAfter(e, |h|);
    } else if Granted(h) && !g.unplugged {
      var k :| 0 <= k < |h| && h[k].granted && NotUnpluggedAfter(h, k);
      assert e[k].granted && NotUnpluggedAfter(e, k);
    }
    if Granted(e) {
      var k :| 0 <= k < |e| && e[k].granted && NotUnpluggedAfter(e, k);
      if k < |h| {
        assert forall i :: k < i < |h| ==> h[i] == e[i];
        assert h[k].granted && NotUnpluggedAfter(h, k) && !e[|h|].unplugged;
      }
    }
  }

  /** What one tick does to the dwell counter and to the authorisation. */
  lemma DwellAndGrant(st: State, x: Input)
    requires EndOfTick(st)
    ensures var g, t := GlimpseOf(st, x), Tick(st, x);
      && t.cStreak <= (if g.js == C then st.cStreak + 1 else 0)
      && (t.authorized <==> g.granted || (st.authorized && !g.unplugged))
      && (!st.closed && t.closed ==>
            g.js == C && t.cStreak >= C_DWELL_TICKS && (x.requireAuth ==> st.authorized))
  {
    StagesWrittenOut(st, x);
    var a := Begun(st, x);
    BegunIsCore(st, x);
    var b := Checked(a, x);
    CheckedIsCore(a, x);
    UpdateShows(b, x);
    var c := Driven(b, x);
    DrivenEndsWell(b, x);
    MeteredIsCore(c, x);
    SwipeShows(Metered(c, x), x);
  }

  lemma UpdateShows(b: State, x: Input)
    requires Core(b)
    ensures var c, js := Driven(b, x), b.pilot.committed;
      && c.cStreak <= (if js == C then b.cStreak + 1 else 0)
      && (c.authorized <==>
            b.authorized && !((b.phase == Ready || b.phase == Charging || b.phase == UserPaused) && js == A))
      && (c.phase == Charging && b.phase != Charging ==>
            js == C && c.cStreak >= C_DWELL_TICKS && (x.requireAuth ==> b.authorized))
      && (c.closed ==> c.phase == Charging)
      && (b.phase == Charging && c.phase == Charging ==> js == C)
  {
  }

  lemma SwipeShows(d: State, x: Input)
    ensures var t := Swiped(d, x.swipe);
      && t.cStreak == d.cStreak && t.closed == d.closed
      && (t.authorized <==> d.authorized || (x.swipe == KnownCard && d.learn == 0))
  {
  }

  /** The dwell counter counts ticks at C, and the authorisation is what the history says. */
  lemma {:induction false} HistoryExplains(st: State, xs: seq<Input>)
    requires EndOfTick(st) && st.cStreak == 0 && !st.authorized
    ensures Run(st, xs).cStreak <= TrailingC(History(st, xs))
    ensures Run(st, xs).authorized <==> Granted(History(st, xs))
    decreases |xs|
  {
    if xs != [] {
      var ys, x := xs[..|xs| - 1], xs[|xs| - 1];
      HistoryExplains(st, ys);
      RunEndsWell(st, ys);
      DwellAndGrant(Run(st, ys), x);
      GrantedStep(History(st, ys), GlimpseOf(Run(st, ys), x));
      TrailingStep(History(st, ys), GlimpseOf(Run(st, ys), x));
    }
  }

  lemma TrailingStep(h: seq<Glimpse>, g: Glimpse)
    ensures TrailingC(h + [g]) == if g.js == C then TrailingC(h) + 1 else 0
  {
    assert (h + [g])[..|h|] == h;
  }

  /**
   * The contactor closes only after the pilot has been at C for the last fifty ticks, and,
   * where a card is required, only after a known card with no unplugging since.
   */
  lemma ClosingEdge(st: State, xs: seq<Input>, x: Input)
    requires EndOfTick(st) && st.cStreak == 0 && !st.authorized
    requires !Run(st, xs).closed && Run(st, xs + [x]).closed
    ensures TrailingC(History(st, xs + [x])) >= C_DWELL_TICKS
    ensures x.requireAuth ==> Granted(History(st, xs))
    ensures Run(st, xs + [x]).session && !Run(st, xs).session
  {
    assert (xs + [x])[..|xs|] == xs;
    HistoryExplains(st, xs + [x]);
    HistoryExplains(st, xs);
    RunEndsWell(st, xs);
    RunEndsWell(st, xs + [x]);
    DwellAndGrant(Run(st, xs), x);
  }
}
