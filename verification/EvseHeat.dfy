/**
 * Over-temperature and the phase of the charger: where the two are coupled, exactly which
 * requests uncouple them, and what the detector's history has to look like.
 */
module EvseHeat {
  import Fault
  import GfciPolicy
  import OverTemp
  import opened Evse
  import opened EvseInvariant
  import opened EvseRuns

  predicate IsHot(st: State) {
    Fault.OVER_TEMP in st.faults.active
  }

  /** Over-temperature means cooling down (or a fault), and cooling down means over-temperature. */
  predicate Coupled(st: State) {
    && (IsHot(st) ==> st.phase == CoolingDown || st.phase == Faulted)
    && (st.phase == CoolingDown ==> IsHot(st))
  }

  lemma UntouchedStaysCoupled(a: State, b: State)
    requires Coupled(a) && HeatUntouched(a, b)
    ensures Coupled(b)
  {
  }

  /** The requests that can uncouple them. */
  predicate Meddles(r: Request) {
    r.ClearFault? || r.SimulateReplug?
  }

  predicate NoneMeddles(rs: seq<Request>) {
    forall r :: r in rs ==> !Meddles(r)
  }

  /** The latched faults are exactly those that the request takes away. */
  predicate TakesAllLatched(st: State, id: nat) {
    if id == 0 then Fault.GFCI !in st.faults.active else Fault.Latched(st.faults.active) <= {id}
  }

  /**
   * A simulated replug while cooling down with a vehicle plugged in, a clear that ends a
   * fault while it is hot, and a clear of the over-temperature fault itself while cooling down.
   */
  predicate Uncouples(st: State, r: Request) {
    || (r.SimulateReplug? && st.phase == CoolingDown && Plugged(st.pilot.committed))
    || (r.ClearFault? && !ClearRefused(r.id) && st.phase == Faulted && IsHot(st) && r.id != Fault.OVER_TEMP
        && TakesAllLatched(st, r.id))
    || (r.ClearFault? && r.id == Fault.OVER_TEMP && st.phase == CoolingDown)
  }

  /** Exactly these requests uncouple them. */
  lemma UncouplingRequests(st: State, r: Request)
    requires Core(st) && Coupled(st)
    ensures !Coupled(Processed(st, r)) <==> Uncouples(st, r)
  {
    if r.ClearFault? && !ClearRefused(r.id) {
      ClearLeaves(st, r.id);
    }
  }

  lemma ClearLeaves(st: State, id: nat)
    requires Core(st) && !ClearRefused(id)
    ensures var s := AfterClear(st, id);
      && s.phase == st.phase
      && (IsHot(s) <==> IsHot(st) && id != Fault.OVER_TEMP)
      && (!LatchedActive(s) <==> TakesAllLatched(st, id))
  {
    var s := AfterClear(st, id);
    if id == 0 {
      Fault.LatchedAfter(st.faults, 0);
      assert Fault.GFCI in st.faults.active ==> Fault.GFCI in Fault.Latched(s.faults.active);
    } else {
      assert Fault.Latched(s.faults.active) == Fault.Latched(st.faults.active) - {id};
    }
  }

  // ---------------------------------------------------------- runs left alone

  lemma ProcessedUnmeddled(st: State, r: Request)
    requires Core(st) && !Meddles(r)
    ensures HeatUntouched(st, Processed(st, r))
  {
  }

  /** None of the requests finds a state that it would uncouple. */
  predicate NoneUncouples(st: State, rs: seq<Request>) {
    rs == [] || (NoneUncouples(st, rs[..|rs| - 1]) && !Uncouples(Drained(st, rs[..|rs| - 1]), rs[|rs| - 1]))
  }

  lemma {:induction false} DrainedStaysCoupled(st: State, rs: seq<Request>)
    requires Core(st) && Coupled(st) && NoneUncouples(st, rs)
    ensures Core(Drained(st, rs)) && Coupled(Drained(st, rs))
    decreases |rs|
  {
    DrainedIsCore(st, rs);
    if rs != [] {
      DrainedStaysCoupled(st, rs[..|rs| - 1]);
      UncouplingRequests(Drained(st, rs[..|rs| - 1]), rs[|rs| - 1]);
    }
  }

  lemma OverTempStaysCoupled(st: State, x: OverTemp.Sample)
    requires Core(st) && Coupled(st)
    ensures Coupled(OverTempChecked(st, x))
  {
    SelfClearing(st.faults, Fault.OVER_TEMP);
  }

  lemma CheckedStaysCoupled(st: State, x: Input)
    requires Core(st) && Coupled(st)
    ensures Coupled(Checked(st, x))
  {
    var a := SafeFailChecked(st, x.safeFail);
    SafeFailIsCore(st, x.safeFail);
    var b := GfciChecked(a, GfciPolicy.Sample(x.gfciLow, x.gfciPolicy));
    GfciIsCore(a, GfciPolicy.Sample(x.gfciLow, x.gfciPolicy));
    var c := AdcChecked(b, OnRail(x.ac) || OnRail(x.ct) || OnRail(x.lct));
    AdcIsCore(b, OnRail(x.ac) || OnRail(x.ct) || OnRail(x.lct));
    CpEIsCore(c);
    OverTempStaysCoupled(CpEChecked(c), SampleOf(x));
  }

  lemma AfterChecksUntouched(st: State, x: Input)
    requires Core(st)
    ensures HeatUntouched(st, Driven(st, x))
    ensures Core(Driven(st, x)) && HeatUntouched(Driven(st, x), Metered(Driven(st, x), x))
    ensures HeatUntouched(Metered(Driven(st, x), x), Swiped(Metered(Driven(st, x), x), x.swipe))
  {
    DrivenEndsWell(st, x);
    MeteredIsCore(Driven(st, x), x);
    SwipedIsCore(Metered(Driven(st, x), x), x.swipe);
  }

  lemma TickStaysCoupled(st: State, x: Input)
    requires Core(st) && Coupled(st) && NoneUncouples(st, Taken(x.requests))
    ensures Coupled(Tick(st, x))
  {
    TickInStages(st, x);
    BegunStaysCoupled(st, x);
    var b := Checked(Begun(st, x), x);
    CheckedIsCore(Begun(st, x), x);
    CheckedStaysCoupled(Begun(st, x), x);
    AfterChecksUntouched(b, x);
    UntouchedStaysCoupled(b, Driven(b, x));
    UntouchedStaysCoupled(Driven(b, x), Metered(Driven(b, x), x));
  }

  lemma BegunStaysCoupled(st: State, x: Input)
    requires Core(st) && Coupled(st) && NoneUncouples(st, Taken(x.requests))
    ensures Core(Begun(st, x)) && Coupled(Begun(st, x))
  {
    var d := Drained(st, Taken(x.requests));
    DrainedStaysCoupled(st, Taken(x.requests));
    WindowServedIsCore(d);
    PilotSteppedIsCore(WindowServed(d), x.mv);
  }

  /** No request of the run uncoupled the two. */
  predicate NeverUncoupled(st: State, xs: seq<Input>) {
    xs == [] || (NeverUncoupled(st, xs[..|xs| - 1])
                 && NoneUncouples(Run(st, xs[..|xs| - 1]), Taken(xs[|xs| - 1].requests)))
  }

  /**
   * In a run without one of the three uncoupling requests, over-temperature and cooling down
   * stay coupled, and the contactor is open whenever it is too hot. The run itself is
   * otherwise arbitrary.
   */
  lemma {:induction false} HotMeansOpen(st: State, xs: seq<Input>)
    requires EndOfTick(st) && Coupled(st) && NeverUncoupled(st, xs)
    ensures Coupled(Run(st, xs))
    ensures IsHot(Run(st, xs)) ==> !Run(st, xs).closed
    decreases |xs|
  {
    RunEndsWell(st, xs);
    if xs != [] {
      HotMeansOpen(st, xs[..|xs| - 1]);
      RunEndsWell(st, xs[..|xs| - 1]);
      TickStaysCoupled(Run(st, xs[..|xs| - 1]), xs[|xs| - 1]);
    }
  }

  // ------------------------------------------------------- the detector's history

  function SampleOf(x: Input): OverTemp.Sample {
    OverTemp.Sample(x.ntc1, x.gun, true, true)
  }

  /** A sensor counts between 300 and 3990; it is hot at 396 or less and cool at 525 or more. */
  lemma HotMeans(x: Input)
    ensures SampleOf(x).Hot() <==> 300 < x.ntc1 <= 396 || 300 < x.gun <= 396
    ensures SampleOf(x).Cool() <==>
      && (300 < x.ntc1 < 3990 || 300 < x.gun < 3990)
      && (300 < x.ntc1 < 3990 ==> x.ntc1 >= 525) && (300 < x.gun < 3990 ==> x.gun >= 525)
  {
  }

  function SamplesOf(xs: seq<Input>): (h: seq<OverTemp.Sample>)
    ensures |h| == |xs|
  {
    seq(|xs|, i requires 0 <= i < |xs| => SampleOf(xs[i]))
  }

  lemma ProcessedKeepsDetector(st: State, r: Request)
    ensures Processed(st, r).overTemp == st.overTemp
    ensures IsHot(Processed(st, r)) ==> IsHot(st)
    ensures !r.ClearFault? ==> (IsHot(Processed(st, r)) <==> IsHot(st))
  {
  }

  /** Requests may clear the fault, but they do not touch the detector. */
  lemma {:induction false} DrainedKeepsDetector(st: State, rs: seq<Request>)
    ensures Drained(st, rs).overTemp == st.overTemp
    ensures IsHot(Drained(st, rs)) ==> IsHot(st)
    ensures (forall r :: r in rs ==> !r.ClearFault?) ==> (IsHot(Drained(st, rs)) <==> IsHot(st))
    decreases |rs|
  {
    if rs != [] {
      assert rs[|rs| - 1] in rs;
      DrainedKeepsDetector(st, rs[..|rs| - 1]);
      ProcessedKeepsDetector(Drained(st, rs[..|rs| - 1]), rs[|rs| - 1]);
    }
  }

  lemma BegunKeepsDetector(st: State, x: Input)
    ensures Begun(st, x).overTemp == st.overTemp
    ensures IsHot(Begun(st, x)) ==> IsHot(st)
    ensures (forall r :: r in x.requests ==> !r.ClearFault?) ==> (IsHot(Begun(st, x)) <==> IsHot(st))
  {
    DrainedKeepsDetector(st, Taken(x.requests));
  }

  /** One tick, as far as heat is concerned, is one step of the detector on the fault register. */
  lemma TickSteps(st: State, x: Input)
    requires Core(st)
    ensures var a := Begun(st, x);
      var (c, act) := OverTemp.Stepped(st.overTemp.(faultActive := IsHot(a)), SampleOf(x));
      Tick(st, x).overTemp == c && (IsHot(Tick(st, x)) <==> c.faultActive)
  {
    TickInStages(st, x);
    var a := Begun(st, x);
    BegunIsCore(st, x);
    BegunKeepsDetector(st, x);
    CheckedSteps(a, x);
    CheckedIsCore(a, x);
    AfterChecksUntouched(Checked(a, x), x);
  }

  lemma CheckedSteps(st: State, x: Input)
    requires Core(st)
    ensures var (c, act) := OverTemp.Stepped(st.overTemp.(faultActive := IsHot(st)), SampleOf(x));
      Checked(st, x).overTemp == c && (IsHot(Checked(st, x)) <==> c.faultActive)
  {
    var a := SafeFailChecked(st, x.safeFail);
    SafeFailIsCore(st, x.safeFail);
    var b := GfciChecked(a, GfciPolicy.Sample(x.gfciLow, x.gfciPolicy));
    GfciIsCore(a, GfciPolicy.Sample(x.gfciLow, x.gfciPolicy));
    var c := AdcChecked(b, OnRail(x.ac) || OnRail(x.ct) || OnRail(x.lct));
    AdcIsCore(b, OnRail(x.ac) || OnRail(x.ct) || OnRail(x.lct));
    CpEIsCore(c);
    OverTempSteps(CpEChecked(c), SampleOf(x));
  }

  lemma OverTempSteps(st: State, x: OverTemp.Sample)
    requires Core(st)
    ensures var (c, act) := OverTemp.Stepped(st.overTemp.(faultActive := IsHot(st)), x);
      OverTempChecked(st, x).overTemp == c && (IsHot(OverTempChecked(st, x)) <==> c.faultActive)
  {
    SelfClearing(st.faults, Fault.OVER_TEMP);
  }

  lemma {:induction false} StreakIsHotRun(st: State, xs: seq<Input>)
    requires EndOfTick(st) && st.overTemp.tripStreak == 0
    ensures Run(st, xs).overTemp.tripStreak <= OverTemp.HotRun(SamplesOf(xs))
    decreases |xs|
  {
    if xs != [] {
      var ys, x := xs[..|xs| - 1], xs[|xs| - 1];
      assert SamplesOf(xs) == SamplesOf(ys) + [SampleOf(x)];
      StreakIsHotRun(st, ys);
      RunEndsWell(st, ys);
      TickSteps(Run(st, ys), x);
      OverTemp.StreakWithinRun(Run(st, ys).overTemp.(faultActive := IsHot(Begun(Run(st, ys), x))),
                               SamplesOf(ys), SampleOf(x));
    }
  }

  /**
   * The fault is raised only by the last of five or more consecutive hot ticks, and a tick
   * takes it away (other than by request) only if every populated sensor is cool.
   */
  lemma HeatEdges(st: State, xs: seq<Input>, x: Input)
    requires EndOfTick(st) && st.overTemp.tripStreak == 0
    ensures var s := Run(st, xs);
      && (!IsHot(s) && IsHot(Tick(s, x)) ==> OverTemp.HotRun(SamplesOf(xs + [x])) >= 5)
      && (IsHot(Begun(s, x)) ==> (!IsHot(Tick(s, x)) <==> SampleOf(x).Cool()))
  {
    var s := Run(st, xs);
    assert SamplesOf(xs + [x]) == SamplesOf(xs) + [SampleOf(x)];
    StreakIsHotRun(st, xs);
    RunEndsWell(st, xs);
    BegunKeepsDetector(s, x);
    TickSteps(s, x);
    OverTemp.StreakWithinRun(s.overTemp.(faultActive := IsHot(Begun(s, x))), SamplesOf(xs), SampleOf(x));
  }

  predicate HotAndUncleared(x: Input) {
    SampleOf(x).Hot() && forall r :: r in x.requests ==> !r.ClearFault?
  }

  lemma HotTick(st: State, x: Input)
    requires Core(st) && HotAndUncleared(x)
    ensures IsHot(Tick(st, x)) ||
      (!IsHot(st) && Tick(st, x).overTemp.tripStreak == st.overTemp.tripStreak + 1 < OverTemp.PERSIST_TICKS)
  {
    BegunKeepsDetector(st, x);
    TickSteps(st, x);
  }

  /** Five hot ticks in a row do raise it, whatever the state, unless it is cleared by request meanwhile. */
  lemma {:induction false} HotTicksRaise(st: State, xs: seq<Input>)
    requires EndOfTick(st)
    requires forall x :: x in xs ==> HotAndUncleared(x)
    ensures IsHot(Run(st, xs)) || Run(st, xs).overTemp.tripStreak >= |xs|
    ensures |xs| >= 5 ==> IsHot(Run(st, xs))
    decreases |xs|
  {
    if xs != [] {
      var ys, x := xs[..|xs| - 1], xs[|xs| - 1];
      assert x in xs;
      HotTicksRaise(st, ys);
      RunEndsWell(st, ys);
      HotTick(Run(st, ys), x);
    }
  }
}
