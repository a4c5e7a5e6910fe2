/**
 * The replug window: while it runs the charger should be neither ready nor charging, and
 * its contactor open. Exactly which ticks break that, and what it means for whole runs.
 */
module EvseWindow {
  import opened J1772
  import Fault
  import GfciPolicy
  import OverTemp
  import opened SoftOverCurrent
  import opened Evse
  import opened EvseInvariant
  import opened EvseRuns
  import opened EvseHeat

  /** While the replug window runs the charger is neither ready nor charging. */
  predicate WindowHeld(st: State) {
    st.window > 0 ==> st.phase != Ready && st.phase != Charging
  }

  // ------------------------------------------------------------------ requests

  /** A resume while paused, and a clear that ends a fault. */
  predicate Releases(st: State, r: Request) {
    && st.window > 0
    && (|| (r.UserResume? && st.phase == UserPaused)
        || (r.ClearFault? && !ClearRefused(r.id) && st.phase == Faulted && TakesAllLatched(st, r.id)))
  }

  /** A pause, and a simulated replug with a vehicle plugged in. */
  predicate Repauses(st: State, r: Request) {
    r.UserPause? || (r.SimulateReplug? && Plugged(st.pilot.committed))
  }

  /** Exactly which requests break the window, and which mend it. */
  lemma WindowBreakers(st: State, r: Request)
    requires Core(st)
    ensures WindowHeld(st) ==> (!WindowHeld(Processed(st, r)) <==> Releases(st, r))
    ensures !WindowHeld(st) ==> (WindowHeld(Processed(st, r)) <==> Repauses(st, r))
  {
    if r.ClearFault? && !ClearRefused(r.id) {
      ClearLeaves(st, r.id);
    }
  }

  /** Some request released the charger, and none after that paused it again. */
  predicate Released(st: State, rs: seq<Request>) {
    rs != [] &&
    var d, r := Drained(st, rs[..|rs| - 1]), rs[|rs| - 1];
    if Released(st, rs[..|rs| - 1]) then !Repauses(d, r) else Releases(d, r)
  }

  lemma {:induction false} DrainedHeld(st: State, rs: seq<Request>)
    requires Core(st) && WindowHeld(st)
    ensures Core(Drained(st, rs)) && (WindowHeld(Drained(st, rs)) <==> !Released(st, rs))
    decreases |rs|
  {
    DrainedIsCore(st, rs);
    if rs != [] {
      DrainedHeld(st, rs[..|rs| - 1]);
      WindowBreakers(Drained(st, rs[..|rs| - 1]), rs[|rs| - 1]);
    }
  }

  // -------------------------------------------------------------------- one tick

  /** The window is as it was, and the phase too, unless there is a fault now. */
  predicate Undisturbed(a: State, b: State) {
    b.window == a.window && (b.phase == a.phase || b.phase == Faulted)
  }

  lemma TrippedUndisturbed(st: State, id: nat)
    ensures Undisturbed(st, Tripped(st, id))
  {
  }

  lemma EarlyChecksUndisturbed(a: State, x: Input)
    ensures Undisturbed(a, GfciChecked(SafeFailChecked(a, x.safeFail), GfciPolicy.Sample(x.gfciLow, x.gfciPolicy)))
  {
    TrippedUndisturbed(a, Fault.CRASH_LOOP_SAFE_FAIL);
  }

  lemma AdcUndisturbed(st: State, rail: bool)
    ensures Undisturbed(st, AdcChecked(st, rail))
  {
    TrippedUndisturbed(st.(adcStreak := Evse.Counted(st.adcStreak, rail, ADC_PERSIST_TICKS)), Fault.ADC_OUT_OF_RANGE);
  }

  lemma CpEUndisturbed(st: State)
    ensures Undisturbed(st, CpEChecked(st))
  {
    TrippedUndisturbed(st.(cpEStreak := Evse.Counted(st.cpEStreak, st.pilot.committed == E, CP_E_PERSIST_TICKS)),
                       Fault.CP_NO_PILOT);
  }

  /** The fifth hot tick in a row. */
  predicate Trips(st: State, x: Input) {
    !IsHot(st) && SampleOf(x).Hot() && st.overTemp.tripStreak + 1 >= OverTemp.PERSIST_TICKS
  }

  /** A cool tick that ends cooling down. */
  predicate Cools(st: State, x: Input) {
    st.phase == CoolingDown && IsHot(st) && SampleOf(x).Cool()
  }

  lemma OverTempPhase(st: State, x: Input)
    requires Core(st)
    ensures var t := OverTempChecked(st, SampleOf(x));
      && t.window == st.window
      && t.phase == (if st.phase == Faulted then Faulted else if Trips(st, x) then CoolingDown
                     else if Cools(st, x) then Ready else st.phase)
  {
  }

  /** The phase after the checks, if no fault has come up. */
  lemma CheckedPhase(a: State, x: Input)
    requires Core(a)
    ensures var b := Checked(a, x);
      && b.window == a.window
      && (b.phase == Faulted || b.phase == (if Trips(a, x) then CoolingDown else if Cools(a, x) then Ready else a.phase))
      && (a.phase == Faulted ==> b.phase == Faulted)
  {
    var s := SafeFailChecked(a, x.safeFail);
    SafeFailIsCore(a, x.safeFail);
    var g := GfciPolicy.Sample(x.gfciLow, x.gfciPolicy);
    GfciIsCore(s, g);
    EarlyChecksUndisturbed(a, x);
    var b := GfciChecked(s, g);
    var rail := OnRail(x.ac) || OnRail(x.ct) || OnRail(x.lct);
    AdcIsCore(b, rail);
    AdcUndisturbed(b, rail);
    var c := AdcChecked(b, rail);
    CpEIsCore(c);
    CpEUndisturbed(c);
    OverTempPhase(CpEChecked(c), x);
  }

  /** Phase and contactor take a paused charger out of its pause only when it is unplugged. */
  lemma DrivenPhase(b: State, x: Input)
    requires Core(b)
    ensures var c := Driven(b, x);
      && c.window == b.window
      && (c.phase == Ready || c.phase == Charging <==>
            b.phase == Ready || b.phase == Charging || (b.phase == UserPaused && b.pilot.committed == A))
  {
    UpdatedPhase(b, x.requireAuth);
  }

  lemma UpdatedPhase(b: State, requireAuth: bool)
    requires Core(b)
    ensures var s := Updated(b, requireAuth);
      && s.window == b.window
      && (s.phase == Ready || s.phase == Charging <==>
            b.phase == Ready || b.phase == Charging || (b.phase == UserPaused && b.pilot.committed == A))
  {
  }

  lemma WeldWindow(st: State, r: Reading)
    ensures WeldChecked(st, r).window == st.window
  {
    if r.valid && r.scale > 0 {
      var e := EdgeNoted(st);
      TrippedUndisturbed(e.(meter := e.meter.(weldStreak := Evse.Counted(e.meter.weldStreak,
                                                                        Milliamps(r) >= FLOW_MA && !e.closed, DETECTOR_PERSIST))),
                         Fault.RELAY_WELD);
    }
  }

  lemma StuckWindow(st: State, r: Reading)
    ensures StuckChecked(st, r).window == st.window
  {
    if r.valid && r.scale > 0 {
      TrippedUndisturbed(st.(meter := st.meter.(stuckStreak := Evse.Counted(st.meter.stuckStreak, Milliamps(r) < FLOW_MA,
                                                                           STUCK_OPEN_PERSIST))),
                         Fault.RELAY_STUCK_OPEN);
    }
  }

  lemma HardWindow(st: State, l: Limits, r: Reading)
    ensures HardChecked(st, l, r).window == st.window
  {
    if r.valid && r.scale > 0 {
      var over := Milliamps(r) > HocThreshold(Amps(l, st.derate));
      TrippedUndisturbed(st.(meter := st.meter.(hocStreak := Evse.Counted(st.meter.hocStreak, over, HOC_PERSIST_POLLS))),
                         Fault.HARD_OVER_CURRENT);
    }
  }

  lemma MeteredWindow(c: State, x: Input)
    ensures Metered(c, x).window == c.window
  {
    if c.meter.div + 1 >= POLL_TICKS {
      var a := AcChecked(c.(meter := c.meter.(div := 0)), x.reading);
      assert a.window == c.window;
      WeldWindow(a, x.reading);
      StuckWindow(WeldChecked(a, x.reading), x.reading);
      HardWindow(StuckChecked(WeldChecked(a, x.reading), x.reading), x.limits, x.reading);
    }
  }

  /** From the checks to the end of the tick. */
  lemma RestOfTick(b: State, x: Input)
    requires Core(b)
    ensures var t := Swiped(Metered(Driven(b, x), x), x.swipe);
      && Core(t) && t.window == b.window
      && (t.phase == Ready || t.phase == Charging <==>
            !LatchedActive(t)
            && (b.phase == Ready || b.phase == Charging || (b.phase == UserPaused && b.pilot.committed == A)))
      && (b.phase == Faulted ==> t.phase == Faulted)
  {
    var c := Driven(b, x);
    DrivenEndsWell(b, x);
    DrivenPhase(b, x);
    MeteredIsCore(c, x);
    MeteredWindow(c, x);
    SwipedIsCore(Metered(c, x), x.swipe);
  }

  /**
   * The tick that breaks the window: unless the window is over, or a latched fault is up at
   * its end, or it trips for heat, the charger was released by request, was unplugged while
   * paused, or has cooled down.
   */
  predicate Breaks(st: State, x: Input) {
    var d := Drained(st, Taken(x.requests));
    && d.window > 1 && !LatchedActive(Tick(st, x)) && !Trips(d, x)
    && (|| Released(st, Taken(x.requests))
        || (d.phase == UserPaused && PilotStepped(d, x.mv).pilot.committed == A)
        || Cools(d, x))
  }

  /** From the requests to the end of the tick. */
  lemma ServedTick(st: State, x: Input)
    requires Core(st)
    ensures var d, t := Drained(st, Taken(x.requests)), Tick(st, x);
      && Core(d) && Core(t) && t.window == (if d.window > 0 then d.window - 1 else 0)
      && (d.window > 1 ==>
            (t.phase == Ready || t.phase == Charging <==>
               && !LatchedActive(t) && !Trips(d, x)
               && (|| d.phase == Ready || d.phase == Charging
                   || (d.phase == UserPaused && PilotStepped(d, x.mv).pilot.committed == A)
                   || Cools(d, x))))
  {
    TickInStages(st, x);
    var d := Drained(st, Taken(x.requests));
    DrainedIsCore(st, Taken(x.requests));
    ServedWindow(d, x.mv);
    var a := Begun(st, x);
    BegunIsCore(st, x);
    CheckedIsCore(a, x);
    CheckedPhase(a, x);
    RestOfTick(Checked(a, x), x);
  }

  lemma ServedWindow(d: State, mv: int)
    ensures var a := PilotStepped(WindowServed(d), mv);
      && a.window == (if d.window > 0 then d.window - 1 else 0)
      && (d.window > 1 ==> a.phase == d.phase && a.faults == d.faults && a.overTemp == d.overTemp
                           && a.pilot == PilotStepped(d, mv).pilot)
  {
  }

  /** A tick keeps the window exactly if it is none of those. */
  lemma TickKeepsWindow(st: State, x: Input)
    requires EndOfTick(st) && WindowHeld(st)
    ensures WindowHeld(Tick(st, x)) <==> !Breaks(st, x)
  {
    DrainedHeld(st, Taken(x.requests));
    ServedTick(st, x);
  }

  // ------------------------------------------------------------------------ runs

  /** At no tick of the run the window was broken. */
  predicate NeverBroken(st: State, xs: seq<Input>) {
    xs == [] || (NeverBroken(st, xs[..|xs| - 1]) && !Breaks(Run(st, xs[..|xs| - 1]), xs[|xs| - 1]))
  }

  /** The window held at every tick end of the run. */
  ghost predicate HeldThroughout(st: State, xs: seq<Input>) {
    forall k :: 0 <= k <= |xs| ==> WindowHeld(Run(st, xs[..k]))
  }

  lemma HeldStep(st: State, ys: seq<Input>, x: Input)
    ensures HeldThroughout(st, ys + [x]) <==> HeldThroughout(st, ys) && WindowHeld(Run(st, ys + [x]))
  {
    var xs := ys + [x];
    assert forall k :: 0 <= k <= |ys| ==> xs[..k] == ys[..k];
    assert xs[..|xs|] == xs;
    if HeldThroughout(st, xs) {
      assert WindowHeld(Run(st, xs[..|xs|]));
      forall k | 0 <= k <= |ys| ensures WindowHeld(Run(st, ys[..k])) {
        assert WindowHeld(Run(st, xs[..k]));
      }
    }
  }

  /**
   * In every run the charger is neither ready nor charging at the tick ends of its replug
   * windows exactly if no tick broke one; and then the contactor is open at all of them.
   */
  lemma {:induction false} WindowHeldExactly(st: State, xs: seq<Input>)
    requires EndOfTick(st) && WindowHeld(st)
    ensures HeldThroughout(st, xs) <==> NeverBroken(st, xs)
    ensures NeverBroken(st, xs) && Run(st, xs).window > 0 ==> !Run(st, xs).closed
    decreases |xs|
  {
    RunEndsWell(st, xs);
    if xs != [] {
      var ys, x := xs[..|xs| - 1], xs[|xs| - 1];
      assert xs == ys + [x];
      WindowHeldExactly(st, ys);
      RunEndsWell(st, ys);
      HeldStep(st, ys, x);
      if NeverBroken(st, ys) {
        assert ys[..|ys|] == ys && WindowHeld(Run(st, ys[..|ys|]));
        TickKeepsWindow(Run(st, ys), x);
      }
      if NeverBroken(st, xs) {
        assert xs[..|xs|] == xs && WindowHeld(Run(st, xs[..|xs|]));
      }
    }
  }

  /** A boot has no window open, so this is about every run from boot. */
  lemma ContactorOpenInWindow(boot: BootInput, xs: seq<Input>)
    requires NeverBroken(Booted(boot), xs) && Run(Booted(boot), xs).window > 0
    ensures !Run(Booted(boot), xs).closed
    ensures Run(Booted(boot), xs).phase != Ready && Run(Booted(boot), xs).phase != Charging
  {
    BootEndsWell(boot);
    WindowHeldExactly(Booted(boot), xs);
    assert xs[..|xs|] == xs && WindowHeld(Run(Booted(boot), xs[..|xs|]));
  }

  /**
   * A tick ends with the contactor closed exactly if no latched fault is up, the pilot is at
   * C, and the charger was charging after the checks or was ready and has dwelt long enough.
   */
  lemma ClosedExactly(st: State, x: Input)
    requires EndOfTick(st)
    ensures var b, t := Performed(st, x, UP_TO_CHECK), Tick(st, x);
      t.closed <==>
        && !LatchedActive(t) && b.pilot.committed == C
        && (|| b.phase == Charging
            || (b.phase == Ready && b.cStreak + 1 >= C_DWELL_TICKS && (x.requireAuth ==> b.authorized)))
  {
    StagesWrittenOut(st, x);
    BegunIsCore(st, x);
    var b := Checked(Begun(st, x), x);
    CheckedIsCore(Begun(st, x), x);
    TickEndsWell(st, x);
    DrivenEndsWell(b, x);
    DrivenCharges(b, x);
    MeteredIsCore(Driven(b, x), x);
    SwipedIsCore(Metered(Driven(b, x), x), x.swipe);
  }

  lemma DrivenCharges(b: State, x: Input)
    requires Core(b)
    ensures Driven(b, x).phase == Charging <==>
      && b.pilot.committed == C
      && (|| b.phase == Charging
          || (b.phase == Ready && b.cStreak + 1 >= C_DWELL_TICKS && (x.requireAuth ==> b.authorized)))
  {
  }

  /** The tick ends in a window with the contactor closed. */
  predicate ClosesInWindow(st: State, x: Input) {
    var b := Performed(st, x, UP_TO_CHECK);
    && Drained(st, Taken(x.requests)).window > 1
    && !LatchedActive(Tick(st, x)) && b.pilot.committed == C
    && (|| b.phase == Charging
        || (b.phase == Ready && b.cStreak + 1 >= C_DWELL_TICKS && (x.requireAuth ==> b.authorized)))
  }

  predicate NeverCloses(st: State, xs: seq<Input>) {
    xs == [] || (NeverCloses(st, xs[..|xs| - 1]) && !ClosesInWindow(Run(st, xs[..|xs| - 1]), xs[|xs| - 1]))
  }

  predicate OpenInWindow(st: State) {
    st.window > 0 ==> !st.closed
  }

  ghost predicate OpenThroughout(st: State, xs: seq<Input>) {
    forall k :: 0 <= k <= |xs| ==> OpenInWindow(Run(st, xs[..k]))
  }

  lemma OpenStep(st: State, ys: seq<Input>, x: Input)
    ensures OpenThroughout(st, ys + [x]) <==> OpenThroughout(st, ys) && OpenInWindow(Run(st, ys + [x]))
  {
    var xs := ys + [x];
    assert forall k :: 0 <= k <= |ys| ==> xs[..k] == ys[..k];
    assert xs[..|xs|] == xs;
    if OpenThroughout(st, xs) {
      assert OpenInWindow(Run(st, xs[..|xs|]));
      forall k | 0 <= k <= |ys| ensures OpenInWindow(Run(st, ys[..k])) {
        assert OpenInWindow(Run(st, xs[..k]));
      }
    }
  }

  /** The contactor itself is open at all tick ends in replug windows exactly if no tick closes it so. */
  lemma {:induction false} OpenThroughoutExactly(st: State, xs: seq<Input>)
    requires EndOfTick(st) && OpenInWindow(st)
    ensures OpenThroughout(st, xs) <==> NeverCloses(st, xs)
    decreases |xs|
  {
    if xs == [] {
      assert xs[..0] == xs;
    } else {
      var ys, x := xs[..|xs| - 1], xs[|xs| - 1];
      assert xs == ys + [x];
      OpenThroughoutExactly(st, ys);
      RunEndsWell(st, ys);
      OpenStep(st, ys, x);
      ServedTick(Run(st, ys), x);
      ClosedExactly(Run(st, ys), x);
    }
  }
}
