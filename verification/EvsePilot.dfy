/**
 * The debounced pilot over whole runs. A clear that ends a fault and the end of a replug
 * window make the classifier start over; between those the pilot is the history of its
 * samples.
 */
module EvsePilot {
  import opened J1772
  import opened Evse
  import opened EvseInvariant
  import opened EvseRuns
  import opened EvseHeat

  /** A clear that takes the last latched fault away. */
  predicate EndsFault(st: State, r: Request) {
    r.ClearFault? && !ClearRefused(r.id) && st.phase == Faulted && TakesAllLatched(st, r.id)
  }

  /** After it the charger is ready, nobody is charging, and the pilot is unknown. */
  lemma FaultEndsAfresh(st: State, r: Request)
    requires Core(st)
    ensures st.phase == Faulted ==> (Processed(st, r).phase != Faulted <==> EndsFault(st, r))
    ensures EndsFault(st, r) ==>
      var s := Processed(st, r);
      && s.phase == Ready && s.pilot == Debouncer(Invalid, Invalid, 0) && s.cpEStreak == 0
      && !s.session && !s.closed && !s.latch
    ensures !EndsFault(st, r) ==> Processed(st, r).pilot == st.pilot
  {
    if r.ClearFault? && !ClearRefused(r.id) {
      ClearLeaves(st, r.id);
    }
  }

  /** Some request ended a fault. */
  predicate Restarts(st: State, rs: seq<Request>) {
    rs != [] && (Restarts(st, rs[..|rs| - 1]) || EndsFault(Drained(st, rs[..|rs| - 1]), rs[|rs| - 1]))
  }

  lemma {:induction false} DrainedPilot(st: State, rs: seq<Request>)
    requires Core(st)
    ensures Drained(st, rs).pilot == if Restarts(st, rs) then FRESH else st.pilot
    decreases |rs|
  {
    if rs != [] {
      DrainedPilot(st, rs[..|rs| - 1]);
      DrainedIsCore(st, rs[..|rs| - 1]);
      FaultEndsAfresh(Drained(st, rs[..|rs| - 1]), rs[|rs| - 1]);
    }
  }

  /** The classifier starts over in this tick: a fault was ended, or the window is. */
  predicate StartsOver(st: State, x: Input) {
    Restarts(st, Taken(x.requests)) || Drained(st, Taken(x.requests)).window == 1
  }

  lemma WindowPilot(d: State, mv: int)
    ensures PilotStepped(WindowServed(d), mv).pilot == Stepped(if d.window == 1 then FRESH else d.pilot, Classify(mv), 3)
    ensures d.window == 1 ==> WindowServed(d).window == 0 && WindowServed(d).cpEStreak == 0
    ensures d.window == 1 ==> WindowServed(d).phase == if d.phase == UserPaused then Ready else d.phase
  {
  }

  lemma TickPilot(st: State, x: Input)
    requires Core(st)
    ensures Tick(st, x).pilot == Stepped(if StartsOver(st, x) then FRESH else st.pilot, Classify(x.mv), 3)
  {
    TickInStages(st, x);
    DrainedPilot(st, Taken(x.requests));
    WindowPilot(Drained(st, Taken(x.requests)), x.mv);
    BegunIsCore(st, x);
    CheckedIsCore(Begun(st, x), x);
    DrivenEndsWell(Checked(Begun(st, x), x), x);
    MeteredIsCore(Driven(Checked(Begun(st, x), x), x), x);
    SwipedIsCore(Metered(Driven(Checked(Begun(st, x), x), x), x), x.swipe);
  }

  /** The classes seen since the classifier last started over, after `before`. */
  function SamplesSince(before: seq<Pilot>, st: State, xs: seq<Input>): seq<Pilot> {
    if xs == [] then before
    else
      var s, x := Run(st, xs[..|xs| - 1]), xs[|xs| - 1];
      (if StartsOver(s, x) then [] else SamplesSince(before, st, xs[..|xs| - 1])) + [Classify(x.mv)]
  }

  lemma AfterOneMore(h: seq<Pilot>, p: Pilot)
    ensures After(h + [p], 3) == Stepped(After(h, 3), p, 3)
  {
    assert (h + [p])[..|h|] == h;
  }

  /** In every run from boot the pilot is what its samples since the last start make of it. */
  lemma {:induction false} PilotExactly(boot: BootInput, xs: seq<Input>)
    ensures Run(Booted(boot), xs).pilot == After(SamplesSince(Classes(boot.pilot), Booted(boot), xs), 3)
    decreases |xs|
  {
    BootEndsWell(boot);
    if xs != [] {
      var ys, x := xs[..|xs| - 1], xs[|xs| - 1];
      var s := Run(Booted(boot), ys);
      PilotExactly(boot, ys);
      RunEndsWell(Booted(boot), ys);
      TickPilot(s, x);
      AfterOneMore(if StartsOver(s, x) then [] else SamplesSince(Classes(boot.pilot), Booted(boot), ys), Classify(x.mv));
    }
  }

  /** Exactly what a simulated replug does: with a vehicle plugged in and no fault it pauses and opens a window of 150 ticks. */
  lemma ReplugExactly(st: State)
    ensures var s := Processed(st, SimulateReplug);
      if (st.pilot.committed == B || st.pilot.committed == C || st.pilot.committed == D)
         && (st.phase == Ready || st.phase == Charging || st.phase == UserPaused || st.phase == CoolingDown)
      then s.phase == UserPaused && s.window == 150 && s.cp == StateF && s.pilot == st.pilot && s.faults == st.faults
      else s == st
  {
  }

  /** At most four requests are taken in a tick, the first four. */
  lemma FourAtMost(rs: seq<Request>)
    ensures Taken(rs) <= rs && |Taken(rs)| == if |rs| < 4 then |rs| else 4
  {
  }
}
