/** The over-temperature detector: trip after a run of hot ticks, clear with hysteresis. */
module OverTemp {

  const TRIP_RAW: nat := 396
  const CLEAR_RAW: nat := 525
  const GUARD_LO: nat := 300
  const GUARD_HI: nat := 3990
  const PERSIST_TICKS: nat := 5

  datatype Context = Context(tripStreak: nat, faultActive: bool)

  datatype Action = Stay | Trip | Clear

  /** One tick's raw counts of the two sensors and whether the build has them. */
  datatype Sample = Sample(ntc1: nat, ntc2: nat, present1: bool, present2: bool) {
    predicate Counts1() {
      present1 && Populated(ntc1)
    }

    predicate Counts2() {
      present2 && Populated(ntc2)
    }

    predicate Sensed() {
      Counts1() || Counts2()
    }

    /** Some populated sensor is at or above the trip temperature (raw counts fall as it heats). */
    predicate Hot() {
      (Counts1() && ntc1 <= TRIP_RAW) || (Counts2() && ntc2 <= TRIP_RAW)
    }

    /** Every populated sensor is at or below the clear temperature, and there is one. */
    predicate Cool() {
      Sensed() && (Counts1() ==> ntc1 >= CLEAR_RAW) && (Counts2() ==> ntc2 >= CLEAR_RAW)
    }
  }

  predicate Populated(raw: nat) {
    GUARD_LO < raw < GUARD_HI
  }

  function Stepped(c: Context, x: Sample): (Context, Action) {
    if !x.Sensed() then (c.(tripStreak := 0), Stay)
    else if !c.faultActive && x.Hot() then
      var streak := if c.tripStreak < PERSIST_TICKS then c.tripStreak + 1 else c.tripStreak;
      if streak >= PERSIST_TICKS then (Context(streak, true), Trip) else (Context(streak, false), Stay)
    else if c.faultActive && x.Cool() then (Context(0, false), Clear)
    else (c.(tripStreak := 0), Stay)
  }

  /** How many samples at the end of the history are hot. */
  function HotRun(h: seq<Sample>): (n: nat)
    ensures n <= |h|
  {
    if h == [] || !h[|h| - 1].Hot() then 0 else HotRun(h[..|h| - 1]) + 1
  }

  /** A streak never exceeds the run of hot samples it counts. */
  lemma StreakWithinRun(c: Context, h: seq<Sample>, x: Sample)
    requires c.tripStreak <= HotRun(h)
    ensures Stepped(c, x).0.tripStreak <= HotRun(h + [x])
    ensures Stepped(c, x).1 == Trip ==> HotRun(h + [x]) >= PERSIST_TICKS && !c.faultActive
    ensures Stepped(c, x).1 == Clear ==> x.Cool() && c.faultActive
    ensures Stepped(c, x).0.faultActive <==> Stepped(c, x).1 == Trip || (c.faultActive && Stepped(c, x).1 != Clear)
  {
    assert (h + [x])[..|h|] == h;
  }

  class Detector {
    var tripStreak: nat
    var faultActive: bool

    function View(): Context
      reads this
    {
      Context(tripStreak, faultActive)
    }

    constructor ()
      ensures View() == Context(0, false)
    {
      tripStreak, faultActive := 0, false;
    }

    method Step(x: Sample) returns (act: Action)
      modifies this
      ensures (View(), act) == Stepped(old(View()), x)
    {
      var p1 := x.present1 && Populated(x.ntc1);
      var p2 := x.present2 && Populated(x.ntc2);
      if !p1 && !p2 {
        tripStreak := 0;
        return Stay;
      }
      var hottest := 0xFFFF;
      if p1 && x.ntc1 < hottest {
        hottest := x.ntc1;
      }
      if p2 && x.ntc2 < hottest {
        hottest := x.ntc2;
      }
      act := Stay;
      if !faultActive && hottest <= TRIP_RAW {
        if tripStreak < PERSIST_TICKS {
          tripStreak := tripStreak + 1;
        }
        if tripStreak >= PERSIST_TICKS {
          act := Trip;
          faultActive := true;
        }
      } else {
        tripStreak := 0;
        if faultActive && hottest >= CLEAR_RAW {
          act := Clear;
          faultActive := false;
        }
      }
    }
  }
}
