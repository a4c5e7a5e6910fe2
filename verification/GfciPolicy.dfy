/** What to do about the ground-fault line: debounce, warn once per episode, or raise once and for all. */
module GfciPolicy {

  const PERSIST_TICKS: nat := 3
  const POL_WARN: nat := 1

  datatype Context = Context(tripStreak: nat, warned: bool, faultActive: bool)

  datatype Action = Nothing | WarnEmit | RaiseFault

  /** One tick's reading of the (active-low) line and the persisted policy byte. */
  datatype Sample = Sample(low: bool, policy: nat)

  const IDLE := Context(0, false, false)

  function Counted(c: Context, x: Sample): Context {
    if !x.low then Context(0, false, c.faultActive)
    else if c.tripStreak < PERSIST_TICKS then c.(tripStreak := c.tripStreak + 1)
    else c
  }

  function Stepped(c: Context, x: Sample): (Context, Action) {
    var d := Counted(c, x);
    if d.tripStreak < PERSIST_TICKS then (d, Nothing)
    else if x.policy == POL_WARN then
      if d.warned then (d, Nothing) else (d.(warned := true), WarnEmit)
    else
      if d.faultActive then (d, Nothing) else (d.(faultActive := true), RaiseFault)
  }

  function After(h: seq<Sample>): Context {
    if h == [] then IDLE else Stepped(After(h[..|h| - 1]), h[|h| - 1]).0
  }

  function ActionAt(h: seq<Sample>): Action
    requires h != []
  {
    Stepped(After(h[..|h| - 1]), h[|h| - 1]).1
  }

  /** How many readings at the end of the history are low. */
  function LowRun(h: seq<Sample>): (n: nat)
    ensures n <= |h|
  {
    if h == [] || !h[|h| - 1].low then 0 else LowRun(h[..|h| - 1]) + 1
  }

  /** The line has been low long enough, as of the end of `h`. */
  predicate Tripped(h: seq<Sample>) {
    LowRun(h) >= 3
  }

  /** Some tick of the history tripped under a policy other than WARN. */
  predicate FaultDue(h: seq<Sample>) {
    h != [] && ((Tripped(h) && h[|h| - 1].policy != 1) || FaultDue(h[..|h| - 1]))
  }

  /** Some tick of the current low episode tripped under the WARN policy. */
  predicate WarnDue(h: seq<Sample>) {
    h != [] && h[|h| - 1].low
    && ((Tripped(h) && h[|h| - 1].policy == 1) || WarnDue(h[..|h| - 1]))
  }

  /** The context says exactly what the history says. */
  lemma {:induction false} ContextIsHistory(h: seq<Sample>)
    ensures After(h).tripStreak == if LowRun(h) < PERSIST_TICKS then LowRun(h) else PERSIST_TICKS
    ensures After(h).faultActive <==> FaultDue(h)
    ensures After(h).warned <==> WarnDue(h)
    decreases |h|
  {
    if h != [] {
      ContextIsHistory(h[..|h| - 1]);
    }
  }

  /**
   * The fault is raised in exactly the first tick that trips under any policy but WARN, and
   * never again; a warning is emitted in exactly the first tick of a low episode that trips
   * under WARN.
   */
  lemma ActionsAreEdges(h: seq<Sample>)
    requires h != []
    ensures ActionAt(h) == RaiseFault <==> FaultDue(h) && !FaultDue(h[..|h| - 1])
    ensures ActionAt(h) == WarnEmit <==>
      Tripped(h) && h[|h| - 1].policy == 1 && !WarnDue(h[..|h| - 1])
  {
    ContextIsHistory(h);
    ContextIsHistory(h[..|h| - 1]);
  }

  class Detector {
    var tripStreak: nat
    var warned: bool
    var faultActive: bool

    function View(): Context
      reads this
    {
      Context(tripStreak, warned, faultActive)
    }

    constructor ()
      ensures View() == IDLE
    {
      tripStreak, warned, faultActive := 0, false, false;
    }

    method Step(low: bool, policy: nat) returns (act: Action)
      modifies this
      ensures (View(), act) == Stepped(old(View()), Sample(low, policy))
    {
      if low {
        if tripStreak < PERSIST_TICKS {
          tripStreak := tripStreak + 1;
        }
      } else {
        tripStreak := 0;
        warned := false;
      }
      if tripStreak < PERSIST_TICKS {
        return Nothing;
      }
      if policy == POL_WARN {
        if warned {
          return Nothing;
        }
        warned := true;
        return WarnEmit;
      }
      if faultActive {
        return Nothing;
      }
      faultActive := true;
      return RaiseFault;
    }
  }
}
