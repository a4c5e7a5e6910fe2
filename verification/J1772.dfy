/** The control-pilot classifier and its debounce. */
module J1772 {

  datatype Pilot = Invalid | A | B | C | D | E | F

  /** The band of a pilot voltage in millivolts. */
  function Classify(mv: int): (s: Pilot)
    ensures s != Invalid
    ensures s == B <==> 7500 <= mv < 10500
    ensures s == C <==> 4500 <= mv < 7500
    ensures s == D <==> 1500 <= mv < 4500
    ensures s == E <==> -1500 <= mv < 1500
  {
    if mv >= 10500 then A
    else if mv >= 7500 then B
    else if mv >= 4500 then C
    else if mv >= 1500 then D
    else if mv >= -1500 then E
    else F
  }

  /** The debounce state; the streak is a byte that saturates. */
  datatype Debouncer = Debouncer(committed: Pilot, candidate: Pilot, streak: nat)

  const FRESH := Debouncer(Invalid, Invalid, 0)

  function Stepped(d: Debouncer, s: Pilot, n: nat): Debouncer {
    var streak := if s != d.candidate then 1 else if d.streak < 0xFF then d.streak + 1 else d.streak;
    Debouncer(if streak >= n then s else d.committed, s, streak)
  }

  // ---------------------------------------------------------------- history

  /** The debounce state after a history of classified samples. */
  function After(h: seq<Pilot>, n: nat): Debouncer {
    if h == [] then FRESH else Stepped(After(h[..|h| - 1], n), h[|h| - 1], n)
  }

  /** How many samples at the end of the history are equal. */
  function TrailingRun(h: seq<Pilot>): (r: nat)
    ensures r <= |h|
    ensures r == 0 <==> h == []
  {
    if h == [] then 0
    else if |h| > 1 && h[|h| - 2] == h[|h| - 1] then TrailingRun(h[..|h| - 1]) + 1
    else 1
  }

  /** The `n` samples before position `e` are all equal. */
  ghost predicate RunEndsAt(h: seq<Pilot>, n: nat, e: nat)
    requires 1 <= n
  {
    n <= e <= |h| && forall i :: e - n <= i < e ==> h[i] == h[e - 1]
  }

  lemma {:induction false} TrailingRunIsLongest(h: seq<Pilot>, n: nat)
    requires 1 <= n
    ensures TrailingRun(h) >= n <==> RunEndsAt(h, n, |h|)
    decreases |h|
  {
    if h != [] {
      var g := h[..|h| - 1];
      if n == 1 {
      } else if |h| > 1 && h[|h| - 2] == h[|h| - 1] {
        TrailingRunIsLongest(g, n - 1);
        assert TrailingRun(h) == TrailingRun(g) + 1;
        if RunEndsAt(h, n, |h|) {
          assert RunEndsAt(g, n - 1, |g|);
        }
      }
    }
  }

  /** Candidate and streak are functions of the trailing run, saturation included. */
  lemma {:induction false} StreakIsTrailingRun(h: seq<Pilot>, n: nat)
    requires Invalid !in h
    ensures h != [] ==> After(h, n).candidate == h[|h| - 1]
    ensures After(h, n).streak == if TrailingRun(h) < 0xFF then TrailingRun(h) else 0xFF
    decreases |h|
  {
    if h != [] {
      var g := h[..|h| - 1];
      StreakIsTrailingRun(g, n);
      if g != [] {
        assert g[|g| - 1] == h[|h| - 2];
      } else {
        assert h[0] in h;
      }
    }
  }

  lemma CommittedStep(h: seq<Pilot>, n: nat)
    requires Invalid !in h && h != [] && 1 <= n <= 0xFF
    ensures After(h, n).committed ==
      if RunEndsAt(h, n, |h|) then h[|h| - 1] else After(h[..|h| - 1], n).committed
  {
    StreakIsTrailingRun(h, n);
    TrailingRunIsLongest(h, n);
  }

  /**
   * What is committed is the class of the most recent run of `n` equal samples, if
   * there has been one ...
   */
  lemma {:induction false} CommittedIsMostRecentRun(h: seq<Pilot>, n: nat, e: nat)
    requires Invalid !in h && 1 <= n <= 0xFF
    requires RunEndsAt(h, n, e)
    requires forall later :: e < later <= |h| ==> !RunEndsAt(h, n, later)
    ensures After(h, n).committed == h[e - 1]
    decreases |h|
  {
    CommittedStep(h, n);
    if e < |h| {
      var g := h[..|h| - 1];
      assert !RunEndsAt(h, n, |h|);
      forall later | e < later <= |g| ensures !RunEndsAt(g, n, later) {
        if RunEndsAt(g, n, later) {
          assert RunEndsAt(h, n, later);
        }
      }
      CommittedIsMostRecentRun(g, n, e);
    }
  }

  /** ... and nothing, if there has been none. */
  lemma {:induction false} NothingCommittedWithoutRun(h: seq<Pilot>, n: nat)
    requires Invalid !in h && 1 <= n <= 0xFF
    requires forall e :: n <= e <= |h| ==> !RunEndsAt(h, n, e)
    ensures After(h, n).committed == Invalid
    decreases |h|
  {
    if h != [] {
      CommittedStep(h, n);
      var g := h[..|h| - 1];
      forall e | n <= e <= |g| ensures !RunEndsAt(g, n, e) {
        if RunEndsAt(g, n, e) {
          assert RunEndsAt(h, n, e);
        }
      }
      NothingCommittedWithoutRun(g, n);
    }
  }

  /** A depth of 0 debounces no differently from a depth of 1. */
  lemma {:induction false} ZeroIsOne(h: seq<Pilot>)
    requires Invalid !in h
    ensures After(h, 0) == After(h, 1)
    decreases |h|
  {
    if h != [] {
      ZeroIsOne(h[..|h| - 1]);
    }
  }

  class Classifier {
    var committed: Pilot
    var candidate: Pilot
    var streak: nat

    function View(): Debouncer
      reads this
    {
      Debouncer(committed, candidate, streak)
    }

    constructor ()
      ensures View() == FRESH
    {
      committed, candidate, streak := Invalid, Invalid, 0;
    }

    method Init()
      modifies this
      ensures View() == FRESH
    {
      committed, candidate, streak := Invalid, Invalid, 0;
    }

    method Step(mv: int, n: nat) returns (s: Pilot)
      modifies this
      ensures View() == Stepped(old(View()), Classify(mv), n) && s == committed
    {
      var band := Classify(mv);
      if band == candidate {
        if streak < 0xFF {
          streak := streak + 1;
        }
      } else {
        candidate := band;
        streak := 1;
      }
      if streak >= n && committed != candidate {
        committed := candidate;
      }
      s := committed;
    }

    /** Any run of samples: the classifier is where its history puts it. */
    method StepAll(samples: seq<int>, n: nat)
      requires View() == FRESH
      modifies this
      ensures View() == After(Classes(samples), n) && Invalid !in Classes(samples)
    {
      assert Classes(samples[..0]) == [];
      for k := 0 to |samples|
        invariant View() == After(Classes(samples[..k]), n)
      {
        assert Classes(samples[..k + 1])[..k] == Classes(samples[..k]);
        var s := Step(samples[k], n);
      }
      assert samples[..|samples|] == samples;
    }
  }

  function Classes(samples: seq<int>): (h: seq<Pilot>)
    ensures |h| == |samples|
    ensures Invalid !in h
  {
    seq(|samples|, i requires 0 <= i < |samples| => Classify(samples[i]))
  }
}
