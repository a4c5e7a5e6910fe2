/**
 * The fault catalogue. A fault is identified by its bit index in the active bitmap;
 * indices below 16 are latched, the others clear themselves, and index 1, the ground
 * fault, is cleared by nothing but a power cycle.
 */
module Fault {

  const NONE: nat := 0
  const GFCI: nat := 1
  const RELAY_WELD: nat := 2
  const RELAY_STUCK_OPEN: nat := 3
  const CP_NO_PILOT: nat := 5
  const BOOT_SELF_TEST: nat := 7
  const ADC_OUT_OF_RANGE: nat := 11
  const HARD_OVER_CURRENT: nat := 12
  const CRASH_LOOP_SAFE_FAIL: nat := 13
  const FIRST_SELF_CLEARING: nat := 16
  const OVER_TEMP: nat := 16
  const SOFT_OVER_CURRENT: nat := 17
  const AC_ABSENT: nat := 19
  const COUNT: nat := 21

  predicate IdOk(id: nat) {
    NONE < id < COUNT
  }

  /** The bits that are set, and the fault that came first. */
  datatype Faults = Faults(active: set<nat>, first: nat)

  const CLEAN := Faults({}, NONE)

  /** The lowest active bit from `i` on, or `NONE`. */
  function LowestFrom(active: set<nat>, i: nat): (id: nat)
    requires i <= COUNT
    ensures id == NONE || (id in active && i <= id < COUNT)
    ensures forall k :: i <= k < COUNT && k in active && i > 0 ==> NONE < id <= k
    decreases COUNT - i
  {
    if i == COUNT then NONE else if i in active then i else LowestFrom(active, i + 1)
  }

  /** The latched bits, which hold the charger in its fault state. */
  function Latched(active: set<nat>): set<nat> {
    set id | id in active && 1 <= id < FIRST_SELF_CLEARING
  }

  function Raised(s: Faults, id: nat): Faults {
    if !IdOk(id) || id in s.active then s
    else Faults(s.active + {id}, if s.first == NONE then id else s.first)
  }

  /** The codes of a clear: -1 refused, 0 nothing to do, 1 cleared. */
  function ClearCode(s: Faults, id: nat): int {
    if !IdOk(id) || id == GFCI then -1 else if id in s.active then 1 else 0
  }

  function Cleared(s: Faults, id: nat): Faults {
    if ClearCode(s, id) != 1 then s
    else
      var active := s.active - {id};
      Faults(active, if s.first == id then LowestFrom(active, 1) else s.first)
  }

  function AllCleared(s: Faults): Faults {
    var active := s.active - (Latched(s.active) - {GFCI});
    Faults(active, LowestFrom(active, 1))
  }

  /** Every active bit is in the catalogue, and the first fault, if named, is active. */
  predicate WellFormed(s: Faults) {
    && (forall id :: id in s.active ==> IdOk(id))
    && (s.first == NONE || s.first in s.active)
  }

  /** A fault is gone after a request to clear exactly if it is not the ground fault and the request covers it. */
  lemma ClearRemovesExactly(s: Faults, id: nat, f: nat)
    requires WellFormed(s) && f in s.active
    ensures f !in Cleared(s, id).active <==> f == id && f != GFCI
    ensures f !in AllCleared(s).active <==> f < FIRST_SELF_CLEARING && f != GFCI
  {
    assert f in Latched(s.active) <==> f < FIRST_SELF_CLEARING;
  }

  /** Nothing becomes active by clearing, and the book-keeping stays sound. */
  lemma OperationsKeepWellFormed(s: Faults, id: nat)
    requires WellFormed(s)
    ensures WellFormed(Raised(s, id)) && WellFormed(Cleared(s, id)) && WellFormed(AllCleared(s))
    ensures Cleared(s, id).active <= s.active && AllCleared(s).active <= s.active
    ensures Raised(s, id).active == if IdOk(id) then s.active + {id} else s.active
  {
  }

  /** A raise of a latched fault, and nothing else among these, makes the latched set non-empty or keeps it so. */
  lemma LatchedAfter(s: Faults, id: nat)
    requires WellFormed(s)
    ensures Latched(Raised(s, id).active) == Latched(s.active) + if 1 <= id < FIRST_SELF_CLEARING then {id} else {}
    ensures id >= FIRST_SELF_CLEARING ==> Latched(Cleared(s, id).active) == Latched(s.active)
    ensures Latched(AllCleared(s).active) == Latched(s.active) * {GFCI}
  {
  }

  /** Which fault is named the first: kept while it is active, replaced by the lowest that is left. */
  lemma FirstIsKept(s: Faults, id: nat)
    requires WellFormed(s)
    ensures s.first != NONE ==> Raised(s, id).first == s.first
    ensures s.first == NONE && IdOk(id) && id !in s.active ==> Raised(s, id).first == id
    ensures s.first in Cleared(s, id).active ==> Cleared(s, id).first == s.first
    ensures s.first != NONE && s.first !in Cleared(s, id).active ==> IsLowest(Cleared(s, id))
    ensures IsLowest(AllCleared(s))
  {
  }

  /** The fault named is the lowest that is active; none is named if none is active. */
  predicate IsLowest(s: Faults) {
    && (s.first == NONE || s.first in s.active)
    && forall k :: 1 <= k < COUNT && k in s.active ==> NONE < s.first <= k
  }

  class Register {
    var activeBits: set<nat>
    var firstRaised: nat

    function View(): Faults
      reads this
    {
      Faults(activeBits, firstRaised)
    }

    constructor ()
      ensures View() == CLEAN
    {
      activeBits, firstRaised := {}, NONE;
    }

    predicate IsActive(id: nat)
      reads this
    {
      IdOk(id) && id in activeBits
    }

    method Raise(id: nat) returns (rc: int)
      modifies this
      ensures View() == Raised(old(View()), id)
      ensures rc == if !IdOk(id) then -1 else if id in old(activeBits) then 0 else 1
    {
      if !IdOk(id) {
        return -1;
      }
      if id in activeBits {
        return 0;
      }
      activeBits := activeBits + {id};
      if firstRaised == NONE {
        firstRaised := id;
      }
      rc := 1;
    }

    method Clear(id: nat) returns (rc: int)
      modifies this
      ensures View() == Cleared(old(View()), id)
      ensures rc == ClearCode(old(View()), id)
    {
      if !IdOk(id) || id == GFCI {
        return -1;
      }
      if id !in activeBits {
        return 0;
      }
      activeBits := activeBits - {id};
      if firstRaised == id {
        firstRaised := Lowest();
      }
      rc := 1;
    }

    /** The scan for the lowest active bit. */
    method Lowest() returns (id: nat)
      ensures id == LowestFrom(activeBits, 1)
    {
      for i := 1 to COUNT
        invariant LowestFrom(activeBits, 1) == LowestFrom(activeBits, i)
      {
        if i in activeBits {
          return i;
        }
      }
      id := NONE;
    }

    method AnyLatchedActive() returns (any: bool)
      ensures any <==> Latched(activeBits) != {}
    {
      for i := 1 to FIRST_SELF_CLEARING
        invariant forall k :: 1 <= k < i ==> k !in activeBits
      {
        if i in activeBits {
          assert i in Latched(activeBits);
          return true;
        }
      }
      any := false;
    }

    /** Clear every latched fault but the ground fault; the number cleared. */
    method ClearAllClearable() returns (n: nat)
      modifies this
      ensures View() == AllCleared(old(View()))
      ensures n == |Latched(old(activeBits)) - {GFCI}|
    {
      ghost var cleared: set<nat> := {};
      n := 0;
      for i := 1 to FIRST_SELF_CLEARING
        invariant cleared == set k | k in old(activeBits) && 1 <= k < i && k != GFCI
        invariant activeBits == old(activeBits) - cleared && n == |cleared|
        invariant firstRaised == old(firstRaised)
      {
        if i != GFCI && i in activeBits {
          activeBits := activeBits - {i};
          cleared := cleared + {i};
          n := n + 1;
        }
      }
      assert cleared == Latched(old(activeBits)) - {GFCI};
      firstRaised := Lowest();
    }
  }
}
