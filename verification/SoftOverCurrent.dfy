/**
 * The advertised current and the soft over-current ramp: half a minute above 105 % of
 * what is advertised lowers the advertisement by a tenth, down to the 6 A floor, and only
 * there raises a fault.
 */
module SoftOverCurrent {

  const HW_AMPS_MAX: nat := 48
  const DIP1_AMPS_CLOSED: nat := 48
  const DIP1_AMPS_OPEN: nat := 40
  const FLOOR: nat := 6
  const PERSIST_POLLS: nat := 75

  /** What limits the current: the DIP switch, and the persisted request (0 for none). */
  datatype Limits = Limits(dipClosed: bool, requested: nat)

  function BaseAmps(l: Limits): (a: nat)
    ensures a <= HW_AMPS_MAX
  {
    var dip := if l.dipClosed then DIP1_AMPS_CLOSED else DIP1_AMPS_OPEN;
    var cap := if dip < HW_AMPS_MAX then dip else HW_AMPS_MAX;
    if l.requested == 0 then cap else if l.requested < cap then l.requested else cap
  }

  function Amps(l: Limits, derate: nat): (a: nat)
    ensures FLOOR <= a <= HW_AMPS_MAX
  {
    var base := BaseAmps(l);
    if derate >= base then FLOOR
    else if base - derate < FLOOR then FLOOR else base - derate
  }

  /** What is on offer before any derate: the least of 48 A, the DIP switch's 48 or 40 A, and the persisted request, if any. */
  lemma OfferIsLeast(l: Limits)
    ensures var a := BaseAmps(l);
      && a <= 48 && (!l.dipClosed ==> a <= 40) && (l.requested != 0 ==> a <= l.requested)
      && (a == l.requested || a == if l.dipClosed then 48 else 40)
  {
  }

  /** And with one: what is left of it, but never less than 6 A. */
  lemma OfferIsDerated(l: Limits, derate: nat)
    ensures BaseAmps(l) >= derate + 6 ==> Amps(l, derate) == BaseAmps(l) - derate
    ensures BaseAmps(l) < derate + 6 ==> Amps(l, derate) == 6
  {
  }

  function RampStep(amps: nat): nat {
    if amps >= 10 then amps / 10 else 1
  }

  /** The ramp's own state: the accumulated derate, the streak, and whether its fault is up. */
  datatype Ramp = Ramp(derate: nat, streak: nat, fault: bool)

  /** The current at which a poll counts as over, in milliamperes. */
  function Threshold(amps: nat): nat {
    amps * 1000 * 105 / 100
  }

  /** One poll that read `ma` milliamperes. */
  function Polled(r: Ramp, l: Limits, ma: nat): Ramp {
    var amps := Amps(l, r.derate);
    if ma <= Threshold(amps) then Ramp(r.derate, 0, false)
    else if r.streak < PERSIST_POLLS then r.(streak := r.streak + 1)
    else if amps > FLOOR then r.(derate := r.derate + RampStep(amps), streak := 0)
    else r.(fault := true)
  }

  const DERATE_MAX: nat := 42

  /** What every reachable ramp satisfies. */
  predicate Sound(r: Ramp) {
    r.derate <= DERATE_MAX && r.streak <= PERSIST_POLLS
  }

  /** The derate never grows past 42, so it fits its byte and never silences the 6 A floor. */
  lemma PolledIsSound(r: Ramp, l: Limits, ma: nat)
    requires Sound(r)
    ensures Sound(Polled(r, l, ma))
  {
  }

  /** A ramp strictly lowers what is advertised under the same limits, and by no more than it announced. */
  lemma RampLowers(r: Ramp, l: Limits)
    requires Amps(l, r.derate) > FLOOR
    ensures Amps(l, r.derate + RampStep(Amps(l, r.derate))) == Amps(l, r.derate) - RampStep(Amps(l, r.derate))
    ensures Amps(l, r.derate + RampStep(Amps(l, r.derate))) >= FLOOR
  {
  }

  /** How many ramps lie between an advertisement and the floor. */
  function RampsFrom(amps: nat): (n: nat)
    ensures amps <= FLOOR <==> n == 0
    decreases amps
  {
    if amps <= FLOOR then 0 else 1 + RampsFrom(amps - RampStep(amps))
  }

  /** Twenty-three ramps lead from 48 A to the floor, and no advertisement is further from it. */
  lemma AtMost23Ramps(amps: nat)
    requires amps <= HW_AMPS_MAX
    ensures RampsFrom(amps) <= 23
    ensures amps == HW_AMPS_MAX ==> RampsFrom(amps) == 23
  {
    Ladder(HW_AMPS_MAX, 30, 19);
    if amps > FLOOR {
      if amps > 19 {
        RampsMonotone(amps, HW_AMPS_MAX);
      } else {
        UnitRamps(amps);
      }
    }
  }

  /** From 19 A down every ramp is one ampere. */
  lemma {:induction false} UnitRamps(amps: nat)
    requires FLOOR <= amps <= 19
    ensures RampsFrom(amps) == amps - FLOOR
    decreases amps
  {
    if amps > FLOOR {
      UnitRamps(amps - 1);
    }
  }

  lemma Rung(amps: nat, next: nat)
    requires amps >= 10 && next == amps - amps / 10
    ensures RampsFrom(amps) == 1 + RampsFrom(next)
  {
  }

  /** The first five ramps from 48 A lead to 44, 40, 36, 33 and 30 ... */
  lemma UpperLadder(a: nat, b: nat, c: nat, d: nat, e: nat, f: nat)
    requires a == 48 && b == 44 && c == 40 && d == 36 && e == 33 && f == 30
    ensures RampsFrom(a) == 5 + RampsFrom(f)
  {
    Rung(a, b);
    Rung(b, c);
    Rung(c, d);
    Rung(d, e);
    Rung(e, f);
  }

  /** ... and the next five to 27, 25, 23, 21 and 19. */
  lemma LowerLadder(f: nat, g: nat, h: nat, i: nat, j: nat, k: nat)
    requires f == 30 && g == 27 && h == 25 && i == 23 && j == 21 && k == 19
    ensures RampsFrom(f) == 5 + RampsFrom(k)
  {
    Rung(f, g);
    Rung(g, h);
    Rung(h, i);
    Rung(i, j);
    Rung(j, k);
  }

  lemma Ladder(a: nat, f: nat, k: nat)
    requires a == 48 && f == 30 && k == 19
    ensures RampsFrom(a) == 23
  {
    UpperLadder(a, 44, 40, 36, 33, f);
    LowerLadder(f, 27, 25, 23, 21, k);
    UnitRamps(k);
  }

  lemma {:induction false} RampsMonotone(a: nat, b: nat)
    requires a <= b
    ensures RampsFrom(a) <= RampsFrom(b)
    decreases b
  {
    if a > FLOOR {
      RampsMonotone(a - RampStep(a), b - RampStep(b));
    }
  }

  /** Whole polls above the threshold still needed before the fault is up. */
  function PollsLeft(r: Ramp, l: Limits): nat
    requires Sound(r)
  {
    if r.fault then 0
    else RampsFrom(Amps(l, r.derate)) * (PERSIST_POLLS + 1) + (PERSIST_POLLS + 1 - r.streak)
  }

  /** The current stays above the threshold of whatever is advertised at the time. */
  predicate StaysOver(r: Ramp, l: Limits, readings: seq<nat>)
    decreases |readings|
  {
    readings == [] ||
    (readings[0] > Threshold(Amps(l, r.derate)) && StaysOver(Polled(r, l, readings[0]), l, readings[1..]))
  }

  function PolledAll(r: Ramp, l: Limits, readings: seq<nat>): Ramp
    decreases |readings|
  {
    if readings == [] then r else PolledAll(Polled(r, l, readings[0]), l, readings[1..])
  }

  lemma OnePollCloser(r: Ramp, l: Limits, ma: nat)
    requires Sound(r) && !r.fault && ma > Threshold(Amps(l, r.derate))
    ensures Sound(Polled(r, l, ma)) && PollsLeft(Polled(r, l, ma), l) == PollsLeft(r, l) - 1
  {
    if r.streak == PERSIST_POLLS && Amps(l, r.derate) > FLOOR {
      RampLowers(r, l);
      assert RampsFrom(Amps(l, r.derate)) == 1 + RampsFrom(Amps(l, r.derate + RampStep(Amps(l, r.derate))));
    }
  }

  /** While the current stays over, the fault comes after exactly the polls that were left, no earlier and no later. */
  lemma {:induction false} FaultExactlyInTime(r: Ramp, l: Limits, readings: seq<nat>)
    requires Sound(r) && !r.fault && StaysOver(r, l, readings)
    ensures Sound(PolledAll(r, l, readings))
    ensures PolledAll(r, l, readings).fault <==> |readings| >= PollsLeft(r, l)
    decreases |readings|
  {
    if readings != [] {
      OnePollCloser(r, l, readings[0]);
      var s := Polled(r, l, readings[0]);
      if s.fault {
        FaultStays(s, l, readings[1..]);
      } else {
        FaultExactlyInTime(s, l, readings[1..]);
      }
    }
  }

  lemma {:induction false} FaultStays(r: Ramp, l: Limits, readings: seq<nat>)
    requires Sound(r) && r.fault && StaysOver(r, l, readings)
    ensures Sound(PolledAll(r, l, readings)) && PolledAll(r, l, readings).fault
    decreases |readings|
  {
    if readings != [] {
      FaultStays(Polled(r, l, readings[0]), l, readings[1..]);
    }
  }

  /** Whatever the limits, that is at most 23 ramps and 24 times 76 polls. */
  lemma FaultWithin24Windows(r: Ramp, l: Limits)
    requires Sound(r)
    ensures RampsFrom(Amps(l, r.derate)) <= 23
    ensures PollsLeft(r, l) <= 24 * 76
  {
    AtMost23Ramps(Amps(l, r.derate));
  }
}
