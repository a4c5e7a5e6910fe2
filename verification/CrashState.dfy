/**
 * The crash-loop latch: a count of consecutive watchdog or low-power resets, kept in a
 * two-slot record, that puts the charger in safe-fail from the fifth one on.
 */
module CrashState {
  import opened Bytes
  import opened W25q
  import opened PingPong

  const SLOT_A: nat := 0x04D000
  const SLOT_B: nat := 0x04E000
  const SIZE: nat := 32
  const COUNT_OFF: nat := 8
  const VERSION: byte := 1
  const THRESHOLD: nat := 5

  /** What the latch lives through: boots, told apart by reset cause, and 60-second alive markers. */
  datatype Event = Boot(wasCrash: bool) | Alive

  /** The number of crash boots since the last deliberate boot or alive marker. */
  function Streak(history: seq<Event>): nat {
    if history == [] then 0
    else match history[|history| - 1]
      case Boot(true) => Streak(history[..|history| - 1]) + 1
      case Boot(false) => 0
      case Alive => 0
  }

  /** The count as the one-byte field holds it. */
  function Saturated(n: nat): (m: nat)
    ensures m <= 0xFF
  {
    if n < 0xFF then n else 0xFF
  }

  function NextCount(count: nat, wasCrash: bool): nat {
    if wasCrash then Saturated(count + 1) else 0
  }

  function CountIn(record: seq<byte>): nat {
    if |record| <= COUNT_OFF then 0 else Num(record[COUNT_OFF])
  }

  lemma StampKeepsCount(l: Layout, r: seq<byte>, counter: nat)
    requires |r| == SIZE && counter < WRAP
    ensures CountIn(l.Stamped(r, counter)) == CountIn(r)
  {
    StampedFields(l, r, counter);
    assert l.Stamped(r, counter)[COUNT_OFF] == l.Stamped(r, counter)[COUNTER_OFF + 4..SIZE - 4][0];
  }

  class CrashLatch {
    const flash: Flash
    const layout: Layout
    /** The cached record. */
    const cs: array<byte>
    var safeFail: bool

    ghost predicate Valid()
      reads this, flash
    {
      && cs.Length == SIZE == layout.size && layout.a == SLOT_A && layout.b == SLOT_B
      && layout.Fits(flash.mem, flash.script)
    }

    /** The restart count a boot would find on the flash. */
    ghost function StoredCount(): nat
      requires Valid()
      reads this, flash
    {
      CountIn(Content(layout.Current(flash.mem)))
    }

    constructor (device: Flash, crc: seq<byte> -> bv32)
      requires Layout(SLOT_A, SLOT_B, SIZE, crc).Fits(device.mem, device.script)
      ensures Valid() && flash == device && layout.crc == crc && !safeFail && fresh(cs) && cs[..] == seq(SIZE, _ => 0)
    {
      flash := device;
      layout := Layout(SLOT_A, SLOT_B, SIZE, crc);
      cs := new byte[SIZE](_ => 0);
      safeFail := false;
    }

    /** Once per boot. Whatever the store does, safe-fail is decided by the count found on the flash. */
    method BootIncrement(wasCrash: bool) returns (rc: int)
      requires Valid()
      modifies this`safeFail, cs, flash
      ensures Valid()
      ensures safeFail == (NextCount(old(StoredCount()), wasCrash) >= 5)
      ensures Num(cs[COUNT_OFF]) == NextCount(old(StoredCount()), wasCrash)
      ensures StoredCount() == old(StoredCount())
           || StoredCount() == NextCount(old(StoredCount()), wasCrash)
      ensures rc == 0 ==> StoredCount() == NextCount(old(StoredCount()), wasCrash)
      ensures cs[0] == 1 && (rc == 0 ==> Content(layout.Current(flash.mem)) == cs[..])
      ensures old(flash.powered) && AllWork(old(flash.script)) ==> rc == 0 && flash.powered
      ensures AllWork(old(flash.script)) ==> AllWork(flash.script)
      ensures SameElsewhere(old(flash.mem), flash.mem, SLOT_A, SLOT_B)
    {
      var count := LoadCount();
      if wasCrash {
        if count < 0xFF {
          count := count + 1;
        }
      } else {
        count := 0;
      }
      safeFail := count >= THRESHOLD;
      rc := Persist(count);
    }

    /** Fill the cache from the flash, or with a fresh record. */
    method LoadCount() returns (count: nat)
      requires Valid()
      modifies cs
      ensures count == StoredCount() && count <= 0xFF
    {
      var loaded, slot, counter := Load(layout, flash, cs);
      if loaded == 1 {
        forall i | 0 <= i < cs.Length { cs[i] := 0; }
        cs[0] := VERSION;
        cs[COUNT_OFF] := 0;
        return 0;
      }
      assert CountIn(cs[..]) == StoredCount();
      NumBounds(cs[COUNT_OFF]);
      count := Num(cs[COUNT_OFF]);
    }

    /** The charger has been up for a minute: forget the count, unless there is nothing to forget. */
    method ResetAlive() returns (rc: int)
      requires Valid()
      modifies this`safeFail, cs, flash
      ensures Valid()
      ensures old(cs[COUNT_OFF]) == 0 && !old(safeFail) ==>
        rc == 0 && !safeFail && flash.mem == old(flash.mem) && flash.powered == old(flash.powered)
        && flash.script == old(flash.script) && cs[..] == old(cs[..])
      ensures old(cs[COUNT_OFF]) != 0 || old(safeFail) ==>
        && cs[COUNT_OFF] == 0
        && (StoredCount() == old(StoredCount()) || StoredCount() == 0)
        && (rc == 0 ==> StoredCount() == 0 && !safeFail)
        && (rc != 0 ==> safeFail == old(safeFail))
        && (old(flash.powered) && AllWork(old(flash.script)) ==> rc == 0 && flash.powered)
      ensures AllWork(old(flash.script)) ==> AllWork(flash.script)
      ensures SameElsewhere(old(flash.mem), flash.mem, SLOT_A, SLOT_B)
    {
      if cs[COUNT_OFF] == 0 && !safeFail {
        return 0;
      }
      rc := Persist(0);
      if rc == 0 {
        safeFail := false;
      }
    }

    /** Stamp the version and the count into the cached record and store it. */
    method Persist(count: nat) returns (rc: int)
      requires Valid() && count <= 0xFF
      modifies cs, flash
      ensures Valid()
      ensures Num(cs[COUNT_OFF]) == count
      ensures StoredCount() == old(StoredCount()) || StoredCount() == count
      ensures rc == 0 ==> StoredCount() == count && Content(layout.Current(flash.mem)) == cs[..]
      ensures cs[0] == 1
      ensures old(flash.powered) && AllWork(old(flash.script)) ==> rc == 0 && flash.powered
      ensures AllWork(old(flash.script)) ==> AllWork(flash.script)
      ensures SameElsewhere(old(flash.mem), flash.mem, SLOT_A, SLOT_B)
    {
      cs[COUNT_OFF] := Byt(count);
      cs[0] := VERSION;
      NumOfByt(count);
      ghost var given := cs[..];
      StampKeepsCount(layout, given, NextCounter(layout.Current(flash.mem)));
      var slot, counter;
      rc, slot, counter := Store(layout, flash, cs);
      assert cs[0] == cs[..][..4][0] == given[..4][0];
      assert CountIn(cs[..]) == count;
    }
  }

  // ------------------------------------------------------------------ all histories

  /** The last five events are all crash boots. */
  predicate FiveCrashBoots(history: seq<Event>) {
    |history| >= 5
    && forall k :: |history| - 5 <= k < |history| ==> history[k] == Boot(true)
  }

  lemma {:induction false} StreakCountsBack(history: seq<Event>, n: nat)
    ensures Streak(history) >= n <==>
            |history| >= n && forall k :: |history| - n <= k < |history| ==> history[k] == Boot(true)
    decreases n
  {
    if n != 0 && history != [] {
      var shorter := history[..|history| - 1];
      if history[|history| - 1] == Boot(true) {
        StreakCountsBack(shorter, n - 1);
        assert forall k :: 0 <= k < |shorter| ==> shorter[k] == history[k];
      }
    }
  }

  function StreakStep(n: nat, e: Event): nat {
    if e == Boot(true) then n + 1 else 0
  }

  /** Flash, cache and flag all reflect a streak of `n`. */
  ghost predicate Reflects(latch: CrashLatch, n: nat)
    reads latch, latch.cs, latch.flash
  {
    && latch.Valid() && latch.flash.powered && AllWork(latch.flash.script)
    && latch.StoredCount() == Num(latch.cs[COUNT_OFF]) == Saturated(n)
    && latch.safeFail == (n >= 5)
  }

  method Experience(latch: CrashLatch, e: Event, ghost n: nat)
    requires Reflects(latch, n)
    modifies latch`safeFail, latch.cs, latch.flash
    ensures Reflects(latch, StreakStep(n, e))
  {
    match e {
      case Boot(wasCrash) => var rc := latch.BootIncrement(wasCrash);
      case Alive => var rc := latch.ResetAlive();
    }
  }

  /** After each event of a history, whether the last five events were all crash boots. */
  function Verdicts(history: seq<Event>): seq<bool>
    decreases |history|
  {
    if history == [] then [] else Verdicts(history[..|history| - 1]) + [FiveCrashBoots(history)]
  }

  /**
   * Live through a whole history of boots and alive markers, every store succeeding. At every
   * boot the charger is in safe-fail exactly when that boot and at least the four events
   * before it were crash boots, with no deliberate boot and no alive marker among them.
   */
  method LiveThrough(latch: CrashLatch, history: seq<Event>) returns (safeFailAt: seq<bool>)
    requires Reflects(latch, 0)
    modifies latch`safeFail, latch.cs, latch.flash
    ensures Reflects(latch, Streak(history)) && safeFailAt == Verdicts(history)
    decreases |history|
  {
    if history == [] {
      return [];
    }
    var past := history[..|history| - 1];
    safeFailAt := LiveThrough(latch, past);
    StreakCountsBack(history, THRESHOLD);
    Experience(latch, history[|history| - 1], Streak(past));
    safeFailAt := safeFailAt + [latch.safeFail];
  }
}
