/**
 * How a boot finds the head of the event ring again: the slot after the newest record. The
 * newest is the one with the highest boot count, then the highest timestamp, then the highest
 * slot; the timestamps start over at every boot.
 */
module EventRecovery {
  import opened Bytes
  import opened W25q
  import opened EventRing

  // ---------------------------------------------------------------------- keys

  /** `b` is at least as new as `a`: the comparison of the boot-time scan. */
  predicate NotOlder(a: seq<byte>, b: seq<byte>)
    requires |a| == |b| == RECORD
  {
    BootOf(b) > BootOf(a) || (BootOf(b) == BootOf(a) && TimeOf(b) >= TimeOf(a))
  }

  /** Of an earlier boot, or of the same and earlier in it. */
  predicate Older(a: seq<byte>, b: seq<byte>)
    requires |a| == |b| == RECORD
  {
    BootOf(a) < BootOf(b) || (BootOf(a) == BootOf(b) && TimeOf(a) < TimeOf(b))
  }

  predicate Tied(a: seq<byte>, b: seq<byte>)
    requires |a| == |b| == RECORD
  {
    BootOf(a) == BootOf(b) && TimeOf(a) == TimeOf(b)
  }

  lemma ScanCompares(a: seq<byte>, b: seq<byte>)
    requires |a| == |b| == RECORD
    ensures NotOlder(a, b) <==> Older(a, b) || Tied(a, b)
    ensures !NotOlder(a, b) <==> Older(b, a)
  {
  }

  /** No record is of an earlier boot, or of an earlier time of the same boot, than one before it. */
  ghost predicate KeysNeverFall(h: seq<seq<byte>>) {
    && (forall k :: 0 <= k < |h| ==> |h[k]| == RECORD)
    && forall j, k :: 0 <= j < k < |h| ==>
         BootOf(h[j]) < BootOf(h[k]) || (BootOf(h[j]) == BootOf(h[k]) && TimeOf(h[j]) <= TimeOf(h[k]))
  }

  /**
   * Of the last `w` records, those of the very boot and time of the newest stand in slots
   * below it: the ring has not come round among them.
   */
  ghost predicate NoTieAcrossWrap(h: seq<seq<byte>>, w: nat)
    requires forall k :: 0 <= k < |h| ==> |h[k]| == RECORD
  {
    forall j :: 0 <= j < |h| && |h| - j <= w && BootOf(h[j]) == BootOf(h[|h| - 1]) && TimeOf(h[j]) == TimeOf(h[|h| - 1]) ==>
      j % TOTAL <= (|h| - 1) % TOTAL
  }

  /** What recovery needs of a history. */
  ghost predicate KeysOrdered(h: seq<seq<byte>>) {
    KeysNeverFall(h) && NoTieAcrossWrap(h, TOTAL)
  }

  /** A record stamped at a later boot is the newer one, whatever the two timestamps. */
  lemma LaterBootIsNewer(fmt: Format, a: seq<byte>, b: seq<byte>, bootA: nat, bootB: nat)
    requires |a| == |b| == RECORD && bootA < bootB < 0x1_0000 && fmt.NeverBlank()
    ensures var x, y := fmt.Stamped(a, bootA), fmt.Stamped(b, bootB);
      NotOlder(x, y) && !NotOlder(y, x) && Older(x, y)
  {
    fmt.StampedIsValid(a, bootA);
    fmt.StampedIsValid(b, bootB);
  }

  /** Within one boot the later timestamp decides. */
  lemma LaterTimeIsNewer(fmt: Format, a: seq<byte>, b: seq<byte>, boot: nat)
    requires |a| == |b| == RECORD && boot < 0x1_0000 && fmt.NeverBlank()
    ensures var x, y := fmt.Stamped(a, boot), fmt.Stamped(b, boot);
      && (TimeOf(a) < TimeOf(b) ==> NotOlder(x, y) && !NotOlder(y, x) && Older(x, y))
      && (TimeOf(a) == TimeOf(b) ==> NotOlder(x, y) && NotOlder(y, x) && Tied(x, y))
  {
    fmt.StampedIsValid(a, boot);
    fmt.StampedIsValid(b, boot);
  }

  /** The first record of a later boot keeps the order, whatever its timestamp; so does a later one of the same boot. */
  lemma AppendKeepsOrder(fmt: Format, h: seq<seq<byte>>, rec: seq<byte>, boot: nat)
    requires KeysNeverFall(h) && |rec| == RECORD && boot < 0x1_0000 && fmt.NeverBlank()
    requires forall k :: 0 <= k < |h| ==>
      BootOf(h[k]) < boot || (BootOf(h[k]) == boot && TimeOf(h[k]) < TimeOf(rec))
    ensures KeysOrdered(h + [fmt.Stamped(rec, boot)])
  {
    fmt.StampedIsValid(rec, boot);
  }

  // ------------------------------------------------------ logs of many boots

  /** The records of one boot, stamped with its count. */
  function StampedAll(fmt: Format, records: seq<seq<byte>>, boot: nat): (h: seq<seq<byte>>)
    requires boot < 0x1_0000 && forall k :: 0 <= k < |records| ==> |records[k]| == RECORD
    ensures |h| == |records|
  {
    seq(|records|, k requires 0 <= k < |records| => fmt.Stamped(records[k], boot))
  }

  /** Records of given lengths. */
  ghost predicate AllRecords(boots: seq<seq<seq<byte>>>) {
    forall b, k :: 0 <= b < |boots| && 0 <= k < |boots[b]| ==> |boots[b][k]| == RECORD
  }

  /** The history of boots number `first`, `first + 1`, ..., each with the records it appended. */
  function Logged(fmt: Format, first: nat, boots: seq<seq<seq<byte>>>): seq<seq<byte>>
    requires first + |boots| <= 0x1_0000 && AllRecords(boots)
  {
    if boots == [] then []
    else
      var n := |boots| - 1;
      Logged(fmt, first, boots[..n]) + StampedAll(fmt, boots[n], first + n)
  }

  /** Within each boot the timestamps do not fall; nothing relates those of different boots. */
  ghost predicate TimesNeverFall(boots: seq<seq<seq<byte>>>)
    requires AllRecords(boots)
  {
    forall b, j, k :: 0 <= b < |boots| && 0 <= j < k < |boots[b]| ==> TimeOf(boots[b][j]) <= TimeOf(boots[b][k])
  }

  /** The keys of such a log never fall, although the timestamps start over at every boot. */
  lemma {:induction false} BootsKeepOrder(fmt: Format, first: nat, boots: seq<seq<seq<byte>>>)
    requires first + |boots| <= 0x1_0000 && AllRecords(boots) && TimesNeverFall(boots) && fmt.NeverBlank()
    ensures KeysNeverFall(Logged(fmt, first, boots))
    ensures forall k :: 0 <= k < |Logged(fmt, first, boots)| ==> BootOf(Logged(fmt, first, boots)[k]) < first + |boots|
    decreases |boots|
  {
    if boots != [] {
      var n := |boots| - 1;
      EarlierBoots(boots, n);
      BootsKeepOrder(fmt, first, boots[..n]);
      OneBootMore(fmt, Logged(fmt, first, boots[..n]), boots[n], first + n);
    }
  }

  lemma EarlierBoots(boots: seq<seq<seq<byte>>>, n: nat)
    requires n <= |boots| && AllRecords(boots) && TimesNeverFall(boots)
    ensures AllRecords(boots[..n]) && TimesNeverFall(boots[..n])
  {
  }

  lemma OneBootMore(fmt: Format, g: seq<seq<byte>>, records: seq<seq<byte>>, boot: nat)
    requires KeysNeverFall(g) && forall k :: 0 <= k < |g| ==> BootOf(g[k]) < boot
    requires boot < 0x1_0000 && fmt.NeverBlank() && forall k :: 0 <= k < |records| ==> |records[k]| == RECORD
    requires forall j, k :: 0 <= j < k < |records| ==> TimeOf(records[j]) <= TimeOf(records[k])
    ensures KeysNeverFall(g + StampedAll(fmt, records, boot))
    ensures var h := g + StampedAll(fmt, records, boot); forall k :: 0 <= k < |h| ==> BootOf(h[k]) < boot + 1
  {
    StampedKeys(fmt, records, boot);
    JoinKeepsOrder(g, StampedAll(fmt, records, boot), boot);
  }

  lemma StampedKeys(fmt: Format, records: seq<seq<byte>>, boot: nat)
    requires boot < 0x1_0000 && fmt.NeverBlank() && forall k :: 0 <= k < |records| ==> |records[k]| == RECORD
    ensures forall k :: 0 <= k < |records| ==>
      var r := StampedAll(fmt, records, boot)[k]; BootOf(r) == boot && TimeOf(r) == TimeOf(records[k])
  {
    forall k | 0 <= k < |records|
      ensures var r := StampedAll(fmt, records, boot)[k]; BootOf(r) == boot && TimeOf(r) == TimeOf(records[k])
    {
      fmt.StampedIsValid(records[k], boot);
    }
  }

  lemma JoinKeepsOrder(g: seq<seq<byte>>, t: seq<seq<byte>>, boot: nat)
    requires KeysNeverFall(g) && forall k :: 0 <= k < |g| ==> BootOf(g[k]) < boot
    requires forall k :: 0 <= k < |t| ==> |t[k]| == RECORD && BootOf(t[k]) == boot
    requires forall j, k :: 0 <= j < k < |t| ==> TimeOf(t[j]) <= TimeOf(t[k])
    ensures KeysNeverFall(g + t)
    ensures forall k :: 0 <= k < |g + t| ==> BootOf((g + t)[k]) <= boot
  {
  }

  /** If the newest record is the only one of its boot and time, the order is all recovery needs. */
  lemma DistinctTimesAreOrdered(h: seq<seq<byte>>)
    requires KeysNeverFall(h)
    requires forall j :: 0 <= j < |h| - 1 ==> !Tied(h[j], h[|h| - 1])
    ensures KeysOrdered(h)
  {
  }

  // --------------------------------------------------------------- the scan's result

  /** The head that follows the slot of the newest valid record, or 0 if no record is valid. */
  ghost predicate FollowsNewest(m: seq<byte>, fmt: Format, head: nat) {
    && REGION_END <= |m|
    && ((head == 0 && forall i :: 0 <= i < TOTAL ==> !fmt.Valid(Slot(m, i)))
        || exists b: nat :: NewestAt(m, fmt, b) && head == (b + 1) % TOTAL)
  }

  /** Every other valid record is older, or of the same boot and time and in a lower slot. */
  ghost predicate NewestAt(m: seq<byte>, fmt: Format, b: nat)
    requires REGION_END <= |m|
  {
    && b < TOTAL && fmt.Valid(Slot(m, b))
    && forall i :: 0 <= i < TOTAL && i != b && fmt.Valid(Slot(m, i)) ==> Precedes(Slot(m, i), i, Slot(m, b), b)
  }

  predicate Precedes(a: seq<byte>, i: nat, r: seq<byte>, b: nat)
    requires |a| == |r| == RECORD
  {
    Older(a, r) || (Tied(a, r) && i < b)
  }

  /** There is only one such slot. */
  lemma NewestIsUnique(m: seq<byte>, fmt: Format, a: nat, b: nat)
    requires REGION_END <= |m| && NewestAt(m, fmt, a) && NewestAt(m, fmt, b)
    ensures a == b
  {
  }

  // ------------------------------------------------------------------- recovery

  /**
   * A boot can find the place of `h` again: its records are valid and their keys do not
   * fall, no tie with the newest of them is in a higher slot, and what is valid ahead of the
   * head does not hide it either.
   */
  ghost predicate Recoverable(m: seq<byte>, fmt: Format, h: seq<seq<byte>>) {
    && Ring(m, h) && AllValid(fmt, h) && KeysNeverFall(h) && NoTieAcrossWrap(h, Sure(|h|))
    && NoneHides(m, fmt, h)
  }

  /** Whatever is valid ahead of the head precedes the newest record. */
  ghost predicate NoneHides(m: seq<byte>, fmt: Format, h: seq<seq<byte>>)
    requires REGION_END <= |m| && forall k :: 0 <= k < |h| ==> |h[k]| == RECORD
  {
    forall i {:trigger Slot(m, i)} :: 0 <= i < TOTAL && Ahead(|h|, i) && fmt.Valid(Slot(m, i)) ==>
      h != [] && Precedes(Slot(m, i), i, h[|h| - 1], (|h| - 1) % TOTAL)
  }

  /** The slot of the record `i` of the last 8192, from its age. */
  lemma SlotOfAge(n: nat, i: nat)
    requires i < TOTAL && Age(n, i) < n
    ensures (n - 1 - Age(n, i)) % TOTAL == i
  {
    var q, r := n / TOTAL, n % TOTAL;
    AgeIs(n, i);
    if i < r {
      ModIs(n - 1 - Age(n, i), q, i);
    } else {
      ModIs(n - 1 - Age(n, i), q - 1, i);
    }
  }

  /** What is not ahead and valid is a record of the history, and its slot is where it should be. */
  lemma ValidIsHistory(m: seq<byte>, fmt: Format, h: seq<seq<byte>>, i: nat)
    requires Ring(m, h) && AllValid(fmt, h) && i < TOTAL && !Ahead(|h|, i) && fmt.Valid(Slot(m, i))
    ensures var j := |h| - 1 - Age(|h|, i);
      0 <= j && Slot(m, i) == h[j] && j % TOTAL == i && |h| - j <= Sure(|h|)
  {
    assert Slot(m, i) == SlotOf(h, i);
    AheadIsOldest(|h|, i);
    SlotOfAge(|h|, i);
  }

  /** The newest record of a recoverable ring is where the scan finds it. */
  lemma LastIsNewest(m: seq<byte>, fmt: Format, h: seq<seq<byte>>)
    requires Recoverable(m, fmt, h) && h != []
    ensures NewestAt(m, fmt, (|h| - 1) % TOTAL)
  {
    var last := (|h| - 1) % TOTAL;
    NewestSurvive(m, h, 0);
    forall i | 0 <= i < TOTAL && i != last && fmt.Valid(Slot(m, i))
      ensures Precedes(Slot(m, i), i, h[|h| - 1], last)
    {
      if Ahead(|h|, i) {
        AheadPrecedes(m, fmt, h, i);
      } else {
        OthersPrecede(m, fmt, h, i);
      }
    }
  }

  lemma AheadPrecedes(m: seq<byte>, fmt: Format, h: seq<seq<byte>>, i: nat)
    requires Recoverable(m, fmt, h) && h != [] && i < TOTAL && Ahead(|h|, i) && fmt.Valid(Slot(m, i))
    ensures Precedes(Slot(m, i), i, h[|h| - 1], (|h| - 1) % TOTAL)
  {
  }

  lemma OthersPrecede(m: seq<byte>, fmt: Format, h: seq<seq<byte>>, i: nat)
    requires Recoverable(m, fmt, h) && h != [] && i < TOTAL && i != (|h| - 1) % TOTAL
    requires !Ahead(|h|, i) && fmt.Valid(Slot(m, i))
    ensures Precedes(Slot(m, i), i, h[|h| - 1], (|h| - 1) % TOTAL)
  {
    ValidIsHistory(m, fmt, h, i);
  }

  lemma NothingIsThere(m: seq<byte>, fmt: Format, h: seq<seq<byte>>, i: nat)
    requires Recoverable(m, fmt, h) && h == [] && i < TOTAL
    ensures !fmt.Valid(Slot(m, i))
  {
  }

  lemma HeadFollowsLast(n: nat)
    requires n > 0
    ensures ((n - 1) % TOTAL + 1) % TOTAL == n % TOTAL
  {
    HeadAdvances(n - 1);
  }

  /** A scan finds the very head the running system had, before, after and within an append. */
  lemma ScanRecoversHead(m: seq<byte>, fmt: Format, h: seq<seq<byte>>, head: nat)
    requires Recoverable(m, fmt, h) && FollowsNewest(m, fmt, head)
    ensures head == |h| % TOTAL
  {
    if h == [] {
      forall i | 0 <= i < TOTAL ensures !fmt.Valid(Slot(m, i)) {
        NothingIsThere(m, fmt, h, i);
      }
    } else {
      LastIsNewest(m, fmt, h);
      var b: nat :| NewestAt(m, fmt, b) && head == (b + 1) % TOTAL;
      NewestIsUnique(m, fmt, b, (|h| - 1) % TOTAL);
      HeadFollowsLast(|h|);
    }
  }

  /**
   * Exactly when: on a ring of records whose keys do not fall, with nothing ahead that hides
   * them, a boot finds the head if and only if no tie with the newest record stands in a
   * higher slot, that is, unless events of one tick were appended across the wrap.
   */
  lemma RecoversExactly(m: seq<byte>, fmt: Format, h: seq<seq<byte>>, head: nat)
    requires Ring(m, h) && AllValid(fmt, h) && KeysNeverFall(h) && h != [] && NoneHides(m, fmt, h)
    requires FollowsNewest(m, fmt, head)
    ensures head == |h| % TOTAL <==> NoTieAcrossWrap(h, Sure(|h|))
  {
    if NoTieAcrossWrap(h, Sure(|h|)) {
      ScanRecoversHead(m, fmt, h, head);
    } else {
      var j :| 0 <= j < |h| && |h| - j <= Sure(|h|) && BootOf(h[j]) == BootOf(h[|h| - 1])
        && TimeOf(h[j]) == TimeOf(h[|h| - 1]) && !(j % TOTAL <= (|h| - 1) % TOTAL);
      HiddenByTie(m, fmt, h, head, j);
    }
  }

  /** A tie in a higher slot is what the scan takes for the newest. */
  lemma HiddenByTie(m: seq<byte>, fmt: Format, h: seq<seq<byte>>, head: nat, j: nat)
    requires Ring(m, h) && AllValid(fmt, h) && j < |h| && |h| - j <= Sure(|h|)
    requires Tied(h[j], h[|h| - 1]) && j % TOTAL > (|h| - 1) % TOTAL
    requires FollowsNewest(m, fmt, head)
    ensures head != |h| % TOTAL
  {
    var n := |h|;
    TieIsThere(m, fmt, h, j);
    var b: nat :| NewestAt(m, fmt, b) && head == (b + 1) % TOTAL;
    NotTheLast(m, fmt, h, j, b);
    HeadFollowsLast(n);
    NextDiffers(b, (n - 1) % TOTAL);
  }

  lemma TieIsThere(m: seq<byte>, fmt: Format, h: seq<seq<byte>>, j: nat)
    requires Ring(m, h) && AllValid(fmt, h) && j < |h| && |h| - j <= Sure(|h|)
    ensures Slot(m, j % TOTAL) == h[j] && Slot(m, (|h| - 1) % TOTAL) == h[|h| - 1]
    ensures fmt.Valid(h[j])
  {
    NewestSurvive(m, h, |h| - 1 - j);
    NewestSurvive(m, h, 0);
  }

  lemma NotTheLast(m: seq<byte>, fmt: Format, h: seq<seq<byte>>, j: nat, b: nat)
    requires REGION_END <= |m| && j < |h| && forall k :: 0 <= k < |h| ==> |h[k]| == RECORD
    requires Slot(m, j % TOTAL) == h[j] && Slot(m, (|h| - 1) % TOTAL) == h[|h| - 1]
    requires fmt.Valid(h[j]) && Tied(h[j], h[|h| - 1]) && j % TOTAL > (|h| - 1) % TOTAL
    requires NewestAt(m, fmt, b)
    ensures b != (|h| - 1) % TOTAL
  {
  }

  lemma NextDiffers(a: nat, b: nat)
    requires a < TOTAL && b < TOTAL && a != b
    ensures (a + 1) % TOTAL != (b + 1) % TOTAL
  {
  }

  /** A tidy ring with ordered keys is recoverable: what is ahead is blank or old. */
  lemma TidyIsRecoverable(m: seq<byte>, fmt: Format, h: seq<seq<byte>>)
    requires Tidy(m, fmt, h) && KeysOrdered(h)
    ensures Recoverable(m, fmt, h)
  {
    forall i | 0 <= i < TOTAL && Ahead(|h|, i) && fmt.Valid(Slot(m, i))
      ensures h != [] && Precedes(Slot(m, i), i, h[|h| - 1], (|h| - 1) % TOTAL)
    {
      if AheadUsed(m, h) {
        assert Slot(m, i) == SlotOf(h, i);
        SlotOfAge(|h|, i);
        AheadIsNotLast(|h|, i);
      }
    }
  }

  lemma AheadIsNotLast(n: nat, i: nat)
    requires n > 0 && i < TOTAL && Ahead(n, i)
    ensures i != (n - 1) % TOTAL
  {
    AheadIsOldest(n, i);
    AgeIs(n, i);
    HeadAdvances(n - 1);
  }

  /** Torn bytes that hold no valid record, at none of the places where a sector has one. */
  predicate HoldsNoRecord(left: seq<byte>, fmt: Format) {
    |left| == SECTOR && forall r :: 0 <= r < PER_SECTOR ==> !fmt.Valid(left[r * RECORD..r * RECORD + RECORD])
  }

  /** No torn operation leaves a valid record by chance. */
  ghost predicate TornFailsCrc(script: seq<Outcome>, fmt: Format) {
    forall o :: o in script && !o.Works? && o.remnant.Torn? ==> HoldsNoRecord(o.remnant.left, fmt)
  }

  /** An erase at the head, however it ends, leaves a boot able to find the place. */
  lemma EraseKeepsRecoverable(m: seq<byte>, fmt: Format, h: seq<seq<byte>>, t: Remnant)
    requires Recoverable(m, fmt, h) && |h| % PER_SECTOR == 0
    requires t.Torn? ==> HoldsNoRecord(t.left, fmt)
    ensures SectorOf(Addr(|h| % TOTAL)) + SECTOR <= |m|
    ensures Recoverable(Aftermath(m, Erased(m, Addr(|h| % TOTAL)), Addr(|h| % TOTAL), t), fmt, h)
    ensures Recoverable(Erased(m, Addr(|h| % TOTAL)), fmt, h)
  {
    var head := |h| % TOTAL;
    HeadStartsSector(|h|);
    EraseTouchesAhead(m, |h|, t);
    var e := Erased(m, Addr(head));
    var p := Aftermath(m, e, Addr(head), t);
    RingStands(m, e, h);
    RingStands(m, p, h);
    forall i | 0 <= i < TOTAL && Ahead(|h|, i)
      ensures !fmt.Valid(Slot(e, i))
      ensures fmt.Valid(Slot(p, i)) ==> Slot(p, i) == Slot(m, i)
    {
      SlotAfterErase(m, head, t, i);
      if t.Torn? {
        TornSlot(m, head, t.left, i);
      }
    }
  }

  lemma TornSlot(m: seq<byte>, head: nat, left: seq<byte>, i: nat)
    requires REGION_END <= |m| && head < TOTAL && i < TOTAL && head % PER_SECTOR == 0
    requires i / PER_SECTOR == head / PER_SECTOR && |left| == SECTOR
    ensures 0 <= i - head < PER_SECTOR
    ensures Slot(TornIn(m, Addr(head), left), i) == left[(i - head) * RECORD..(i - head) * RECORD + RECORD]
  {
    assert Addr(head) % SECTOR == 0;
    assert SectorOf(Addr(head)) == Addr(head) && Addr(i) == Addr(head) + (i - head) * RECORD;
    assert i - head < PER_SECTOR;
  }

  /** If only the head slot has changed, to something invalid, a boot still finds the old history. */
  lemma JunkKeepsRecoverable(m: seq<byte>, p: seq<byte>, fmt: Format, h: seq<seq<byte>>)
    requires Recoverable(m, fmt, h) && OnlySlotChanged(m, p, |h| % TOTAL) && !fmt.Valid(Slot(p, |h| % TOTAL))
    ensures Recoverable(p, fmt, h)
  {
    HeadIsAhead(m, p, |h|);
    RingStands(m, p, h);
  }

  /** If the head slot has become a valid record that keeps the order, a boot finds it appended. */
  lemma RecoverableGrows(m: seq<byte>, p: seq<byte>, fmt: Format, h: seq<seq<byte>>, rec: seq<byte>)
    requires Recoverable(m, fmt, h) && OnlySlotChanged(m, p, |h| % TOTAL)
    requires |rec| == RECORD && fmt.Valid(rec) && Slot(p, |h| % TOTAL) == rec && KeysOrdered(h + [rec])
    ensures Recoverable(p, fmt, h + [rec])
  {
    RingGrows(m, p, h);
    var e := h + [rec];
    forall i | 0 <= i < TOTAL && Ahead(|e|, i) && fmt.Valid(Slot(p, i))
      ensures Precedes(Slot(p, i), i, rec, |h| % TOTAL)
    {
      NewlyAhead(|h|, i);
      assert Slot(p, i) == Slot(m, i);
      if Ahead(|h|, i) {
        StillPrecedes(h, rec, Slot(m, i), i);
      } else {
        ValidIsHistory(m, fmt, h, i);
        HistoryPrecedes(h, rec, i);
      }
    }
  }

  /** What was ahead, and hid nothing, does not hide the record appended. */
  lemma StillPrecedes(h: seq<seq<byte>>, rec: seq<byte>, s: seq<byte>, i: nat)
    requires h != [] && |s| == |rec| == RECORD && KeysOrdered(h + [rec]) && |h[|h| - 1]| == RECORD
    requires i < TOTAL && Ahead(|h|, i)
    requires Precedes(s, i, h[|h| - 1], (|h| - 1) % TOTAL)
    ensures Older(s, rec)
  {
    var e, n := h + [rec], |h|;
    assert e[n] == rec && e[n - 1] == h[n - 1];
    if Tied(s, h[n - 1]) {
      HeadFollowsLast(n);
      assert n % TOTAL <= i < (n - 1) % TOTAL;
      assert n % TOTAL < (n - 1) % TOTAL;
      assert !Tied(h[n - 1], rec);
    }
  }

  /** A record that comes to be ahead is an old one: older, or a tie in a lower slot. */
  lemma HistoryPrecedes(h: seq<seq<byte>>, rec: seq<byte>, i: nat)
    requires |rec| == RECORD && KeysOrdered(h + [rec]) && i < TOTAL && i != |h| % TOTAL && Age(|h|, i) < |h|
    ensures |h[|h| - 1 - Age(|h|, i)]| == RECORD
    ensures Precedes(h[|h| - 1 - Age(|h|, i)], i, rec, |h| % TOTAL)
  {
    var e, j := h + [rec], |h| - 1 - Age(|h|, i);
    assert e[|h|] == rec && e[j] == h[j];
    SlotOfAge(|h|, i);
    AgeIs(|h|, i);
    assert |e| - j <= TOTAL;
  }

  lemma FirstRecord(left: seq<byte>, fmt: Format)
    requires HoldsNoRecord(left, fmt)
    ensures !fmt.Valid(left[..RECORD])
  {
    assert left[0 * RECORD..0 * RECORD + RECORD] == left[..RECORD];
  }

  /** What a program at the head makes of a recoverable ring. */
  lemma AppendOutcome(m: seq<byte>, p: seq<byte>, fmt: Format, h: seq<seq<byte>>, rec: seq<byte>)
    requires Recoverable(m, fmt, h) && OnlySlotChanged(m, p, |h| % TOTAL) && |rec| == RECORD && fmt.Valid(rec)
    ensures !fmt.Valid(Slot(p, |h| % TOTAL)) ==> Recoverable(p, fmt, h)
    ensures Slot(p, |h| % TOTAL) == rec && KeysOrdered(h + [rec]) ==> Recoverable(p, fmt, h + [rec])
  {
    var s := Slot(p, |h| % TOTAL);
    if s == rec && KeysOrdered(h + [rec]) {
      RecoverableGrows(m, p, fmt, h, rec);
    }
    if !fmt.Valid(s) {
      JunkKeepsRecoverable(m, p, fmt, h);
    }
  }
}
