/**
 * The ring of event records on the flash: 64 sectors of 128 records, written in order. What
 * every slot holds is one formula over the history of what was appended, except for the
 * slots from the head to the end of its sector: those the next appends will write, and a
 * failed or interrupted operation can leave anything there.
 *
 * The argument holds for every 16-bit checksum under which no stamped record is all 0xFF;
 * CRC-16 is such a one (`Crc16NeverBlank` in `BlankRecord`).
 */
module EventRing {
  import opened Bytes
  import opened W25q

  const BASE: nat := 0x004000
  const PER_SECTOR: nat := 128
  const SECTORS: nat := 64
  const TOTAL: nat := 8192
  const RECORD: nat := 32
  const REGION_END: nat := 0x044000

  // ------------------------------------------------------------------ records

  /** The two key fields, as numbers. */
  function TimeOf(rec: seq<byte>): nat
    requires |rec| == RECORD
  {
    Load32(rec[..4])
  }

  function BootOf(rec: seq<byte>): nat
    requires |rec| == RECORD
  {
    Load16(rec[4..6])
  }

  /** How records are checked. */
  datatype Format = Format(crc: seq<byte> -> bv16) {
    predicate Valid(rec: seq<byte>)
      requires |rec| == RECORD
    {
      rec != Blank(RECORD) && Le16(rec[30..]) == crc(rec[..30])
    }

    /** `rec` with its boot count and checksum filled in. */
    function Stamped(rec: seq<byte>, boot: nat): (r: seq<byte>)
      requires |rec| == RECORD && boot < 0x1_0000
      ensures |r| == RECORD
    {
      var t := rec[..4] + Store16(boot) + rec[6..30];
      t + Le16Bytes(crc(t))
    }

    /** No record that carries its right checksum is all 0xFF. */
    predicate NeverBlank() {
      crc(Blank(30)) != 0xFFFF
    }

    lemma StampedIsValid(rec: seq<byte>, boot: nat)
      requires |rec| == RECORD && boot < 0x1_0000 && NeverBlank()
      ensures Valid(Stamped(rec, boot))
      ensures TimeOf(Stamped(rec, boot)) == TimeOf(rec) && BootOf(Stamped(rec, boot)) == boot
      ensures Stamped(rec, boot)[..4] == rec[..4] && Stamped(rec, boot)[6..30] == rec[6..30]
    {
      var r := Stamped(rec, boot);
      assert r[6..30] == rec[6..30];
      assert r[30..] == Le16Bytes(crc(r[..30]));
      Le16LoadsWhatItStored(crc(r[..30]));
      assert Blank(RECORD)[..30] == Blank(30) && Blank(RECORD)[30..] == [0xFF, 0xFF];
      OnesAsHalfWord();
      assert r[..4] == rec[..4] && r[4..6] == Store16(boot);
      Load16OfStore16(boot);
    }
  }

  lemma OnesAsHalfWord()
    ensures Le16([0xFF, 0xFF]) == 0xFFFF
  {
  }

  // -------------------------------------------------------------- the ring formula

  /** How many appends ago slot `i` was the one written; 0 is the newest. */
  function Age(n: nat, i: nat): (d: nat)
    ensures d < TOTAL
  {
    (n - 1 - i) % TOTAL
  }

  /** After `n` appends, slot `i` lies between the head and the end of the head's sector. */
  predicate Ahead(n: nat, i: nat) {
    i / PER_SECTOR == n % TOTAL / PER_SECTOR && i >= n % TOTAL
  }

  /** How many of the newest records nothing can have touched after `n` appends. */
  function Sure(n: nat): (k: nat)
    ensures k <= n && k <= TOTAL
    ensures n < (SECTORS - 1) * PER_SECTOR ==> k == n
    ensures n >= (SECTORS - 1) * PER_SECTOR ==> k >= (SECTORS - 1) * PER_SECTOR
  {
    var most := TOTAL - PER_SECTOR + n % PER_SECTOR;
    if n <= most then n else most
  }

  /** The slot `i` of a ring to which `h` was appended. */
  function SlotOf(h: seq<seq<byte>>, i: nat): seq<byte> {
    if Age(|h|, i) < |h| then h[|h| - 1 - Age(|h|, i)] else Blank(RECORD)
  }

  lemma ModIs(n: nat, q: nat, r: nat)
    requires n == TOTAL * q + r && r < TOTAL
    ensures n % TOTAL == r
  {
  }

  /** The ages fall from the head's own slot round to the slot before it. */
  lemma AgeIs(n: nat, i: nat)
    requires i < TOTAL
    ensures i < n % TOTAL ==> Age(n, i) == n % TOTAL - 1 - i
    ensures i >= n % TOTAL ==> Age(n, i) == TOTAL + n % TOTAL - 1 - i
  {
    var q, r := n / TOTAL, n % TOTAL;
    if i < r {
      ModIs(n - 1 - i, q, r - 1 - i);
    } else if q > 0 {
      ModIs(n - 1 - i, q - 1, TOTAL + r - 1 - i);
    } else {
      assert n == r;
    }
  }

  lemma HeadAdvances(n: nat)
    ensures (n % TOTAL + 1) % TOTAL == (n + 1) % TOTAL
    ensures n % TOTAL % PER_SECTOR == n % PER_SECTOR
  {
    var q, r := n / TOTAL, n % TOTAL;
    if r + 1 < TOTAL {
      ModIs(n + 1, q, r + 1);
    } else {
      ModIs(n + 1, q + 1, 0);
    }
    assert n == PER_SECTOR * (SECTORS * q + r / PER_SECTOR) + r % PER_SECTOR;
  }

  /** The slots ahead are the oldest ones. */
  lemma AheadIsOldest(n: nat, i: nat)
    requires i < TOTAL
    ensures Ahead(n, i) <==> Age(n, i) >= TOTAL - PER_SECTOR + n % PER_SECTOR
  {
    AgeIs(n, i);
    HeadAdvances(n);
    AheadByNumbers(n % TOTAL, i);
  }

  lemma AheadByNumbers(r: nat, i: nat)
    requires r < TOTAL && i < TOTAL
    ensures i >= r && i / PER_SECTOR == r / PER_SECTOR <==>
      i >= r && TOTAL + r - 1 - i >= TOTAL - PER_SECTOR + r % PER_SECTOR
    ensures i < r ==> r - 1 - i < TOTAL - PER_SECTOR + r % PER_SECTOR
  {
    var k := r / PER_SECTOR;
    assert r == PER_SECTOR * k + r % PER_SECTOR && k < SECTORS;
    assert i / PER_SECTOR == k <==> PER_SECTOR * k <= i < PER_SECTOR * k + PER_SECTOR;
  }

  lemma AgeGrows(n: nat, i: nat)
    requires i < TOTAL
    ensures i == n % TOTAL ==> Age(n + 1, i) == 0
    ensures i != n % TOTAL ==> Age(n + 1, i) == Age(n, i) + 1
  {
    AgeIs(n, i);
    AgeIs(n + 1, i);
    HeadAdvances(n);
  }

  /** What is ahead of the head, and is not the head slot itself, stays ahead. */
  lemma StillAhead(n: nat, i: nat)
    requires i < TOTAL && Ahead(n, i) && i != n % TOTAL
    ensures Ahead(n + 1, i)
  {
    HeadAdvances(n);
    SameSector(n % TOTAL, i);
  }

  lemma SameSector(a: nat, i: nat)
    requires a < i && a / PER_SECTOR == i / PER_SECTOR
    ensures (a + 1) / PER_SECTOR == i / PER_SECTOR
  {
  }

  /** Inside a sector, what is ahead after an append was ahead before it, and is not the old head. */
  lemma AheadWithinSector(n: nat, i: nat)
    requires i < TOTAL && Ahead(n + 1, i) && (n + 1) % PER_SECTOR != 0
    ensures Ahead(n, i) && i != n % TOTAL
  {
    HeadAdvances(n);
    HeadAdvances(n + 1);
    PriorInSector(n % TOTAL);
  }

  lemma PriorInSector(a: nat)
    requires a < TOTAL && (a + 1) % TOTAL % PER_SECTOR != 0
    ensures (a + 1) % TOTAL == a + 1 && a / PER_SECTOR == (a + 1) / PER_SECTOR
  {
  }

  // ------------------------------------------------------- slots on the flash

  function Addr(slot: nat): nat {
    BASE + slot * RECORD
  }

  function Slot(m: seq<byte>, i: nat): (s: seq<byte>)
    requires i < TOTAL && REGION_END <= |m|
    ensures |s| == RECORD
  {
    m[Addr(i)..Addr(i) + RECORD]
  }

  /** The ring on the flash is the formula for `h`, wherever it is not ahead. */
  ghost predicate Ring(m: seq<byte>, h: seq<seq<byte>>) {
    && REGION_END <= |m|
    && (forall k :: 0 <= k < |h| ==> |h[k]| == RECORD)
    && forall i {:trigger Slot(m, i)} :: 0 <= i < TOTAL && !Ahead(|h|, i) ==> Slot(m, i) == SlotOf(h, i)
  }

  /** The newest records, at least 63 sectors of them, are in their slots. */
  lemma NewestSurvive(m: seq<byte>, h: seq<seq<byte>>, d: nat)
    requires Ring(m, h) && d < Sure(|h|)
    ensures Slot(m, (|h| - 1 - d) % TOTAL) == h[|h| - 1 - d]
  {
    var i := (|h| - 1 - d) % TOTAL;
    assert Age(|h|, i) == d;
    AheadIsOldest(|h|, i);
  }

  /** Nothing but slots ahead has changed. */
  ghost predicate OnlyAheadChanged(m: seq<byte>, p: seq<byte>, n: nat) {
    && REGION_END <= |m| == |p|
    && forall i {:trigger Slot(p, i)} :: 0 <= i < TOTAL && !Ahead(n, i) ==> Slot(p, i) == Slot(m, i)
  }

  lemma RingStands(m: seq<byte>, p: seq<byte>, h: seq<seq<byte>>)
    requires Ring(m, h) && OnlyAheadChanged(m, p, |h|)
    ensures Ring(p, h)
  {
    forall i | 0 <= i < TOTAL && !Ahead(|h|, i) ensures Slot(p, i) == SlotOf(h, i) {
      assert Slot(p, i) == Slot(m, i);
    }
  }

  /** Nothing but slot `s` has changed. */
  ghost predicate OnlySlotChanged(m: seq<byte>, p: seq<byte>, s: nat) {
    && REGION_END <= |m| == |p|
    && forall i {:trigger Slot(p, i)} :: 0 <= i < TOTAL && i != s ==> Slot(p, i) == Slot(m, i)
  }

  lemma HeadIsAhead(m: seq<byte>, p: seq<byte>, n: nat)
    requires OnlySlotChanged(m, p, n % TOTAL)
    ensures OnlyAheadChanged(m, p, n)
  {
  }

  /** Whatever an append has put into the head slot is the newest entry of the ring. */
  lemma RingGrows(m: seq<byte>, p: seq<byte>, h: seq<seq<byte>>)
    requires Ring(m, h) && OnlySlotChanged(m, p, |h| % TOTAL)
    ensures Ring(p, h + [Slot(p, |h| % TOTAL)])
  {
    var e := h + [Slot(p, |h| % TOTAL)];
    forall i | 0 <= i < TOTAL && !Ahead(|e|, i) ensures Slot(p, i) == SlotOf(e, i) {
      AgeGrows(|h|, i);
      if i != |h| % TOTAL {
        if Ahead(|h|, i) {
          StillAhead(|h|, i);
        }
        assert Slot(p, i) == Slot(m, i) == SlotOf(h, i);
      }
    }
  }

  // --------------------------------------------------- effects of one operation

  lemma SlotAfterErase(m: seq<byte>, head: nat, t: Remnant, i: nat)
    requires REGION_END <= |m| && head < TOTAL && i < TOTAL && head % PER_SECTOR == 0
    ensures SectorOf(Addr(head)) == Addr(head) && Addr(head) + SECTOR <= |m|
    ensures Slot(Erased(m, Addr(head)), i) == if i / PER_SECTOR == head / PER_SECTOR then Blank(RECORD) else Slot(m, i)
    ensures i / PER_SECTOR != head / PER_SECTOR ==>
      Slot(Aftermath(m, Erased(m, Addr(head)), Addr(head), t), i) == Slot(m, i)
  {
    assert Addr(head) % SECTOR == 0;
    if i / PER_SECTOR == head / PER_SECTOR {
      assert Addr(head) <= Addr(i) && Addr(i) + RECORD <= Addr(head) + SECTOR;
    } else {
      assert Addr(i) + RECORD <= Addr(head) || Addr(head) + SECTOR <= Addr(i);
    }
  }

  /** An erase at the head, however it ends, touches only slots ahead. */
  lemma EraseTouchesAhead(m: seq<byte>, n: nat, t: Remnant)
    requires REGION_END <= |m| && n % PER_SECTOR == 0
    ensures var head := n % TOTAL;
      && SectorOf(Addr(head)) == Addr(head) && Addr(head) + SECTOR <= |m|
      && OnlyAheadChanged(m, Erased(m, Addr(head)), n)
      && OnlyAheadChanged(m, Aftermath(m, Erased(m, Addr(head)), Addr(head), t), n)
  {
    var head := n % TOTAL;
    HeadStartsSector(n);
    SlotAfterErase(m, head, t, 0);
    forall i | 0 <= i < TOTAL && !Ahead(n, i)
      ensures Slot(Erased(m, Addr(head)), i) == Slot(m, i)
      ensures Slot(Aftermath(m, Erased(m, Addr(head)), Addr(head), t), i) == Slot(m, i)
    {
      SlotAfterErase(m, head, t, i);
    }
  }

  lemma ErasedIsBlank(m: seq<byte>, n: nat)
    requires REGION_END <= |m| && n % PER_SECTOR == 0
    ensures AheadBlank(Erased(m, Addr(n % TOTAL)), n)
    ensures Slot(Erased(m, Addr(n % TOTAL)), n % TOTAL) == Blank(RECORD)
  {
    HeadStartsSector(n);
    forall i | 0 <= i < TOTAL && Ahead(n, i) ensures Slot(Erased(m, Addr(n % TOTAL)), i) == Blank(RECORD) {
      SlotAfterErase(m, n % TOTAL, Untouched, i);
    }
  }

  lemma HeadStartsSector(n: nat)
    requires n % PER_SECTOR == 0
    ensures n % TOTAL % PER_SECTOR == 0
  {
  }

  /** What programming `rec` onto `s` leaves: a bit once programmed stays so. */
  function Anded(s: seq<byte>, rec: seq<byte>): (r: seq<byte>)
    requires |s| == |rec|
    ensures |r| == |s|
  {
    seq(|s|, k requires 0 <= k < |s| => s[k] & rec[k])
  }

  /** A blank slot keeps every record that is programmed onto it, and no other slot does. */
  lemma OnlyBlankKeepsAll(s: seq<byte>)
    requires |s| == RECORD
    ensures (forall rec: seq<byte> :: |rec| == RECORD ==> Anded(s, rec) == rec) <==> s == Blank(RECORD)
  {
    forall rec: seq<byte> | |rec| == RECORD && s == Blank(RECORD) ensures Anded(s, rec) == rec {
      BlankKeeps(rec);
    }
    OnesShow(s);
  }

  lemma OnesShow(s: seq<byte>)
    requires |s| == RECORD
    ensures Anded(s, Blank(RECORD)) == s
  {
    forall k | 0 <= k < RECORD ensures Anded(s, Blank(RECORD))[k] == s[k] {
      OnesRemain(s[k]);
    }
  }

  lemma OnesRemain(b: byte)
    ensures b & 0xFF == b
  {
  }

  lemma BlankKeeps(rec: seq<byte>)
    requires |rec| == RECORD
    ensures Anded(Blank(RECORD), rec) == rec
  {
    forall k | 0 <= k < RECORD ensures Anded(Blank(RECORD), rec)[k] == rec[k] {
      AndWithOnes(rec[k]);
    }
  }

  /** A program at the head, however it ends, touches only that slot. */
  lemma ProgramTouchesHead(m: seq<byte>, head: nat, rec: seq<byte>, t: Remnant)
    requires REGION_END <= |m| && head < TOTAL && |rec| == RECORD
    ensures InOnePage(Addr(head), RECORD) && Addr(head) + RECORD <= |m|
    ensures OnlySlotChanged(m, Programmed(m, Addr(head), rec), head)
    ensures OnlySlotChanged(m, HalfProgrammed(m, Addr(head), rec, t), head)
    ensures Slot(Programmed(m, Addr(head), rec), head) == Anded(Slot(m, head), rec)
    ensures t.Torn? && |t.left| >= RECORD ==> Slot(HalfProgrammed(m, Addr(head), rec, t), head) == t.left[..RECORD]
  {
    forall i | 0 <= i < TOTAL && i != head
      ensures Slot(Programmed(m, Addr(head), rec), i) == Slot(m, i)
      ensures Slot(HalfProgrammed(m, Addr(head), rec, t), i) == Slot(m, i)
    {
      assert Addr(i) + RECORD <= Addr(head) || Addr(head) + RECORD <= Addr(i);
    }
  }

  lemma RecordInSector(m: seq<byte>, s: nat, r: nat)
    requires REGION_END <= |m| && s < SECTORS && r < PER_SECTOR
    ensures m[BASE + s * SECTOR..BASE + s * SECTOR + SECTOR][r * RECORD..r * RECORD + RECORD] == Slot(m, s * PER_SECTOR + r)
  {
    assert Addr(s * PER_SECTOR + r) == BASE + s * SECTOR + r * RECORD;
    SliceOfSlice(m, BASE + s * SECTOR, BASE + s * SECTOR + SECTOR, r * RECORD, r * RECORD + RECORD);
  }

  lemma SliceOfSlice(m: seq<byte>, lo: nat, hi: nat, a: nat, b: nat)
    requires lo <= hi <= |m| && a <= b <= hi - lo
    ensures m[lo..hi][a..b] == m[lo + a..lo + b]
  {
    var s := m[lo..hi];
    forall k | 0 <= k < b - a ensures s[a..b][k] == m[lo + a..lo + b][k] {
      assert s[a..b][k] == s[a + k] == m[lo + (a + k)];
    }
  }

  ghost predicate AllValid(fmt: Format, h: seq<seq<byte>>) {
    forall k :: 0 <= k < |h| ==> |h[k]| == RECORD && fmt.Valid(h[k])
  }

  // ---------------------------------------------------------------- the walk back

  const FAULT_LOG_CAP: nat := 32

  /** The newest `k` records of a history, newest first. */
  function NewestFirst(h: seq<seq<byte>>, k: nat): (s: seq<seq<byte>>)
    requires k <= |h|
    ensures |s| == k
  {
    seq(k, t requires 0 <= t < k => h[|h| - 1 - t])
  }

  /** The slot met after walking back `i` slots from the head. */
  function Behind(head: nat, i: nat): (s: nat)
    requires i < TOTAL
    ensures s < TOTAL
  {
    (head + TOTAL - 1 - i) % TOTAL
  }

  lemma AgeOfWalk(n: nat, i: nat)
    requires i < TOTAL
    ensures Age(n, Behind(n % TOTAL, i)) == i
  {
  }

  /** The valid records met while walking back `k` slots from the head, newest first. */
  function Walked(m: seq<byte>, fmt: Format, head: nat, k: nat): (s: seq<seq<byte>>)
    requires REGION_END <= |m| && k <= TOTAL
    ensures |s| <= k
  {
    if k == 0 then []
    else
      var rec := Slot(m, Behind(head, k - 1));
      Walked(m, fmt, head, k - 1) + if fmt.Valid(rec) then [rec] else []
  }

  lemma {:induction false} WalkedIsPrefix(m: seq<byte>, fmt: Format, head: nat, j: nat, k: nat)
    requires REGION_END <= |m| && j <= k <= TOTAL
    ensures Walked(m, fmt, head, j) <= Walked(m, fmt, head, k)
    decreases k
  {
    if j < k {
      WalkedIsPrefix(m, fmt, head, j, k - 1);
    }
  }

  /** As far as the ring is sure, the walk meets the history. */
  lemma {:induction false} WalkMeetsHistory(m: seq<byte>, fmt: Format, h: seq<seq<byte>>, k: nat)
    requires Ring(m, h) && AllValid(fmt, h) && k <= Sure(|h|) && k <= TOTAL
    ensures Walked(m, fmt, |h| % TOTAL, k) == NewestFirst(h, k)
    decreases k
  {
    if k > 0 {
      NewestFirstGrows(h, k);
      WalkMeets(m, h, k - 1);
      WalkMeetsHistory(m, fmt, h, k - 1);
    }
  }

  lemma NewestFirstGrows(h: seq<seq<byte>>, k: nat)
    requires 0 < k <= |h|
    ensures NewestFirst(h, k) == NewestFirst(h, k - 1) + [h[|h| - k]]
  {
  }

  lemma WalkMeets(m: seq<byte>, h: seq<seq<byte>>, i: nat)
    requires Ring(m, h) && i < Sure(|h|) && i < TOTAL
    ensures Slot(m, Behind(|h| % TOTAL, i)) == h[|h| - 1 - i]
  {
    var slot := Behind(|h| % TOTAL, i);
    AgeOfWalk(|h|, i);
    AheadIsOldest(|h|, slot);
    assert Slot(m, slot) == SlotOf(h, slot);
  }

  /** Beyond a short history whose slots ahead are blank, the walk meets nothing. */
  lemma {:induction false} WalkMeetsNothing(m: seq<byte>, fmt: Format, h: seq<seq<byte>>, k: nat)
    requires Ring(m, h) && AllValid(fmt, h) && AheadBlank(m, |h|) && |h| == Sure(|h|)
    requires |h| <= k <= TOTAL
    ensures Walked(m, fmt, |h| % TOTAL, k) == NewestFirst(h, |h|)
    decreases k
  {
    if k == |h| {
      WalkMeetsHistory(m, fmt, h, k);
    } else {
      NothingBehind(m, h, k - 1);
      WalkMeetsNothing(m, fmt, h, k - 1);
    }
  }

  lemma NothingBehind(m: seq<byte>, h: seq<seq<byte>>, i: nat)
    requires Ring(m, h) && AheadBlank(m, |h|) && |h| <= i < TOTAL
    ensures Slot(m, Behind(|h| % TOTAL, i)) == Blank(RECORD)
  {
    AgeOfWalk(|h|, i);
  }

  // ------------------------------------------------------------- what is ahead

  ghost predicate AheadBlank(m: seq<byte>, n: nat)
    requires REGION_END <= |m|
  {
    forall i {:trigger Slot(m, i)} :: 0 <= i < TOTAL && Ahead(n, i) ==> Slot(m, i) == Blank(RECORD)
  }

  /** The head has come round to a sector that still holds the oldest records. */
  ghost predicate AheadUsed(m: seq<byte>, h: seq<seq<byte>>)
    requires REGION_END <= |m|
  {
    && |h| % PER_SECTOR == 0 && |h| >= TOTAL
    && forall i {:trigger Slot(m, i)} :: 0 <= i < TOTAL && Ahead(|h|, i) ==> Slot(m, i) == SlotOf(h, i)
  }

  /** No mishap has left a trace: what is ahead is blank, or is the sector to be erased next. */
  ghost predicate Tidy(m: seq<byte>, fmt: Format, h: seq<seq<byte>>) {
    Ring(m, h) && AllValid(fmt, h) && (AheadBlank(m, |h|) || AheadUsed(m, h))
  }

  lemma BlankAheadIsTidy(m: seq<byte>, fmt: Format, h: seq<seq<byte>>)
    requires Ring(m, h) && AllValid(fmt, h) && AheadBlank(m, |h|)
    ensures Tidy(m, fmt, h)
  {
  }

  /** Erased flash is the tidy ring of the empty history. */
  lemma BlankRegionIsTidy(m: seq<byte>, fmt: Format)
    requires REGION_END <= |m| && forall j :: BASE <= j < REGION_END ==> m[j] == 0xFF
    ensures Tidy(m, fmt, [])
  {
    forall i | 0 <= i < TOTAL ensures Slot(m, i) == Blank(RECORD) {
      forall k | 0 <= k < RECORD ensures Slot(m, i)[k] == 0xFF {
        assert BASE <= Addr(i) + k < REGION_END;
      }
    }
  }

  /** Programming a record onto a tidy ring's blank head leaves a tidy ring. */
  lemma TidyGrows(m: seq<byte>, p: seq<byte>, fmt: Format, h: seq<seq<byte>>, rec: seq<byte>)
    requires Ring(m, h) && AllValid(fmt, h) && AheadBlank(m, |h|)
    requires |rec| == RECORD && fmt.Valid(rec)
    requires OnlySlotChanged(m, p, |h| % TOTAL) && Slot(p, |h| % TOTAL) == rec
    ensures Tidy(p, fmt, h + [rec])
  {
    RingGrows(m, p, h);
    var n := |h| + 1;
    if n % PER_SECTOR != 0 {
      forall i | 0 <= i < TOTAL && Ahead(n, i) ensures Slot(p, i) == Blank(RECORD) {
        AheadWithinSector(|h|, i);
      }
    } else if n < TOTAL {
      forall i | 0 <= i < TOTAL && Ahead(n, i) ensures Slot(p, i) == Blank(RECORD) {
        NeverWritten(m, h, i);
      }
    } else {
      forall i | 0 <= i < TOTAL && Ahead(n, i) ensures Slot(p, i) == SlotOf(h + [rec], i) {
        NextSectorIsOld(m, h, rec, i);
      }
    }
  }

  lemma NeverWritten(m: seq<byte>, h: seq<seq<byte>>, i: nat)
    requires Ring(m, h) && i < TOTAL
    requires |h| + 1 < TOTAL && (|h| + 1) % PER_SECTOR == 0 && Ahead(|h| + 1, i)
    ensures i != |h| % TOTAL && Slot(m, i) == Blank(RECORD)
  {
    AheadIsOldest(|h|, i);
    AheadIsOldest(|h| + 1, i);
    AgeGrows(|h|, i);
    assert Slot(m, i) == SlotOf(h, i);
  }

  /** What comes to be ahead with an append is not the slot just written. */
  lemma NewlyAhead(n: nat, i: nat)
    requires i < TOTAL && Ahead(n + 1, i)
    ensures i != n % TOTAL
    ensures (n + 1) % PER_SECTOR == 0 ==> !Ahead(n, i)
  {
    HeadAdvances(n);
    if (n + 1) % PER_SECTOR == 0 {
      HeadAdvances(n + 1);
      LastInSector(n % TOTAL);
    }
  }

  lemma LastInSector(a: nat)
    requires a < TOTAL && (a + 1) % PER_SECTOR == 0
    ensures ((a + 1) % TOTAL) / PER_SECTOR != a / PER_SECTOR
  {
  }

  lemma NextSectorIsOld(m: seq<byte>, h: seq<seq<byte>>, rec: seq<byte>, i: nat)
    requires Ring(m, h) && i < TOTAL
    requires |h| + 1 >= TOTAL && (|h| + 1) % PER_SECTOR == 0 && Ahead(|h| + 1, i)
    ensures i != |h| % TOTAL && Slot(m, i) == SlotOf(h + [rec], i)
  {
    NewlyAhead(|h|, i);
    AgeGrows(|h|, i);
    assert Slot(m, i) == SlotOf(h, i);
    OlderByOne(h, rec, i);
  }

  lemma OlderByOne(h: seq<seq<byte>>, rec: seq<byte>, i: nat)
    requires Age(|h| + 1, i) == Age(|h|, i) + 1 && |h| + 1 >= TOTAL
    ensures SlotOf(h + [rec], i) == SlotOf(h, i)
  {
  }

  lemma AheadComposes(m: seq<byte>, p: seq<byte>, q: seq<byte>, n: nat)
    requires OnlyAheadChanged(m, p, n) && OnlyAheadChanged(p, q, n)
    ensures OnlyAheadChanged(m, q, n)
  {
    forall i | 0 <= i < TOTAL && !Ahead(n, i) ensures Slot(q, i) == Slot(m, i) {
      assert Slot(q, i) == Slot(p, i);
    }
  }

  /** A blank probe of a tidy ring is the whole truth: everything ahead is blank. */
  lemma TidyProbe(m: seq<byte>, fmt: Format, h: seq<seq<byte>>)
    requires Tidy(m, fmt, h) && Slot(m, |h| % TOTAL) == Blank(RECORD)
    ensures AheadBlank(m, |h|)
  {
    if AheadUsed(m, h) {
      OldestAtHead(m, h);
    }
  }

  lemma OldestAtHead(m: seq<byte>, h: seq<seq<byte>>)
    requires REGION_END <= |m| && AheadUsed(m, h)
    ensures Slot(m, |h| % TOTAL) == h[|h| - TOTAL]
  {
    var i := |h| % TOTAL;
    assert Age(|h|, i) == TOTAL - 1;
    assert Ahead(|h|, i);
  }

  /** Away from the start of a sector, what is ahead of a tidy ring is blank. */
  lemma TidyInside(m: seq<byte>, fmt: Format, h: seq<seq<byte>>)
    requires Tidy(m, fmt, h) && |h| % PER_SECTOR != 0
    ensures AheadBlank(m, |h|)
  {
  }
}
