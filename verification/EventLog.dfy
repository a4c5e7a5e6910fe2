/**
 * The fault-event log. The head is never stored; a boot finds it again by looking for the
 * newest record. Every statement holds whatever the device does to the operations, unless
 * it names the fates it is about.
 */
module EventLog {
  import opened Bytes
  import opened W25q
  import opened EventRing
  import opened EventRecovery

  /** Fates under which an operation that does not work changes nothing. */
  ghost predicate Harmless(script: seq<Outcome>) {
    forall o :: o in script && !o.Works? ==> o.remnant.Untouched?
  }

  /** What the head slot holds when a record is programmed onto it: at the start of a sector, a blank slot. */
  function Opened(m: seq<byte>, head: nat): (s: seq<byte>)
    requires REGION_END <= |m| && head < TOTAL
    ensures |s| == RECORD
  {
    if head % PER_SECTOR == 0 then Blank(RECORD) else Slot(m, head)
  }

  /** One program with the fate `o`: its answer, and what it leaves of memory and power. */
  ghost predicate ProgramRan(m: seq<byte>, addr: nat, data: seq<byte>, o: Outcome, p: seq<byte>, power: bool, ok: bool) {
    && p == (if o.Works? then Programmed(m, addr, data) else HalfProgrammed(m, addr, data, o.remnant))
    && power == !o.Cut? && ok == (o.Works? || o.Silent?)
  }

  function Smaller(a: nat, b: nat): (c: nat)
    ensures c <= a && c <= b && (c == a || c == b)
  {
    if a < b then a else b
  }

  class Log {
    const flash: Flash
    const fmt: Format
    var headSlot: nat
    var bootCount: nat
    var initialized: bool
    /** What every append that returned 0 has left in its slot, oldest first. */
    ghost var history: seq<seq<byte>>

    ghost predicate Valid()
      reads this, flash
    {
      && fmt.NeverBlank() && bootCount < 0x1_0000
      && headSlot == |history| % TOTAL && Ring(flash.mem, history)
    }

    /** A boot would find the place of the history, and the record to be appended next lands on a blank slot. */
    ghost predicate Placed()
      requires Valid()
      reads this, flash
    {
      Recoverable(flash.mem, fmt, history) && Opened(flash.mem, headSlot) == Blank(RECORD)
    }

    /** The next append only programs: its slot is inside a sector, or blank. */
    ghost predicate NoEraseDue()
      requires Valid()
      reads this, flash
    {
      headSlot % PER_SECTOR != 0 || Slot(flash.mem, headSlot) == Blank(RECORD)
    }

    constructor (device: Flash, format: Format)
      ensures flash == device && fmt == format && !initialized && headSlot == 0 && bootCount == 0
    {
      flash, fmt := device, format;
      headSlot, bootCount, initialized := 0, 0, false;
    }

    method SetBootCount(n: nat)
      requires n < 0x1_0000
      modifies this`bootCount
      ensures bootCount == n
    {
      bootCount := n;
    }

    /** 1 for a valid record, 0 for a blank slot, -1 for anything else. */
    method Classify(rec: seq<byte>) returns (c: int)
      requires |rec| == RECORD
      ensures c == if rec == Blank(RECORD) then 0 else if fmt.Valid(rec) then 1 else -1
    {
      var allOnes := true;
      for i := 0 to RECORD
        invariant allOnes
        invariant forall j :: 0 <= j < i ==> rec[j] == 0xFF
      {
        if rec[i] != 0xFF {
          allOnes := false;
          break;
        }
      }
      if allOnes {
        assert rec == Blank(RECORD);
        return 0;
      }
      assert rec != Blank(RECORD);
      return if Le16(rec[30..]) == fmt.crc(rec[..30]) then 1 else -1;
    }

    /**
     * Find the head. Whatever is on the flash, it follows the newest valid record: the one of
     * the highest boot count, then timestamp, then slot; and a history whose place a boot can
     * find is resumed.
     */
    method Init(ghost h: seq<seq<byte>>)
      requires REGION_END <= |flash.mem|
      modifies this`headSlot, this`initialized, this`history
      ensures initialized && history == h
      ensures FollowsNewest(flash.mem, fmt, headSlot)
      ensures Recoverable(flash.mem, fmt, h) && fmt.NeverBlank() && bootCount < 0x1_0000 ==> Valid()
    {
      headSlot := Scan();
      initialized := true;
      history := h;
      if Recoverable(flash.mem, fmt, h) {
        ScanRecoversHead(flash.mem, fmt, h, headSlot);
      }
    }

    /** Sector by sector, record by record, keep the newest valid record. */
    method Scan() returns (head: nat)
      requires REGION_END <= |flash.mem|
      ensures FollowsNewest(flash.mem, fmt, head)
    {
      var seen := false;
      var latestSlot: nat := 0;
      var latest := Blank(RECORD);
      for s := 0 to SECTORS
        invariant ScannedTo(s * PER_SECTOR, seen, latestSlot, latest)
      {
        var buf := flash.Read(BASE + s * SECTOR, SECTOR);
        for r := 0 to PER_SECTOR
          invariant ScannedTo(s * PER_SECTOR + r, seen, latestSlot, latest)
        {
          var rec := buf[r * RECORD..r * RECORD + RECORD];
          RecordInSector(flash.mem, s, r);
          seen, latestSlot, latest := Consider(s * PER_SECTOR + r, rec, seen, latestSlot, latest);
        }
      }
      if seen {
        assert NewestAt(flash.mem, fmt, latestSlot);
        return (latestSlot + 1) % TOTAL;
      }
      return 0;
    }

    /** Weigh one record against the newest so far. */
    method Consider(n: nat, rec: seq<byte>, seen: bool, latestSlot: nat, latest: seq<byte>)
      returns (seen': bool, latestSlot': nat, latest': seq<byte>)
      requires REGION_END <= |flash.mem| && n < TOTAL && rec == Slot(flash.mem, n)
      requires ScannedTo(n, seen, latestSlot, latest)
      ensures ScannedTo(n + 1, seen', latestSlot', latest')
    {
      ScanStep(n, seen, latestSlot, latest, rec);
      var c := Classify(rec);
      if c == 1 && (!seen || NotOlder(latest, rec)) {
        return true, n, rec;
      }
      return seen, latestSlot, latest;
    }

    /** Among the first `n` slots, `latestSlot` holds the newest valid record, if there is any. */
    ghost predicate ScannedTo(n: nat, seen: bool, latestSlot: nat, latest: seq<byte>)
      requires REGION_END <= |flash.mem|
      reads this, flash
    {
      && n <= TOTAL && |latest| == RECORD
      && (seen ==> latestSlot < n && latest == Slot(flash.mem, latestSlot) && fmt.Valid(latest))
      && forall i :: 0 <= i < n && fmt.Valid(Slot(flash.mem, i)) ==>
           seen && (i == latestSlot || Precedes(Slot(flash.mem, i), i, latest, latestSlot))
    }

    lemma ScanStep(n: nat, seen: bool, latestSlot: nat, latest: seq<byte>, rec: seq<byte>)
      requires REGION_END <= |flash.mem| && n < TOTAL && rec == Slot(flash.mem, n)
      requires ScannedTo(n, seen, latestSlot, latest)
      ensures fmt.Valid(rec) && (!seen || NotOlder(latest, rec)) ==> ScannedTo(n + 1, true, n, rec)
      ensures !(fmt.Valid(rec) && (!seen || NotOlder(latest, rec))) ==> ScannedTo(n + 1, seen, latestSlot, latest)
    {
      ScanCompares(latest, rec);
      forall i | 0 <= i < n && fmt.Valid(Slot(flash.mem, i)) && NotOlder(latest, rec)
        ensures Precedes(Slot(flash.mem, i), i, rec, n)
      {
        assert i == latestSlot || Precedes(Slot(flash.mem, i), i, latest, latestSlot);
      }
    }

    /**
     * Append a record, stamping its boot count and checksum. Nothing but slots ahead of the
     * head ever changes, and 0 adds to the history whatever the head slot then holds: the
     * record ANDed with what was there. A blank slot, and only a blank one, keeps every
     * record, and from a tidy ring every record that is answered 0 is kept.
     */
    method Append(rec: array<byte>) returns (rc: int)
      requires Valid() && rec.Length == RECORD
      modifies this`headSlot, this`history, flash, rec
      ensures Valid() && OnlyAheadChanged(old(flash.mem), flash.mem, |old(history)|)
      ensures !initialized ==> rc == -1 && flash.mem == old(flash.mem) && rec[..] == old(rec[..])
      ensures initialized ==> rc in {0, -2, -3} && rec[..] == fmt.Stamped(old(rec[..]), bootCount)
      ensures initialized ==> rec[..4] == old(rec[..4]) && rec[6..30] == old(rec[6..30])
      ensures initialized ==> BootOf(rec[..]) == bootCount && fmt.Valid(rec[..])
      ensures history == old(history) + if rc == 0 then [Slot(flash.mem, old(headSlot))] else []
      ensures rc == 0 && Honest(old(flash.script)) ==>
        Slot(flash.mem, old(headSlot)) == Anded(Opened(old(flash.mem), old(headSlot)), rec[..])
      ensures rc == 0 && Honest(old(flash.script)) && old(Tidy(flash.mem, fmt, history)) ==>
        Tidy(flash.mem, fmt, history) && Slot(flash.mem, old(headSlot)) == rec[..] && history == old(history) + [rec[..]]
      ensures rc != 0 && Harmless(old(flash.script)) && old(Tidy(flash.mem, fmt, history)) ==>
        Tidy(flash.mem, fmt, history)
      ensures initialized && old(Placed()) && TornFailsCrc(old(flash.script), fmt) && KeysOrdered(old(history) + [rec[..]]) ==>
        Recoverable(flash.mem, fmt, old(history)) || Recoverable(flash.mem, fmt, old(history) + [rec[..]])
      ensures initialized && old(flash.powered) && old(flash.script) == [] ==>
        rc == 0 && flash.powered && flash.script == []
      ensures initialized && old(flash.powered) && old(NoEraseDue()) ==>
        && flash.script == old(flash.Rest()) && rc != -2
        && ProgramRan(old(flash.mem), Addr(old(headSlot)), rec[..], old(flash.Next()), flash.mem, flash.powered, rc == 0)
    {
      if !initialized {
        return -1;
      }
      var bytes := StampRecord(rec);
      rc := AppendStamped(bytes);
    }

    /** Append a record that has been stamped. */
    method AppendStamped(bytes: seq<byte>) returns (rc: int)
      requires Valid() && |bytes| == RECORD && fmt.Valid(bytes)
      modifies this`headSlot, this`history, flash
      ensures Valid() && OnlyAheadChanged(old(flash.mem), flash.mem, |old(history)|)
      ensures rc in {0, -2, -3}
      ensures history == old(history) + if rc == 0 then [Slot(flash.mem, old(headSlot))] else []
      ensures rc == 0 && Honest(old(flash.script)) ==>
        Slot(flash.mem, old(headSlot)) == Anded(Opened(old(flash.mem), old(headSlot)), bytes)
      ensures rc == 0 && Honest(old(flash.script)) && old(Tidy(flash.mem, fmt, history)) ==>
        Tidy(flash.mem, fmt, history) && Slot(flash.mem, old(headSlot)) == bytes
      ensures rc != 0 && Harmless(old(flash.script)) && old(Tidy(flash.mem, fmt, history)) ==>
        Tidy(flash.mem, fmt, history)
      ensures old(Placed()) && TornFailsCrc(old(flash.script), fmt) && KeysOrdered(old(history) + [bytes]) ==>
        Recoverable(flash.mem, fmt, old(history)) || Recoverable(flash.mem, fmt, old(history) + [bytes])
      ensures old(flash.powered) && old(flash.script) == [] ==> rc == 0 && flash.powered && flash.script == []
      ensures old(flash.powered) && old(NoEraseDue()) ==>
        && flash.script == old(flash.Rest()) && rc != -2
        && ProgramRan(old(flash.mem), Addr(old(headSlot)), bytes, old(flash.Next()), flash.mem, flash.powered, rc == 0)
    {
      ghost var h := history;
      ghost var ready;
      rc, ready := RoomAndProgram(bytes);
      BlankKeeps(bytes);
      if rc != -2 {
        if AllValid(fmt, h) && AheadBlank(ready, |h|) && Slot(flash.mem, |h| % TOTAL) == bytes {
          TidyGrows(ready, flash.mem, fmt, h, bytes);
        }
        if Recoverable(ready, fmt, h) {
          AppendOutcome(ready, flash.mem, fmt, h, bytes);
        }
      }
    }

    /** The two steps of an append, and the flash between them. */
    method RoomAndProgram(bytes: seq<byte>) returns (rc: int, ghost ready: seq<byte>)
      requires Valid() && |bytes| == RECORD && fmt.Valid(bytes)
      modifies this`headSlot, this`history, flash
      ensures Valid() && OnlyAheadChanged(old(flash.mem), flash.mem, |old(history)|)
      ensures rc in {0, -2, -3}
      ensures history == old(history) + if rc == 0 then [Slot(flash.mem, old(headSlot))] else []
      ensures rc != 0 && Harmless(old(flash.script)) && old(Tidy(flash.mem, fmt, history)) ==>
        Tidy(flash.mem, fmt, history)
      ensures rc == -2 && TornFailsCrc(old(flash.script), fmt) && old(Recoverable(flash.mem, fmt, history)) ==>
        Recoverable(flash.mem, fmt, old(history))
      ensures rc != -2 ==>
        && Ring(ready, old(history)) && OnlySlotChanged(ready, flash.mem, old(headSlot))
        && Slot(ready, old(headSlot)) == Opened(old(flash.mem), old(headSlot))
      ensures rc != -2 && old(Tidy(flash.mem, fmt, history)) ==>
        AheadBlank(ready, |old(history)|) && Slot(ready, old(headSlot)) == Blank(RECORD)
      ensures rc != -2 && TornFailsCrc(old(flash.script), fmt) && old(Recoverable(flash.mem, fmt, history)) ==>
        Recoverable(ready, fmt, old(history))
      ensures rc != -2 && TornFailsCrc(old(flash.script), fmt) && Slot(ready, old(headSlot)) == Blank(RECORD) ==>
        Slot(flash.mem, old(headSlot)) == bytes || !fmt.Valid(Slot(flash.mem, old(headSlot)))
      ensures rc == 0 && Honest(old(flash.script)) ==>
        Slot(flash.mem, old(headSlot)) == Anded(Slot(ready, old(headSlot)), bytes)
      ensures old(flash.powered) && old(flash.script) == [] ==> rc == 0 && flash.powered && flash.script == []
      ensures old(flash.powered) && old(NoEraseDue()) ==>
        && flash.script == old(flash.Rest()) && rc != -2
        && ProgramRan(old(flash.mem), Addr(old(headSlot)), bytes, old(flash.Next()), flash.mem, flash.powered, rc == 0)
    {
      ghost var m, h := flash.mem, history;
      rc := OpenHead();
      ready := flash.mem;
      if rc != 0 {
        return;
      }
      rc := ProgramHead(bytes);
      HeadIsAhead(ready, flash.mem, |h|);
      AheadComposes(m, ready, flash.mem, |h|);
      if AllValid(fmt, h) && AheadBlank(ready, |h|) {
        BlankAheadIsTidy(ready, fmt, h);
      }
    }

    /** Make room at the start of a sector; elsewhere there is nothing to do. */
    method OpenHead() returns (rc: int)
      requires Valid()
      modifies flash
      ensures rc == 0 || rc == -2
      ensures Valid() && OnlyAheadChanged(old(flash.mem), flash.mem, |history|)
      ensures forall o :: o in flash.script ==> o in old(flash.script)
      ensures rc == 0 ==> Slot(flash.mem, headSlot) == Opened(old(flash.mem), headSlot)
      ensures rc == 0 && old(Tidy(flash.mem, fmt, history)) ==>
        AheadBlank(flash.mem, |history|) && Slot(flash.mem, headSlot) == Blank(RECORD)
      ensures rc != 0 && Harmless(old(flash.script)) ==> flash.mem == old(flash.mem)
      ensures TornFailsCrc(old(flash.script), fmt) && old(Recoverable(flash.mem, fmt, history)) ==>
        Recoverable(flash.mem, fmt, history)
      ensures old(flash.powered) && old(flash.script) == [] ==> rc == 0 && flash.powered && flash.script == []
      ensures old(NoEraseDue()) ==> rc == 0 && unchanged(flash)
    {
      HeadAdvances(|history|);
      if headSlot % PER_SECTOR == 0 {
        rc := MakeRoom();
      } else {
        if Tidy(flash.mem, fmt, history) {
          TidyInside(flash.mem, fmt, history);
          assert Ahead(|history|, headSlot);
        }
        rc := 0;
      }
    }

    /** At the first slot of a sector: erase the sector unless that slot is blank. */
    method MakeRoom() returns (rc: int)
      requires Valid() && headSlot % PER_SECTOR == 0
      modifies flash
      ensures rc == 0 || rc == -2
      ensures Valid() && OnlyAheadChanged(old(flash.mem), flash.mem, |history|)
      ensures forall o :: o in flash.script ==> o in old(flash.script)
      ensures rc == 0 ==> Slot(flash.mem, headSlot) == Blank(RECORD)
      ensures rc == 0 && old(Tidy(flash.mem, fmt, history)) ==> AheadBlank(flash.mem, |history|)
      ensures rc != 0 && Harmless(old(flash.script)) ==> flash.mem == old(flash.mem)
      ensures TornFailsCrc(old(flash.script), fmt) && old(Recoverable(flash.mem, fmt, history)) ==>
        Recoverable(flash.mem, fmt, history)
      ensures old(flash.powered) && old(flash.script) == [] ==> rc == 0 && flash.powered && flash.script == []
      ensures old(NoEraseDue()) ==> rc == 0 && unchanged(flash)
    {
      var blank := HeadIsErased();
      if blank {
        if Tidy(flash.mem, fmt, history) {
          TidyProbe(flash.mem, fmt, history);
        }
        return 0;
      }
      rc := EraseHead();
      return if rc != 0 then -2 else 0;
    }

    /** Erase the sector at whose first slot the head stands. */
    method EraseHead() returns (rc: int)
      requires Valid() && headSlot % PER_SECTOR == 0
      modifies flash
      ensures Valid() && OnlyAheadChanged(old(flash.mem), flash.mem, |history|)
      ensures forall o :: o in flash.script ==> o in old(flash.script)
      ensures rc == 0 ==> AheadBlank(flash.mem, |history|) && Slot(flash.mem, headSlot) == Blank(RECORD)
      ensures rc != 0 && Harmless(old(flash.script)) ==> flash.mem == old(flash.mem)
      ensures TornFailsCrc(old(flash.script), fmt) && old(Recoverable(flash.mem, fmt, history)) ==>
        Recoverable(flash.mem, fmt, history)
      ensures old(flash.powered) && old(flash.script) == [] ==> rc == 0 && flash.powered && flash.script == []
    {
      ghost var m, t := flash.mem, if flash.Next().Works? then Finished else flash.Next().remnant;
      HeadAdvances(|history|);
      EraseTouchesAhead(m, |history|, t);
      if Recoverable(m, fmt, history) && TornFailsCrc(flash.script, fmt) {
        EraseKeepsRecoverable(m, fmt, history, t);
      }
      rc := flash.EraseSector(Addr(headSlot));
      RingStands(m, flash.mem, history);
      if rc == 0 {
        ErasedIsBlank(m, |history|);
      }
    }

    /** Program a stamped record into the head slot and advance the head. */
    method ProgramHead(bytes: seq<byte>) returns (rc: int)
      requires Valid() && |bytes| == RECORD && fmt.Valid(bytes)
      modifies this`headSlot, this`history, flash
      ensures rc == 0 || rc == -3
      ensures Valid() && OnlySlotChanged(old(flash.mem), flash.mem, old(headSlot))
      ensures history == old(history) + if rc == 0 then [Slot(flash.mem, old(headSlot))] else []
      ensures rc == 0 && Honest(old(flash.script)) ==>
        Slot(flash.mem, old(headSlot)) == Anded(Slot(old(flash.mem), old(headSlot)), bytes)
      ensures rc != 0 && Harmless(old(flash.script)) ==> flash.mem == old(flash.mem)
      ensures TornFailsCrc(old(flash.script), fmt) && Slot(old(flash.mem), old(headSlot)) == Blank(RECORD) ==>
        Slot(flash.mem, old(headSlot)) == bytes || !fmt.Valid(Slot(flash.mem, old(headSlot)))
      ensures old(flash.powered) && old(flash.script) == [] ==> rc == 0 && flash.powered && flash.script == []
      ensures old(flash.powered) ==>
        && flash.script == old(flash.Rest())
        && ProgramRan(old(flash.mem), Addr(old(headSlot)), bytes, old(flash.Next()), flash.mem, flash.powered, rc == 0)
    {
      ghost var m := flash.mem;
      var programmed := ProgramSlot(bytes);
      HeadIsAhead(m, flash.mem, |history|);
      RingStands(m, flash.mem, history);
      if programmed != 0 {
        return -3;
      }
      RingGrows(m, flash.mem, history);
      HeadAdvances(|history|);
      history := history + [Slot(flash.mem, headSlot)];
      headSlot := (headSlot + 1) % TOTAL;
      return 0;
    }

    /** The head slot after the program, for every fate of it. */
    method ProgramSlot(bytes: seq<byte>) returns (rc: int)
      requires REGION_END <= |flash.mem| && headSlot < TOTAL && |bytes| == RECORD
      modifies flash
      ensures OnlySlotChanged(old(flash.mem), flash.mem, headSlot)
      ensures rc == 0 && Honest(old(flash.script)) ==>
        Slot(flash.mem, headSlot) == Anded(Slot(old(flash.mem), headSlot), bytes)
      ensures rc != 0 && Harmless(old(flash.script)) ==> flash.mem == old(flash.mem)
      ensures TornFailsCrc(old(flash.script), fmt) && Slot(old(flash.mem), headSlot) == Blank(RECORD) ==>
        Slot(flash.mem, headSlot) == bytes || !fmt.Valid(Slot(flash.mem, headSlot))
      ensures old(flash.powered) && old(flash.script) == [] ==> rc == 0 && flash.powered && flash.script == []
      ensures old(flash.powered) ==>
        && flash.script == old(flash.Rest())
        && ProgramRan(old(flash.mem), Addr(old(headSlot)), bytes, old(flash.Next()), flash.mem, flash.powered, rc == 0)
    {
      ghost var m, t := flash.mem, if flash.Next().Works? then Finished else flash.Next().remnant;
      ProgramTouchesHead(m, headSlot, bytes, t);
      if Slot(m, headSlot) == Blank(RECORD) {
        BlankKeeps(bytes);
      }
      if t.Torn? && TornFailsCrc(flash.script, fmt) {
        FirstRecord(t.left, fmt);
      }
      rc := flash.Program(Addr(headSlot), bytes);
    }

    method StampRecord(rec: array<byte>) returns (bytes: seq<byte>)
      requires rec.Length == RECORD && bootCount < 0x1_0000 && fmt.NeverBlank()
      modifies rec
      ensures rec[..] == bytes == fmt.Stamped(old(rec[..]), bootCount) && fmt.Valid(bytes)
      ensures rec[..4] == old(rec[..4]) && rec[6..30] == old(rec[6..30]) && BootOf(rec[..]) == bootCount
    {
      fmt.StampedIsValid(rec[..], bootCount);
      ghost var was := rec[..];
      var boot := Store16(bootCount);
      rec[4], rec[5] := boot[0], boot[1];
      assert rec[..30] == old(rec[..4]) + boot + old(rec[6..30]);
      var crc := Le16Bytes(fmt.crc(rec[..30]));
      ghost var t := rec[..30];
      rec[30], rec[31] := crc[0], crc[1];
      assert rec[..30] == t;
      bytes := rec[..];
      assert rec[..4] == bytes[..4] == was[..4] && rec[6..30] == bytes[6..30] == was[6..30];
    }

    /** 0 and a valid record, 1 and whatever else the slot holds, -1 beyond the end. */
    method ReadNth(n: nat) returns (rc: int, rec: seq<byte>)
      requires REGION_END <= |flash.mem|
      ensures n >= TOTAL ==> rc == -1
      ensures n < TOTAL ==> rec == Slot(flash.mem, n) && rc == if fmt.Valid(rec) then 0 else 1
    {
      if n >= TOTAL {
        return -1, [];
      }
      rec := flash.Read(Addr(n), RECORD);
      var c := Classify(rec);
      rc := if c == 1 then 0 else 1;
    }

    /**
     * Answer a request for the fault log: walk the ring backwards from the head and emit
     * valid records, newest first, up to the clamped request.
     */
    method GetFaultLog(maxCount: nat) returns (entries: seq<seq<byte>>, cap: nat)
      requires Valid()
      ensures 1 <= cap <= 32 && (maxCount == 0 ==> cap == 1) && (1 <= maxCount <= 32 ==> cap == maxCount)
        && (maxCount > 32 ==> cap == 32)
      ensures var all := Walked(flash.mem, fmt, headSlot, TOTAL); entries == all[..Smaller(cap, |all|)]
      ensures AllValid(fmt, history) ==> NewestFirst(history, Smaller(cap, |history|)) <= entries
      ensures Tidy(flash.mem, fmt, history) ==> entries == NewestFirst(history, Smaller(cap, |history|))
    {
      cap := maxCount;
      if cap == 0 {
        cap := 1;
      }
      if cap > FAULT_LOG_CAP {
        cap := FAULT_LOG_CAP;
      }
      ghost var i;
      entries, i := WalkBack(cap);
      WalkedIsPrefix(flash.mem, fmt, headSlot, i, TOTAL);
      if AllValid(fmt, history) {
        AnswerMeetsHistory(i, cap);
      }
    }

    /** Walk back until there are `cap` entries or the ring is through. */
    method WalkBack(cap: nat) returns (entries: seq<seq<byte>>, ghost walked: nat)
      requires REGION_END <= |flash.mem|
      ensures walked <= TOTAL && entries == Walked(flash.mem, fmt, headSlot, walked)
      ensures |entries| == cap || (walked == TOTAL && |entries| <= cap)
    {
      entries := [];
      var i := 0;
      while i < TOTAL && |entries| < cap
        invariant 0 <= i <= TOTAL
        invariant entries == Walked(flash.mem, fmt, headSlot, i)
        invariant |entries| <= cap
      {
        var rc, rec := ReadNth((headSlot + TOTAL - 1 - i) % TOTAL);
        if rc == 0 {
          entries := entries + [rec];
        }
        i := i + 1;
      }
      walked := i;
    }

    /** A walk that has gone far enough has met the newest records. */
    lemma AnswerMeetsHistory(i: nat, cap: nat)
      requires Valid() && AllValid(fmt, history) && i <= TOTAL && cap <= FAULT_LOG_CAP
      requires var w := Walked(flash.mem, fmt, headSlot, i); |w| == cap || (i == TOTAL && |w| <= cap)
      ensures NewestFirst(history, Smaller(cap, |history|)) <= Walked(flash.mem, fmt, headSlot, i)
      ensures Tidy(flash.mem, fmt, history) ==>
        Walked(flash.mem, fmt, headSlot, i) == NewestFirst(history, Smaller(cap, |history|))
    {
      var k := Smaller(cap, |history|);
      WalkMeetsHistory(flash.mem, fmt, history, k);
      WalkedIsPrefix(flash.mem, fmt, headSlot, k, i);
      if cap > |history| && Tidy(flash.mem, fmt, history) && i >= |history| {
        WalkMeetsNothing(flash.mem, fmt, history, i);
      }
    }

    method HeadIsErased() returns (blank: bool)
      requires REGION_END <= |flash.mem| && headSlot < TOTAL
      ensures blank == (Slot(flash.mem, headSlot) == Blank(RECORD))
    {
      var probe := flash.Read(Addr(headSlot), RECORD);
      for i := 0 to RECORD
        invariant forall j :: 0 <= j < i ==> probe[j] == 0xFF
      {
        if probe[i] != 0xFF {
          return false;
        }
      }
      assert probe == Blank(RECORD);
      return true;
    }
  }

  /**
   * Append a record under any fate of the erase and of the program, lose power or not, and
   * boot: the log resumes with the old history or with the record appended.
   */
  method AppendThenReboot(log: Log, rec: array<byte>) returns (next: Log)
    requires log.Valid() && log.Placed() && log.initialized && rec.Length == RECORD
    requires TornFailsCrc(log.flash.script, log.fmt)
    requires KeysOrdered(log.history + [log.fmt.Stamped(rec[..], log.bootCount)])
    modifies log, log.flash, rec
    ensures next.Valid() && next.flash == log.flash && next.flash.powered && next.initialized
    ensures next.history == old(log.history) || next.history == old(log.history) + [rec[..]]
    ensures Recoverable(next.flash.mem, next.fmt, next.history)
  {
    ghost var h := log.history;
    var rc := log.Append(rec);
    log.flash.PowerUp();
    next := BootAgain(log.flash, log.fmt, h, rec[..]);
  }

  /** A boot on a flash on which one of two histories can be found. */
  method BootAgain(flash: Flash, fmt: Format, ghost h: seq<seq<byte>>, ghost rec: seq<byte>) returns (next: Log)
    requires fmt.NeverBlank()
    requires Recoverable(flash.mem, fmt, h) || Recoverable(flash.mem, fmt, h + [rec])
    ensures fresh(next) && next.Valid() && next.flash == flash && next.fmt == fmt && next.initialized
    ensures next.history == h || next.history == h + [rec]
    ensures Recoverable(flash.mem, fmt, next.history)
  {
    next := new Log(flash, fmt);
    next.Init(if Recoverable(flash.mem, fmt, h) then h else h + [rec]);
  }

  /**
   * An error of the device may come after the record was programmed. The head stays, so the
   * next append programs onto it: it returns 0, but the record that is then in the log is the
   * two records ANDed. Timestamps 0 and 1 are enough for that to be neither.
   */
  method RetryLosesRecord(log: Log, first: array<byte>, second: array<byte>) returns (a: int, b: int)
    requires log.Valid() && log.initialized && log.flash.powered
    requires log.flash.script == [Fails(Finished)]
    requires log.headSlot % PER_SECTOR != 0 && Slot(log.flash.mem, log.headSlot) == Blank(RECORD)
    requires first != second && first.Length == second.Length == RECORD && first[0] == 0 && second[0] == 1
    modifies log, log.flash, first, second
    ensures a == -3 && b == 0
    ensures log.history == old(log.history) + [Anded(first[..], second[..])]
    ensures Anded(first[..], second[..]) != second[..]
  {
    a := AppendUnreported(log, first);
    b := AppendOnto(log, second);
    SpoilsOther(first[..], second[..]);
  }

  /** The record is programmed, the append answers -3, and the head stays. */
  method AppendUnreported(log: Log, rec: array<byte>) returns (rc: int)
    requires log.Valid() && log.initialized && log.flash.powered && rec.Length == RECORD
    requires log.flash.script == [Fails(Finished)]
    requires log.headSlot % PER_SECTOR != 0 && Slot(log.flash.mem, log.headSlot) == Blank(RECORD)
    modifies log, log.flash, rec
    ensures log.Valid() && log.initialized && log.flash.powered && log.flash.script == []
    ensures rc == -3 && rec[0] == old(rec[0]) && log.history == old(log.history)
    ensures log.headSlot == old(log.headSlot) && Slot(log.flash.mem, log.headSlot) == rec[..]
  {
    ghost var m, head, stamped := log.flash.mem, log.headSlot, log.fmt.Stamped(rec[..], log.bootCount);
    StampKeepsStart(log.fmt, rec[..], log.bootCount);
    FinishedStays(m, head, stamped);
    rc := log.Append(rec);
    assert rec[..][0] == stamped[0];
  }

  /** An append answered by a working device, inside a sector: what the slot held stays in it. */
  method AppendOnto(log: Log, rec: array<byte>) returns (rc: int)
    requires log.Valid() && log.initialized && log.flash.powered && rec.Length == RECORD
    requires log.flash.script == [] && log.headSlot % PER_SECTOR != 0
    modifies log, log.flash, rec
    ensures rc == 0 && rec[0] == old(rec[0])
    ensures log.history == old(log.history) + [Anded(old(Slot(log.flash.mem, log.headSlot)), rec[..])]
  {
    ghost var stamped := log.fmt.Stamped(rec[..], log.bootCount);
    StampKeepsStart(log.fmt, rec[..], log.bootCount);
    rc := log.Append(rec);
    assert rec[..][0] == stamped[0];
  }

  /**
   * An erase cut short or answered by an error may have cleared the first record of the
   * sector and not the second. The probe then finds the sector blank, and of two appends that
   * both return 0 the second is spoilt by what was left.
   */
  method BlankProbeMisleads(log: Log, first: array<byte>, second: array<byte>) returns (a: int, b: int)
    requires log.Valid() && log.initialized && log.flash.powered && log.flash.script == []
    requires log.headSlot % PER_SECTOR == 0 && Slot(log.flash.mem, log.headSlot) == Blank(RECORD)
    requires Slot(log.flash.mem, log.headSlot + 1)[0] == 0
    requires first != second && first.Length == second.Length == RECORD && second[0] == 1
    modifies log, log.flash, first, second
    ensures a == 0 && b == 0 && |log.history| == |old(log.history)| + 2
    ensures log.history[|log.history| - 1] != second[..]
  {
    ghost var m, n := log.flash.mem, |log.history|;
    a := AppendAtBlankStart(log, first);
    BlankStartOutcome(m, n, first[..]);
    b := AppendOnto(log, second);
    SpoilsOther(Slot(m, n % TOTAL + 1), second[..]);
  }

  /** A torn erase reaches such a state. */
  lemma TornEraseHides(m: seq<byte>, head: nat, left: seq<byte>)
    requires REGION_END <= |m| && head < TOTAL && head % PER_SECTOR == 0
    requires |left| == SECTOR && left[..RECORD] == Blank(RECORD) && left[RECORD] == 0
    ensures head + 1 < TOTAL
    ensures var p := Aftermath(m, Erased(m, Addr(head)), Addr(head), Torn(left));
      Slot(p, head) == Blank(RECORD) && Slot(p, head + 1)[0] == 0
  {
    NextSlot(head, head);
    TornSlot(m, head, left, head);
    TornSlot(m, head, left, head + 1);
    assert left[RECORD..RECORD + RECORD][0] == left[RECORD];
  }

  /** The first append in a sector whose first slot is blank erases nothing. */
  method AppendAtBlankStart(log: Log, rec: array<byte>) returns (rc: int)
    requires log.Valid() && log.initialized && log.flash.powered && log.flash.script == [] && rec.Length == RECORD
    requires log.headSlot % PER_SECTOR == 0 && Slot(log.flash.mem, log.headSlot) == Blank(RECORD)
    modifies log, log.flash, rec
    ensures log.Valid() && log.initialized && log.flash.powered && log.flash.script == []
    ensures rc == 0 && |log.history| == |old(log.history)| + 1
    ensures log.flash.mem == Programmed(old(log.flash.mem), Addr(old(log.headSlot)), rec[..])
  {
    rc := log.Append(rec);
  }

  lemma BlankStartOutcome(m: seq<byte>, n: nat, rec: seq<byte>)
    requires REGION_END <= |m| && n % TOTAL % PER_SECTOR == 0 && |rec| == RECORD
    ensures (n + 1) % TOTAL == n % TOTAL + 1 < TOTAL
    ensures Slot(Programmed(m, Addr(n % TOTAL), rec), n % TOTAL + 1) == Slot(m, n % TOTAL + 1)
  {
    NextSlot(n % TOTAL, n);
    NextStands(m, n % TOTAL, rec);
  }

  lemma NextStands(m: seq<byte>, head: nat, rec: seq<byte>)
    requires REGION_END <= |m| && head + 1 < TOTAL && |rec| == RECORD
    ensures Slot(Programmed(m, Addr(head), rec), head + 1) == Slot(m, head + 1)
  {
    ProgramTouchesHead(m, head, rec, Finished);
  }

  lemma NextSlot(head: nat, n: nat)
    requires head == n % TOTAL && head % PER_SECTOR == 0
    ensures head + 1 < TOTAL && (head + 1) % PER_SECTOR != 0 && (n + 1) % TOTAL == head + 1
  {
  }

  lemma StampKeepsStart(fmt: Format, rec: seq<byte>, boot: nat)
    requires |rec| == RECORD && boot < 0x1_0000
    ensures fmt.Stamped(rec, boot)[0] == rec[0]
  {
  }

  lemma FinishedStays(m: seq<byte>, head: nat, rec: seq<byte>)
    requires REGION_END <= |m| && head < TOTAL && |rec| == RECORD && Slot(m, head) == Blank(RECORD)
    ensures Slot(HalfProgrammed(m, Addr(head), rec, Finished), head) == rec
  {
    BlankKeeps(rec);
    ProgramTouchesHead(m, head, rec, Finished);
  }

  lemma SpoilsOther(a: seq<byte>, b: seq<byte>)
    requires |a| == |b| == RECORD && a[0] == 0 && b[0] == 1
    ensures Anded(a, b) != b
  {
    AndWithZero(b[0]);
    assert Anded(a, b)[0] == 0;
  }

  lemma AndWithZero(b: byte)
    ensures 0 & b == 0
  {
  }
}
