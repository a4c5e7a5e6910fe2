/**
 * Two-slot records on NOR flash. A store writes the slot that is not current and only
 * then erases the current one, so whatever interrupts it, a later load finds either the
 * record that was current before the store or the one being stored.
 *
 * The argument needs one fact about the checksum, that it rejects an erased slot, and so
 * it is made for every checksum with that property; CRC-32 has it for every legal size.
 */
module PingPong {
  import opened Bytes
  import opened Fold
  import opened Crc
  import opened W25q
  import BlankCrc

  const COUNTER_OFF: nat := 4
  const WRAP: nat := 0x1_0000_0000

  /** What a load finds: nothing, or the record of the newer valid slot. */
  datatype Found = Nothing | Record(slot: nat, bytes: seq<byte>)

  /** The record itself, whichever slot holds it. */
  function Content(f: Found): seq<byte> {
    if f.Nothing? then [] else f.bytes
  }

  predicate SizeOk(size: nat) {
    12 <= size <= 256
  }

  /** The counter field, an unsigned 32-bit number. */
  function Counter(s: seq<byte>): (n: nat)
    requires |s| >= 12
    ensures n < WRAP
  {
    Load32Bounded(s[COUNTER_OFF..COUNTER_OFF + 4]);
    Load32(s[COUNTER_OFF..COUNTER_OFF + 4])
  }

  /** The counter a store stamps on its record. */
  function NextCounter(f: Found): (n: nat)
    requires f.Record? ==> |f.bytes| >= 12
    ensures n < WRAP
  {
    if f.Nothing? then 1 else (Counter(f.bytes) + 1) % WRAP
  }

  function WithCounter(r: seq<byte>, counter: nat): (s: seq<byte>)
    requires |r| >= 12 && counter < WRAP
    ensures |s| == |r|
  {
    r[..COUNTER_OFF] + Store32(counter) + r[COUNTER_OFF + 4..]
  }

  function SlotAt(m: seq<byte>, addr: nat, size: nat): (s: seq<byte>)
    requires addr + size <= |m|
    ensures |s| == size
  {
    m[addr..addr + size]
  }

  /** Two distinct aligned sectors inside the device. */
  predicate TwoSectors(m: seq<byte>, a: nat, b: nat) {
    && SectorOf(a) == a && SectorOf(b) == b
    && (a + SECTOR <= b || b + SECTOR <= a)
    && a + SECTOR <= |m| && b + SECTOR <= |m|
  }

  /** The two images differ at most inside the two sectors. */
  ghost predicate SameElsewhere(m: seq<byte>, n: seq<byte>, a: nat, b: nat) {
    |m| == |n| && forall i :: 0 <= i < |m| && !(a <= i < a + SECTOR) && !(b <= i < b + SECTOR) ==> n[i] == m[i]
  }

  /** Where a record lives, how long it is, and how it is checked. */
  datatype Layout = Layout(a: nat, b: nat, size: nat, crc: seq<byte> -> bv32) {

    /** The last four bytes are the checksum of all before them. */
    predicate Valid(s: seq<byte>)
      requires |s| >= 12
    {
      Le32(s[|s| - 4..]) == crc(s[..|s| - 4])
    }

    predicate RejectsBlank() {
      SizeOk(size) ==> !Valid(Blank(size))
    }

    /** The slot with the higher counter among the valid ones; slot A on a tie. */
    function Newer(sa: seq<byte>, sb: seq<byte>): (f: Found)
      requires |sa| == |sb| >= 12
      ensures f.Record? ==> f.slot <= 1 && f.bytes == (if f.slot == 0 then sa else sb) && Valid(f.bytes)
      ensures f.Nothing? <==> !Valid(sa) && !Valid(sb)
    {
      if Valid(sa) && (!Valid(sb) || Counter(sa) >= Counter(sb)) then Record(0, sa)
      else if Valid(sb) then Record(1, sb)
      else Nothing
    }

    function Current(m: seq<byte>): (f: Found)
      requires SizeOk(size) && a + size <= |m| && b + size <= |m|
      ensures f.Record? ==> f.slot <= 1 && |f.bytes| == size && Valid(f.bytes)
    {
      Newer(SlotAt(m, a, size), SlotAt(m, b, size))
    }

    /** `r` with its counter and checksum fields filled in; every other byte is the caller's. */
    function Stamped(r: seq<byte>, counter: nat): (s: seq<byte>)
      requires |r| >= 12 && counter < WRAP
      ensures |s| == |r|
    {
      var t := WithCounter(r, counter);
      t[..|t| - 4] + Le32Bytes(crc(t[..|t| - 4]))
    }

    /** The hypothesis about torn sectors: none of them holds a slot whose checksum is right. */
    predicate TornFailsCrc(script: seq<Outcome>) {
      forall o :: o in script && !o.Works? && o.remnant.Torn? ==> TornInvalid(o.remnant.left)
    }

    predicate TornInvalid(left: seq<byte>) {
      12 <= size <= |left| == SECTOR && !Valid(left[..size])
    }

    /** Everything a load or a store needs of the device. */
    predicate Fits(m: seq<byte>, script: seq<Outcome>) {
      TwoSectors(m, a, b) && RejectsBlank() && TornFailsCrc(script)
    }
  }

  predicate AllWork(script: seq<Outcome>) {
    forall o :: o in script ==> o.Works?
  }

  // ------------------------------------------------------------------ records

  lemma StampedFields(l: Layout, r: seq<byte>, counter: nat)
    requires |r| >= 12 && counter < WRAP
    ensures l.Valid(l.Stamped(r, counter)) && Counter(l.Stamped(r, counter)) == counter
    ensures l.Stamped(r, counter)[..COUNTER_OFF] == r[..COUNTER_OFF]
    ensures l.Stamped(r, counter)[COUNTER_OFF + 4..|r| - 4] == r[COUNTER_OFF + 4..|r| - 4]
  {
    var t := WithCounter(r, counter);
    var s := l.Stamped(r, counter);
    Load32OfStore32(counter);
    Le32LoadsWhatItStored(l.crc(t[..|t| - 4]));
    assert s[..|s| - 4] == t[..|t| - 4];
    assert s[|s| - 4..] == Le32Bytes(l.crc(t[..|t| - 4]));
    assert s[COUNTER_OFF..COUNTER_OFF + 4] == Store32(counter);
  }

  /** CRC-32 rejects an erased slot of any legal size: here the lower bound on the size matters. */
  lemma Crc32RejectsBlank(a: nat, b: nat, size: nat)
    ensures Layout(a, b, size, Crc32).RejectsBlank()
  {
    if SizeOk(size) {
      var s := Blank(size);
      assert s[..size - 4] == Blank(size - 4);
      OnesAsWord();
      assert s[size - 4..] == [0xFF, 0xFF, 0xFF, 0xFF];
      BlankCrc.BlankChecksum(size - 4);
    }
  }

  lemma OnesAsWord()
    ensures Le32([0xFF, 0xFF, 0xFF, 0xFF]) == 0xFFFFFFFF
  {
  }

  /** Below the bound it does not: eight erased bytes carry their own right checksum. */
  lemma ErasedEightBytesCheckOut()
    ensures Le32(Blank(8)[4..]) == Crc32(Blank(8)[..4])
  {
    assert Blank(8)[..4] == Blank(4);
    assert Blank(8)[4..] == [0xFF, 0xFF, 0xFF, 0xFF];
    OnesAsWord();
    BlankCrc.BlankChecksum(4);
  }

  /**
   * Two valid records of one size that differ only within four consecutive bytes, wherever
   * those lie, are the same record: such corruption is always noticed.
   */
  lemma CorruptionRejected(l: Layout, p: seq<byte>, u: seq<byte>, v: seq<byte>, q: seq<byte>)
    requires l.crc == Crc32
    requires |u| == |v| <= 4 && |p + u + q| >= 12
    requires l.Valid(p + u + q) && l.Valid(p + v + q)
    ensures u == v
  {
    ValidLeavesResidue(l, p + u + q);
    ValidLeavesResidue(l, p + v + q);
    Run32DetectsBursts(p, u, v, q);
  }

  lemma ValidLeavesResidue(l: Layout, s: seq<byte>)
    requires l.crc == Crc32 && |s| >= 12 && l.Valid(s)
    ensures Run(Step32, SEED32, s) == RESIDUE32
  {
    assert s == s[..|s| - 4] + s[|s| - 4..];
    ResidueDecides32(s[..|s| - 4], s[|s| - 4..]);
  }

  // --------------------------------------------------- effects of one operation

  lemma SlotAfterErase(m: seq<byte>, a: nat, b: nat, size: nat)
    requires TwoSectors(m, a, b) && SizeOk(size)
    ensures SlotAt(Erased(m, a), a, size) == Blank(size)
    ensures SlotAt(Erased(m, a), b, size) == SlotAt(m, b, size)
    ensures SameElsewhere(m, Erased(m, a), a, b)
  {
  }

  lemma SlotAfterProgram(m: seq<byte>, a: nat, b: nat, r: seq<byte>)
    requires TwoSectors(m, a, b) && SizeOk(|r|)
    requires SlotAt(m, a, |r|) == Blank(|r|)
    ensures SlotAt(Programmed(m, a, r), a, |r|) == r
    ensures SlotAt(Programmed(m, a, r), b, |r|) == SlotAt(m, b, |r|)
    ensures SameElsewhere(m, Programmed(m, a, r), a, b)
  {
    forall i | a <= i < a + |r| ensures m[i] == 0xFF {
      assert m[i] == SlotAt(m, a, |r|)[i - a];
    }
    ProgramOnBlank(m, a, r);
  }

  /** What the touched slot can hold after a mishap, given that torn sectors fail their checksum. */
  lemma SlotAfterMishap(l: Layout, m: seq<byte>, finished: seq<byte>, a: nat, b: nat, t: Remnant)
    requires TwoSectors(m, a, b) && SizeOk(l.size)
    requires |finished| == |m| && SlotAt(finished, b, l.size) == SlotAt(m, b, l.size)
    requires SameElsewhere(m, finished, a, b)
    requires t.Torn? ==> l.TornInvalid(t.left)
    ensures SlotAt(Aftermath(m, finished, a, t), b, l.size) == SlotAt(m, b, l.size)
    ensures SameElsewhere(m, Aftermath(m, finished, a, t), a, b)
    ensures var s := SlotAt(Aftermath(m, finished, a, t), a, l.size);
            s == SlotAt(m, a, l.size) || s == SlotAt(finished, a, l.size) || !l.Valid(s)
  {
    if t.Torn? {
      assert SlotAt(TornIn(m, a, t.left), a, l.size) == t.left[..l.size];
    }
  }

  lemma SlotAfterHalfProgram(l: Layout, m: seq<byte>, a: nat, b: nat, rec: seq<byte>, t: Remnant)
    requires TwoSectors(m, a, b) && SizeOk(l.size) && |rec| == l.size
    requires SlotAt(m, a, l.size) == Blank(l.size)
    requires t.Torn? ==> l.TornInvalid(t.left)
    ensures SlotAt(HalfProgrammed(m, a, rec, t), b, l.size) == SlotAt(m, b, l.size)
    ensures SameElsewhere(m, HalfProgrammed(m, a, rec, t), a, b)
    ensures var s := SlotAt(HalfProgrammed(m, a, rec, t), a, l.size);
            s == SlotAt(m, a, l.size) || s == rec || !l.Valid(s)
  {
    SlotAfterProgram(m, a, b, rec);
    if t.Torn? {
      assert SlotAt(TornAt(m, a, l.size, t.left), a, l.size) == t.left[..l.size];
    }
  }

  // ------------------------------------------- slot contents during one store

  /** A store writes slot A with counter 1 first, and after that the other slot with the next counter, which wraps. */
  lemma NextMeans(f: Found)
    requires f.Record? ==> |f.bytes| >= 12 && f.slot <= 1
    ensures f.Nothing? ==> Target(f) == 0 && NextCounter(f) == 1
    ensures f.Record? ==> Target(f) == 1 - f.slot
    ensures f.Record? && Counter(f.bytes) < 0xFFFF_FFFF ==> NextCounter(f) == Counter(f.bytes) + 1
    ensures f.Record? && Counter(f.bytes) == 0xFFFF_FFFF ==> NextCounter(f) == 0
  {
  }

  /** `Newer`, told which slot is the target of the store: `x` is its content, `y` the other's. */
  function Seen(l: Layout, target: nat, x: seq<byte>, y: seq<byte>): Found
    requires |x| == |y| >= 12
  {
    if target == 0 then l.Newer(x, y) else l.Newer(y, x)
  }

  /** The slot a store writes: the one that is not current, slot A if none is. */
  function Target(f: Found): nat {
    if f.Record? && f.slot == 0 then 1 else 0
  }

  /** Disturbing the target slot, as long as nothing valid and new appears there, changes nothing. */
  lemma TargetDisturbed(l: Layout, x0: seq<byte>, x: seq<byte>, y: seq<byte>, target: nat)
    requires |x0| == |x| == |y| >= 12
    requires target == Target(Seen(l, target, x0, y)) && target <= 1
    requires x == x0 || !l.Valid(x)
    ensures Content(Seen(l, target, x, y)) == Content(Seen(l, target, x0, y))
  {
  }

  /** The next counter is one more, or wraps to zero below everything. */
  lemma NextCounterOrder(f: Found)
    requires f.Record? && |f.bytes| >= 12
    ensures NextCounter(f) > Counter(f.bytes) || (NextCounter(f) == 0 && Counter(f.bytes) > 0)
  {
  }

  lemma HigherCounterSeen(l: Layout, x: seq<byte>, y: seq<byte>, target: nat)
    requires |x| == |y| >= 12 && l.Valid(x) && l.Valid(y) && Counter(x) != Counter(y)
    ensures Content(Seen(l, target, x, y)) == if Counter(x) > Counter(y) then x else y
  {
  }

  /** With the new record complete in the target slot, a load finds it unless its counter wrapped to zero. */
  lemma TargetWritten(l: Layout, x0: seq<byte>, rec: seq<byte>, y: seq<byte>, target: nat)
    requires |x0| == |rec| == |y| >= 12
    requires target == Target(Seen(l, target, x0, y)) && target <= 1
    requires l.Valid(rec) && Counter(rec) == NextCounter(Seen(l, target, x0, y))
    ensures Content(Seen(l, target, rec, y)) ==
              if Seen(l, target, x0, y).Nothing? || Counter(rec) != 0 then rec else Content(Seen(l, target, x0, y))
  {
    var was := Seen(l, target, x0, y);
    if was.Record? {
      assert was.bytes == y && l.Valid(y);
      NextCounterOrder(was);
      HigherCounterSeen(l, rec, y, target);
    }
  }

  /** What the three flash operations of a store can leave in the two slots, and what a load then finds. */
  lemma StoreOutcome(l: Layout, x0: seq<byte>, y0: seq<byte>, x: seq<byte>, y: seq<byte>, rec: seq<byte>, target: nat)
    requires |x0| == |y0| == |x| == |y| == |rec| >= 12
    requires target == Target(Seen(l, target, x0, y0)) && target <= 1
    requires l.Valid(rec) && Counter(rec) == NextCounter(Seen(l, target, x0, y0))
    requires x == x0 || x == rec || !l.Valid(x)
    requires y == y0 || (x == rec && !l.Valid(y))
    ensures var now := Content(Seen(l, target, x, y));
            now == Content(Seen(l, target, x0, y0)) || now == rec
    ensures x == rec && !l.Valid(y) ==> Seen(l, target, x, y) == Record(target, rec)
  {
    if x == rec {
      TargetWritten(l, x0, rec, y0, target);
    } else {
      TargetDisturbed(l, x0, x, y0, target);
    }
  }

  // ------------------------------------------------------------------- methods

  /** Read one slot and check it. */
  method ReadAndValidate(l: Layout, flash: Flash, addr: nat) returns (valid: bool, buf: seq<byte>, counter: nat)
    requires SizeOk(l.size) && addr + l.size <= |flash.mem|
    ensures buf == SlotAt(flash.mem, addr, l.size)
    ensures valid == l.Valid(buf)
    ensures counter == if valid then Counter(buf) else 0
  {
    buf := flash.Read(addr, l.size);
    counter := 0;
    var stored := Le32(buf[l.size - 4..]);
    var expected := l.crc(buf[..l.size - 4]);
    valid := stored == expected;
    if valid {
      counter := Load32(buf[COUNTER_OFF..COUNTER_OFF + 4]);
    }
  }

  /** Read both slots and decide which is current: the opening of a load and of a store. */
  method Survey(l: Layout, flash: Flash) returns (found: Found)
    requires TwoSectors(flash.mem, l.a, l.b) && SizeOk(l.size)
    ensures found == l.Current(flash.mem)
  {
    var validA, bufA, countA := ReadAndValidate(l, flash, l.a);
    var validB, bufB, countB := ReadAndValidate(l, flash, l.b);
    if validA && (!validB || countA >= countB) {
      return Record(0, bufA);
    }
    if validB {
      return Record(1, bufB);
    }
    return Nothing;
  }

  /** Load the newer valid slot: 0 and its bytes, 1 and zeros if there is none, -1 for a bad size. */
  method Load(l: Layout, flash: Flash, out: array<byte>) returns (rc: int, slot: nat, counter: nat)
    requires TwoSectors(flash.mem, l.a, l.b) && out.Length == l.size
    modifies out
    ensures !SizeOk(l.size) ==> rc == -1 && out[..] == old(out[..])
    ensures SizeOk(l.size) ==>
      match l.Current(flash.mem)
      case Record(s, bytes) => rc == 0 && out[..] == bytes && slot == s && counter == Counter(bytes)
      case Nothing => rc == 1 && out[..] == seq(l.size, _ => 0)
    ensures SizeOk(l.size) ==>
      var a, b := SlotAt(flash.mem, l.a, l.size), SlotAt(flash.mem, l.b, l.size);
      && (rc == 1 <==> !l.Valid(a) && !l.Valid(b))
      && (rc == 0 ==> (slot == 0 <==> l.Valid(a) && (!l.Valid(b) || Counter(a) >= Counter(b))))
  {
    slot, counter := 0, 0;
    if l.size < 12 || l.size > 256 {
      return -1, slot, counter;
    }
    var found := Survey(l, flash);
    match found {
      case Record(s, bytes) =>
        forall i | 0 <= i < out.Length { out[i] := bytes[i]; }
        assert out[..] == bytes;
        return 0, s, Counter(bytes);
      case Nothing =>
        forall i | 0 <= i < out.Length { out[i] := 0; }
        return 1, slot, counter;
    }
  }

  /** Erase the target sector, program the record there and read it back. */
  method WriteTarget(l: Layout, flash: Flash, addr: nat, other: nat, rec: seq<byte>) returns (rc: int)
    requires TwoSectors(flash.mem, addr, other) && SizeOk(l.size) && |rec| == l.size
    requires l.TornFailsCrc(flash.script) && l.RejectsBlank()
    modifies flash
    ensures |flash.mem| == |old(flash.mem)| && SameElsewhere(old(flash.mem), flash.mem, addr, other)
    ensures SlotAt(flash.mem, other, l.size) == SlotAt(old(flash.mem), other, l.size)
    ensures var x := SlotAt(flash.mem, addr, l.size);
            x == SlotAt(old(flash.mem), addr, l.size) || x == rec || !l.Valid(x)
    ensures rc == 0 ==> SlotAt(flash.mem, addr, l.size) == rec
    ensures old(flash.powered) && AllWork(old(flash.script)) ==> rc == 0 && flash.powered
    ensures l.TornFailsCrc(flash.script) && (AllWork(old(flash.script)) ==> AllWork(flash.script))
    ensures old(flash.powered) && old(flash.Next()) == Fails(Untouched) ==> rc == -2 && flash.mem == old(flash.mem)
  {
    ghost var m0 := flash.mem;
    SlotAfterErase(m0, addr, other, l.size);
    ghost var fate, on := flash.Next(), flash.powered;
    var erased := flash.EraseSector(addr);
    if erased != 0 {
      if on {
        SlotAfterMishap(l, m0, Erased(m0, addr), addr, other, fate.remnant);
      }
      return -2;
    }
    var programmed := ProgramSlot(l, flash, addr, other, rec);
    if programmed != 0 {
      return -3;
    }
    var readBack := flash.Read(addr, l.size);
    if readBack != rec {
      return -5;
    }
    return 0;
  }

  lemma SlotInOnePage(addr: nat, n: nat)
    requires SectorOf(addr) == addr && 0 < n <= PAGE
    ensures InOnePage(addr, n)
  {
    assert addr % PAGE == 0;
  }

  /** What the record's place holds after a program with the fate `o`: the record, or something invalid. */
  lemma SlotAfterFate(l: Layout, m: seq<byte>, a: nat, b: nat, rec: seq<byte>, o: Outcome)
    requires TwoSectors(m, a, b) && SizeOk(l.size) && |rec| == l.size && l.RejectsBlank()
    requires SlotAt(m, a, l.size) == Blank(l.size)
    requires !o.Works? && o.remnant.Torn? ==> l.TornInvalid(o.remnant.left)
    ensures var n := if o.Works? then Programmed(m, a, rec) else HalfProgrammed(m, a, rec, o.remnant);
      && SameElsewhere(m, n, a, b) && SlotAt(n, b, l.size) == SlotAt(m, b, l.size)
      && (SlotAt(n, a, l.size) == rec || (!o.Works? && !l.Valid(SlotAt(n, a, l.size))))
  {
    if o.Works? {
      SlotAfterProgram(m, a, b, rec);
    } else {
      SlotAfterHalfProgram(l, m, a, b, rec, o.remnant);
    }
  }

  /** Program the record into the erased target slot; success is only the device's word for it. */
  method ProgramSlot(l: Layout, flash: Flash, addr: nat, other: nat, rec: seq<byte>) returns (rc: int)
    requires TwoSectors(flash.mem, addr, other) && SizeOk(l.size) && |rec| == l.size
    requires l.TornFailsCrc(flash.script) && l.RejectsBlank()
    requires SlotAt(flash.mem, addr, l.size) == Blank(l.size)
    modifies flash
    ensures |flash.mem| == |old(flash.mem)| && SameElsewhere(old(flash.mem), flash.mem, addr, other)
    ensures SlotAt(flash.mem, other, l.size) == SlotAt(old(flash.mem), other, l.size)
    ensures var x := SlotAt(flash.mem, addr, l.size); x == rec || !l.Valid(x)
    ensures old(flash.powered) && AllWork(old(flash.script)) ==>
      rc == 0 && flash.powered && SlotAt(flash.mem, addr, l.size) == rec
    ensures l.TornFailsCrc(flash.script) && (AllWork(old(flash.script)) ==> AllWork(flash.script))
  {
    SlotInOnePage(addr, |rec|);
    SlotAfterFate(l, flash.mem, addr, other, rec, flash.Next());
    rc := flash.Program(addr, rec);
  }

  /** Erase the slot that was current before. */
  method RetirePrior(l: Layout, flash: Flash, addr: nat, target: nat) returns (rc: int)
    requires TwoSectors(flash.mem, addr, target) && SizeOk(l.size)
    requires l.TornFailsCrc(flash.script) && l.RejectsBlank()
    modifies flash
    ensures |flash.mem| == |old(flash.mem)| && SameElsewhere(old(flash.mem), flash.mem, addr, target)
    ensures SlotAt(flash.mem, target, l.size) == SlotAt(old(flash.mem), target, l.size)
    ensures var y := SlotAt(flash.mem, addr, l.size);
            y == SlotAt(old(flash.mem), addr, l.size) || !l.Valid(y)
    ensures rc == 0 ==> !l.Valid(SlotAt(flash.mem, addr, l.size))
    ensures old(flash.powered) && AllWork(old(flash.script)) ==> rc == 0 && flash.powered
    ensures l.TornFailsCrc(flash.script) && (AllWork(old(flash.script)) ==> AllWork(flash.script))
  {
    ghost var m := flash.mem;
    SlotAfterErase(m, addr, target, l.size);
    ghost var fate, on := flash.Next(), flash.powered;
    var erased := flash.EraseSector(addr);
    if erased != 0 {
      if on {
        SlotAfterMishap(l, m, Erased(m, addr), addr, target, fate.remnant);
      }
      return -6;
    }
    return 0;
  }

  /** Write the counter and the checksum into the caller's buffer. */
  method Stamp(l: Layout, record: array<byte>, counter: nat) returns (bytes: seq<byte>)
    requires record.Length >= 12 && counter < WRAP
    modifies record
    ensures record[..] == l.Stamped(old(record[..]), counter)
    ensures bytes == record[..]
  {
    StoreWord(record, COUNTER_OFF, Store32(counter));
    assert record[..] == WithCounter(old(record[..]), counter);
    var checksum := l.crc(record[..record.Length - 4]);
    ghost var t := record[..];
    assert t[..record.Length - 4] == record[..record.Length - 4];
    StoreWord(record, record.Length - 4, Le32Bytes(checksum));
    bytes := record[..];
  }

  method StoreWord(p: array<byte>, at: nat, word: seq<byte>)
    requires at + 4 <= p.Length && |word| == 4
    modifies p
    ensures p[..] == old(p[..at]) + word + old(p[at + 4..])
    ensures forall i :: 0 <= i < p.Length ==> p[i] == if at <= i < at + 4 then word[i - at] else old(p[i])
  {
    p[at], p[at + 1], p[at + 2], p[at + 3] := word[0], word[1], word[2], word[3];
  }

  /**
   * One store, seen from outside: afterwards a load finds what it found before or the new
   * record; a store that reports success has committed the new record.
   */
  predicate AtomicStep(was: seq<byte>, now: seq<byte>, rec: seq<byte>, committed: bool) {
    && (now == was || now == rec)
    && (committed ==> now == rec)
  }

  /** What a caller gave is in the record: version and payload, all but counter and checksum. */
  predicate Carries(stamped: seq<byte>, given: seq<byte>) {
    && |stamped| == |given| >= 12
    && stamped[..4] == given[..4] && stamped[8..|given| - 4] == given[8..|given| - 4]
  }

  /** The flash operations of a store: write the slot that is not current, then erase the current one. */
  method Commit(l: Layout, flash: Flash, was: Found, target: nat, rec: seq<byte>) returns (rc: int)
    requires l.Fits(flash.mem, flash.script) && SizeOk(l.size) && |rec| == l.size
    requires was == l.Current(flash.mem) && target == Target(was)
    requires l.Valid(rec) && Counter(rec) == NextCounter(was)
    modifies flash
    ensures l.Fits(flash.mem, flash.script)
    ensures |flash.mem| == |old(flash.mem)| && SameElsewhere(old(flash.mem), flash.mem, l.a, l.b)
    ensures AtomicStep(Content(was), Content(l.Current(flash.mem)), rec, rc == 0)
    ensures rc == 0 ==>
      && l.Current(flash.mem) == Record(target, rec)
      && !l.Valid(SlotAt(flash.mem, if target == 0 then l.b else l.a, l.size))
    ensures old(flash.powered) && AllWork(old(flash.script)) ==> rc == 0 && flash.powered
    ensures AllWork(old(flash.script)) ==> AllWork(flash.script)
    ensures old(flash.powered) && old(flash.Next()) == Fails(Untouched) ==> rc == -2 && flash.mem == old(flash.mem)
  {
    var addr := if target == 0 then l.a else l.b;
    var other := if target == 0 then l.b else l.a;
    ghost var x0, y0 := SlotAt(flash.mem, addr, l.size), SlotAt(flash.mem, other, l.size);
    rc := WriteTarget(l, flash, addr, other, rec);
    StoreOutcome(l, x0, y0, SlotAt(flash.mem, addr, l.size), y0, rec, target);
    if rc == 0 && was.Record? {
      rc := RetirePrior(l, flash, other, addr);
      StoreOutcome(l, x0, y0, rec, SlotAt(flash.mem, other, l.size), rec, target);
    }
  }

  /**
   * Store `record`, stamping its counter and checksum. The result is 0 for success, -1 for
   * a bad size, -2 and -6 for a failed erase of the target and of the prior slot, -3 for a
   * failed program, -5 for a failed verification.
   */
  method Store(l: Layout, flash: Flash, record: array<byte>) returns (rc: int, slot: nat, counter: nat)
    requires l.Fits(flash.mem, flash.script) && record.Length == l.size
    modifies flash, record
    ensures l.Fits(flash.mem, flash.script)
    ensures |flash.mem| == |old(flash.mem)| && SameElsewhere(old(flash.mem), flash.mem, l.a, l.b)
    ensures !SizeOk(l.size) ==>
      rc == -1 && flash.mem == old(flash.mem) && record[..] == old(record[..])
    ensures SizeOk(l.size) ==> Carries(record[..], old(record[..]))
    ensures SizeOk(l.size) ==>
      && record[..] == l.Stamped(old(record[..]), NextCounter(old(l.Current(flash.mem))))
      && AtomicStep(Content(old(l.Current(flash.mem))), Content(l.Current(flash.mem)), record[..], rc == 0)
    ensures SizeOk(l.size) && rc == 0 ==>
      && slot == Target(old(l.Current(flash.mem))) && counter == NextCounter(old(l.Current(flash.mem)))
      && l.Current(flash.mem) == Record(slot, record[..])
      && !l.Valid(SlotAt(flash.mem, if slot == 0 then l.b else l.a, l.size))
    ensures SizeOk(l.size) && old(flash.powered) && AllWork(old(flash.script)) ==> rc == 0 && flash.powered
    ensures AllWork(old(flash.script)) ==> AllWork(flash.script)
    ensures SizeOk(l.size) && old(flash.powered) && old(flash.Next()) == Fails(Untouched) ==>
      rc == -2 && flash.mem == old(flash.mem)
  {
    slot, counter := 0, 0;
    if l.size < 12 || l.size > 256 {
      return -1, slot, counter;
    }
    var was := Survey(l, flash);
    var target := if was.Record? && was.slot == 0 then 1 else 0;
    var newCounter := NextCounter(was);
    StampedFields(l, record[..], newCounter);
    var stamp := Stamp(l, record, newCounter);
    rc := Commit(l, flash, was, target, stamp);
    if rc == 0 {
      slot, counter := target, newCounter;
    }
  }

  // ------------------------------------------------------------------ all runs

  /** One attempt to store: the stamped record, and whether the store reported success. */
  datatype Attempt = Attempt(record: seq<byte>, committed: bool)

  /** `seen[k]` is what a load finds before attempt `k`, after any number of reboots. */
  predicate Chronicle(seen: seq<seq<byte>>, tries: seq<Attempt>) {
    && |seen| == |tries| + 1
    && forall k :: 0 <= k < |tries| ==> AtomicStep(seen[k], seen[k + 1], tries[k].record, tries[k].committed)
  }

  /**
   * Power-loss atomicity over a whole life: what a load finds at the end is the record of an
   * attempt after which no attempt was committed, or what was there at first if none was.
   */
  lemma {:induction false} NeverOlder(seen: seq<seq<byte>>, tries: seq<Attempt>) returns (i: int)
    requires Chronicle(seen, tries)
    ensures -1 <= i < |tries|
    ensures seen[|tries|] == if i == -1 then seen[0] else tries[i].record
    ensures forall j :: 0 <= j < |tries| && i < j ==> !tries[j].committed
    decreases |tries|
  {
    i := -1;
    if tries != [] {
      var n := |tries| - 1;
      assert AtomicStep(seen[n], seen[n + 1], tries[n].record, tries[n].committed);
      if seen[n + 1] == tries[n].record {
        i := n;
      } else {
        i := NeverOlder(seen[..n + 1], tries[..n]);
      }
    }
  }

  lemma ChronicleGrows(seen: seq<seq<byte>>, tries: seq<Attempt>, now: seq<byte>, attempt: Attempt)
    requires Chronicle(seen, tries)
    requires AtomicStep(seen[|tries|], now, attempt.record, attempt.committed)
    ensures Chronicle(seen + [now], tries + [attempt])
  {
  }

  /** The attempts so far were made with the first of the given records. */
  ghost predicate EachCarries(tries: seq<Attempt>, records: seq<seq<byte>>) {
    |tries| <= |records| && forall k :: 0 <= k < |tries| ==> Carries(tries[k].record, records[k])
  }

  lemma NextCarries(tries: seq<Attempt>, records: seq<seq<byte>>, attempt: Attempt)
    requires EachCarries(tries, records) && |tries| < |records| && Carries(attempt.record, records[|tries|])
    ensures EachCarries(tries + [attempt], records)
  {
  }

  /** One attempt, with a reboot after it. */
  method TryStore(l: Layout, flash: Flash, record: array<byte>) returns (attempt: Attempt)
    requires l.Fits(flash.mem, flash.script) && record.Length == l.size && SizeOk(l.size)
    modifies flash, record
    ensures l.Fits(flash.mem, flash.script) && |flash.mem| == |old(flash.mem)|
    ensures AtomicStep(Content(old(l.Current(flash.mem))), Content(l.Current(flash.mem)),
                       attempt.record, attempt.committed)
    ensures Carries(attempt.record, old(record[..]))
  {
    var rc, slot, counter := Store(l, flash, record);
    attempt := Attempt(record[..], rc == 0);
    flash.PowerUp();
  }

  method TryBytes(l: Layout, flash: Flash, given: seq<byte>) returns (attempt: Attempt)
    requires l.Fits(flash.mem, flash.script) && |given| == l.size && SizeOk(l.size)
    modifies flash
    ensures l.Fits(flash.mem, flash.script) && |flash.mem| == |old(flash.mem)|
    ensures AtomicStep(Content(old(l.Current(flash.mem))), Content(l.Current(flash.mem)),
                       attempt.record, attempt.committed)
    ensures Carries(attempt.record, given)
  {
    var record := new byte[l.size](i requires 0 <= i < l.size => given[i]);
    assert record[..] == given;
    attempt := TryStore(l, flash, record);
  }

  /** Store record after record, the power failing and coming back at any point, and keep the books. */
  method Life(l: Layout, flash: Flash, records: seq<seq<byte>>) returns (seen: seq<seq<byte>>, tries: seq<Attempt>)
    requires l.Fits(flash.mem, flash.script) && SizeOk(l.size)
    requires forall r :: r in records ==> |r| == l.size
    modifies flash
    ensures Chronicle(seen, tries) && |tries| == |records|
    ensures EachCarries(tries, records)
    ensures |flash.mem| == |old(flash.mem)|
    ensures seen[0] == Content(old(l.Current(flash.mem)))
    ensures seen[|tries|] == Content(l.Current(flash.mem))
  {
    seen, tries := [Content(l.Current(flash.mem))], [];
    for k := 0 to |records|
      invariant |tries| == k && Chronicle(seen, tries)
      invariant EachCarries(tries, records)
      invariant l.Fits(flash.mem, flash.script) && |flash.mem| == |old(flash.mem)|
      invariant seen[0] == Content(old(l.Current(flash.mem)))
      invariant seen[k] == Content(l.Current(flash.mem))
    {
      var attempt := TryBytes(l, flash, records[k]);
      var now := Content(l.Current(flash.mem));
      ChronicleGrows(seen, tries, now, attempt);
      NextCarries(tries, records, attempt);
      seen, tries := seen + [now], tries + [attempt];
    }
  }
}
