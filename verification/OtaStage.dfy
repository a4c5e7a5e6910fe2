/**
 * The staging region for firmware images: erased sector by sector, written page by page,
 * and read back for its checksum.
 */
module OtaStage {
  import opened Bytes
  import opened Fold
  import opened Crc
  import opened W25q
  import PingPong

  const REGION_BASE: nat := 0x400000
  const REGION_SIZE: nat := 0x100000
  const REGION_END: nat := 0x500000

  /** How many pages the `n` bytes from `addr` on touch. */
  function PagesTouched(addr: nat, n: nat): nat {
    if n == 0 then 0 else (addr + n - 1) / PAGE - addr / PAGE + 1
  }

  /** Whether a piece may begin `done` bytes into a write that starts at `start`: only there or at a page. */
  predicate PieceStart(start: nat, done: nat) {
    done == 0 || (start + done) % PAGE == 0
  }

  /** How many of `left` bytes can be programmed before the page ends. */
  method PieceLength(start: nat, done: nat, left: nat) returns (n: nat)
    requires left > 0 && PieceStart(start, done)
    ensures 0 < n <= left && InOnePage(start + done, n)
    ensures n == left || PieceStart(start, done + n)
    ensures PagesTouched(start, done + n) == PagesTouched(start, done) + 1
  {
    var inPage := PAGE - (start + done) % PAGE;
    n := if left < inPage then left else inPage;
  }

  /** What is left of a script after `k` operations. */
  function Later(script: seq<Outcome>, k: nat): seq<Outcome> {
    if k < |script| then script[k..] else []
  }

  lemma ProgramInTwo(m: seq<byte>, addr: nat, a: seq<byte>, b: seq<byte>, whole: seq<byte>)
    requires |whole| == |a| + |b| && addr + |whole| <= |m|
    requires a == whole[..|a|] && b == whole[|a|..]
    ensures Programmed(Programmed(m, addr, a), addr + |a|, b) == Programmed(m, addr, whole)
  {
    var first := Programmed(m, addr, a);
    var both, once := Programmed(first, addr + |a|, b), Programmed(m, addr, whole);
    forall i | 0 <= i < |m| ensures both[i] == once[i] {
      ProgramInTwoAt(m, addr, a, b, whole, i);
    }
  }

  lemma ProgramNothing(m: seq<byte>, addr: nat)
    ensures Programmed(m, addr, []) == m
  {
  }

  lemma ProgramInTwoAt(m: seq<byte>, addr: nat, a: seq<byte>, b: seq<byte>, whole: seq<byte>, i: nat)
    requires |whole| == |a| + |b| && addr + |whole| <= |m| && i < |m|
    requires a == whole[..|a|] && b == whole[|a|..]
    ensures Programmed(Programmed(m, addr, a), addr + |a|, b)[i] == Programmed(m, addr, whole)[i]
  {
    if addr <= i < addr + |a| {
      assert a[i - addr] == whole[i - addr];
    } else if addr + |a| <= i < addr + |whole| {
      assert b[i - addr - |a|] == whole[i - addr];
    }
  }

  /** Nothing outside these addresses has changed. */
  ghost predicate OnlyWithin(m: seq<byte>, n: seq<byte>, lo: nat, hi: nat) {
    |n| == |m| && forall i :: 0 <= i < |m| && !(lo <= i < hi) ==> n[i] == m[i]
  }

  /** Nothing outside the region has changed. */
  ghost predicate OnlyRegion(m: seq<byte>, n: seq<byte>) {
    OnlyWithin(m, n, REGION_BASE, REGION_END)
  }

  lemma AftermathWithin(m: seq<byte>, addr: nat, hi: nat, t: Remnant)
    requires SectorOf(addr) == addr && addr + SECTOR <= hi
    ensures OnlyWithin(m, Erased(m, addr), addr, hi)
    ensures OnlyWithin(m, Aftermath(m, Erased(m, addr), addr, t), addr, hi)
  {
  }

  lemma WithinComposes(m: seq<byte>, n: seq<byte>, p: seq<byte>, lo: nat, mid: nat, hi: nat)
    requires lo <= mid && OnlyWithin(m, n, lo, hi) && OnlyWithin(n, p, mid, hi)
    ensures OnlyWithin(m, p, lo, hi)
  {
  }

  /** The bytes of an image of `size` bytes in the region. */
  function Staged(m: seq<byte>, size: nat): (s: seq<byte>)
    requires size <= REGION_SIZE && REGION_END <= |m|
    ensures |s| == size
  {
    m[REGION_BASE..REGION_BASE + size]
  }

  /** The first byte after the sectors an image of `size` bytes touches. */
  function SectorsEnd(size: nat): (e: nat)
    ensures REGION_BASE + size <= e < REGION_BASE + size + SECTOR && SectorOf(e) == e
    ensures e == REGION_BASE + (size + 4095) / 4096 * 4096
    ensures size <= REGION_SIZE ==> e <= REGION_END
  {
    (REGION_BASE + size + (SECTOR - 1)) / SECTOR * SECTOR
  }

  /** Erase enough sectors for an image: 0, or -1 on a device error, -2 too large, -3 empty. */
  method Begin(flash: Flash, size: nat) returns (rc: int)
    requires REGION_END <= |flash.mem|
    modifies flash
    ensures rc == -3 <==> size == 0
    ensures rc == -2 <==> size > REGION_SIZE
    ensures rc < -1 ==> flash.mem == old(flash.mem) && flash.script == old(flash.script) && flash.powered == old(flash.powered)
    ensures OnlyRegion(old(flash.mem), flash.mem)
    ensures OnlyWithin(old(flash.mem), flash.mem, REGION_BASE, REGION_BASE + (size + 4095) / 4096 * 4096)
    ensures forall o :: o in flash.script ==> o in old(flash.script)
    ensures rc == 0 ==> forall i :: REGION_BASE <= i < REGION_BASE + size ==> flash.mem[i] == 0xFF
    ensures 0 < size <= REGION_SIZE && old(flash.powered) && PingPong.AllWork(old(flash.script)) ==>
      rc == 0 && flash.powered
  {
    if size == 0 {
      return -3;
    }
    if size > REGION_SIZE {
      return -2;
    }
    var end := SectorsEnd(size);
    var addr := REGION_BASE;
    while addr < end
      invariant REGION_BASE <= addr <= end && SectorOf(addr) == addr
      invariant OnlyWithin(old(flash.mem), flash.mem, REGION_BASE, end)
      invariant forall o :: o in flash.script ==> o in old(flash.script)
      invariant forall i :: REGION_BASE <= i < addr ==> flash.mem[i] == 0xFF
      invariant old(flash.powered) && PingPong.AllWork(old(flash.script)) ==> flash.powered
    {
      ghost var m := flash.mem;
      AftermathWithin(m, addr, end, if flash.Next().Works? then Finished else flash.Next().remnant);
      var erased := flash.EraseSector(addr);
      WithinComposes(old(flash.mem), m, flash.mem, REGION_BASE, addr, end);
      if erased < 0 {
        return -1;
      }
      addr := addr + SECTOR;
    }
    return 0;
  }

  /** Program one piece. */
  method WritePiece(flash: Flash, addr: nat, chunk: seq<byte>) returns (rc: int)
    requires REGION_END <= |flash.mem| && REGION_BASE <= addr && addr + |chunk| <= REGION_END
    requires InOnePage(addr, |chunk|)
    modifies flash
    ensures rc == 0 || rc == -1
    ensures OnlyWithin(old(flash.mem), flash.mem, addr, addr + |chunk|)
    ensures forall o :: o in flash.script ==> o in old(flash.script)
    ensures flash.script == old(flash.Rest())
    ensures rc == 0 && Honest(old(flash.script)) ==> flash.mem == Programmed(old(flash.mem), addr, chunk)
    ensures old(flash.powered) && PingPong.AllWork(old(flash.script)) ==> rc == 0 && flash.powered
  {
    ProgramWithin(flash.mem, addr, chunk, if flash.Next().Works? then Finished else flash.Next().remnant);
    rc := flash.Program(addr, chunk);
  }

  lemma ProgramWithin(m: seq<byte>, addr: nat, chunk: seq<byte>, t: Remnant)
    ensures OnlyWithin(m, Programmed(m, addr, chunk), addr, addr + |chunk|)
    ensures OnlyWithin(m, HalfProgrammed(m, addr, chunk, t), addr, addr + |chunk|)
  {
  }

  /**
   * Write at an offset, split at page boundaries: 0, or -1 on a device error, -3 beyond the
   * region, -4 for no data. A successful write issues one program for each page it touches.
   */
  method Write(flash: Flash, offset: nat, data: seq<byte>) returns (rc: int)
    requires REGION_END <= |flash.mem|
    modifies flash
    ensures rc == 0 || rc == -1 || rc == -3 || rc == -4
    ensures rc == -4 <==> data == []
    ensures rc == -3 <==> data != [] && offset + |data| > REGION_SIZE
    ensures rc < -1 ==> flash.mem == old(flash.mem) && flash.script == old(flash.script) && flash.powered == old(flash.powered)
    ensures OnlyRegion(old(flash.mem), flash.mem)
    ensures OnlyWithin(old(flash.mem), flash.mem, REGION_BASE + offset, REGION_BASE + offset + |data|)
    ensures forall o :: o in flash.script ==> o in old(flash.script)
    ensures rc == 0 ==> flash.script == Later(old(flash.script), PagesTouched(REGION_BASE + offset, |data|))
    ensures rc == 0 && Honest(old(flash.script)) ==>
      flash.mem == Programmed(old(flash.mem), REGION_BASE + offset, data)
    ensures old(flash.powered) && PingPong.AllWork(old(flash.script)) && rc >= -1 ==> rc == 0 && flash.powered
  {
    if |data| == 0 {
      return -4;
    }
    if offset + |data| > REGION_SIZE {
      return -3;
    }
    var done := 0;
    ProgramNothing(flash.mem, REGION_BASE + offset);
    while done < |data|
      invariant 0 <= done <= |data|
      invariant Underway(old(flash.mem), flash.mem, old(flash.script), flash.script, offset, data, done)
      invariant old(flash.powered) && PingPong.AllWork(old(flash.script)) ==> flash.powered
    {
      var n, programmed := WriteNext(flash, offset, data, done, old(flash.mem), old(flash.script));
      if programmed < 0 {
        return -1;
      }
      done := done + n;
    }
    assert data[..done] == data;
    return 0;
  }

  /** The state of a write of which `done` bytes have been programmed. */
  ghost predicate Underway(m: seq<byte>, n: seq<byte>, before: seq<Outcome>, now: seq<Outcome>,
                           offset: nat, data: seq<byte>, done: nat)
    requires done <= |data|
  {
    && OnlyWithin(m, n, REGION_BASE + offset, REGION_BASE + offset + |data|)
    && (forall o :: o in now ==> o in before)
    && now == Later(before, PagesTouched(REGION_BASE + offset, done))
    && (done == |data| || PieceStart(REGION_BASE + offset, done))
    && WrittenSoFar(m, n, before, REGION_BASE + offset, data, done)
  }

  /** Program as much as fits the page. */
  method WriteNext(flash: Flash, offset: nat, data: seq<byte>, done: nat,
                   ghost m: seq<byte>, ghost before: seq<Outcome>)
    returns (n: nat, rc: int)
    requires REGION_END <= |flash.mem|
    requires done < |data| && offset + |data| <= REGION_SIZE
    requires Underway(m, flash.mem, before, flash.script, offset, data, done)
    modifies flash
    ensures rc == 0 || rc == -1
    ensures OnlyWithin(m, flash.mem, REGION_BASE + offset, REGION_BASE + offset + |data|)
    ensures forall o :: o in flash.script ==> o in before
    ensures 0 < n <= |data| - done
    ensures rc == 0 ==> Underway(m, flash.mem, before, flash.script, offset, data, done + n)
    ensures old(flash.powered) && PingPong.AllWork(before) ==> rc == 0 && flash.powered
  {
    n := PieceLength(REGION_BASE + offset, done, |data| - done);
    ghost var was := flash.mem;
    rc := WritePiece(flash, REGION_BASE + offset + done, data[done..done + n]);
    if rc == 0 {
      FurtherWritten(m, was, flash.mem, before, REGION_BASE + offset, data, done, n);
    }
  }

  /** If the device is honest, exactly the first `done` bytes have been programmed. */
  ghost predicate WrittenSoFar(m: seq<byte>, n: seq<byte>, script: seq<Outcome>, addr: nat, data: seq<byte>, done: nat)
    requires done <= |data|
  {
    Honest(script) ==> n == Programmed(m, addr, data[..done])
  }

  lemma FurtherWritten(m: seq<byte>, n: seq<byte>, p: seq<byte>, script: seq<Outcome>,
                       addr: nat, data: seq<byte>, done: nat, more: nat)
    requires done + more <= |data| && addr + |data| <= |m|
    requires WrittenSoFar(m, n, script, addr, data, done)
    requires Honest(script) ==> p == Programmed(n, addr + done, data[done..done + more])
    ensures WrittenSoFar(m, p, script, addr, data, done + more)
  {
    ProgramInTwo(m, addr, data[..done], data[done..done + more], data[..done + more]);
  }

  lemma StagedFurther(m: seq<byte>, size: nat, more: seq<byte>)
    requires size + |more| <= REGION_SIZE && REGION_END <= |m|
    requires more == m[REGION_BASE + size..REGION_BASE + size + |more|]
    ensures Run(Step32, SEED32, Staged(m, size + |more|)) == Run(Step32, Run(Step32, SEED32, Staged(m, size)), more)
  {
    RunConcat(Step32, SEED32, Staged(m, size), more);
    assert Staged(m, size) + more == Staged(m, size + |more|);
  }

  /** Read the image back in 256-byte chunks through the streaming checksum. */
  method ComputeStagedCrc(flash: Flash, size: nat) returns (crc: bv32)
    requires size <= REGION_SIZE && REGION_END <= |flash.mem|
    ensures crc == Crc32(Staged(flash.mem, size))
  {
    var ctx := new StreamCrc();
    var addr := REGION_BASE;
    var remaining := size;
    while remaining > 0
      invariant 0 <= remaining <= size && addr == REGION_BASE + size - remaining
      invariant ctx.state == Run(Step32, SEED32, Staged(flash.mem, size - remaining))
    {
      var n := if remaining < 256 then remaining else 256;
      var buf := flash.Read(addr, n);
      StagedFurther(flash.mem, size - remaining, buf);
      ctx.Update(buf);
      addr, remaining := addr + n, remaining - n;
    }
    crc := ctx.Finalize();
  }
}
