/**
 * The external NOR flash, as the persistence layer may rely on it: an erase sets a whole
 * 4 KB sector to 0xFF, a program ANDs bytes within one 256-byte page, and either may
 * report an error or be cut short by a loss of power.
 */
module W25q {
  import opened Bytes

  const PAGE: nat := 256
  const SECTOR: nat := 4096

  /**
   * What an unsuccessful operation left of the bytes it was to change: all of them as they
   * were, all of them changed, or arbitrary ones. An erase is to change its sector, a
   * program the bytes it is given.
   */
  datatype Remnant = Untouched | Finished | Torn(left: seq<byte>)

  /**
   * The fate of one erase or program: it works, reports an error, loses power, or (a
   * program only) reports success although the bytes are not what was asked for.
   */
  datatype Outcome = Works | Fails(remnant: Remnant) | Cut(remnant: Remnant) | Silent(remnant: Remnant)

  function SectorOf(addr: nat): nat {
    addr / SECTOR * SECTOR
  }

  /** `m` with the sector containing `addr` set to 0xFF. */
  function Erased(m: seq<byte>, addr: nat): (r: seq<byte>)
    ensures |r| == |m|
    ensures forall i :: 0 <= i < |m| ==> r[i] == if SectorOf(addr) <= i < SectorOf(addr) + SECTOR then 0xFF else m[i]
  {
    seq(|m|, i requires 0 <= i < |m| => if SectorOf(addr) <= i < SectorOf(addr) + SECTOR then 0xFF else m[i])
  }

  /** `m` with `data` ANDed into the bytes from `addr`. */
  function Programmed(m: seq<byte>, addr: nat, data: seq<byte>): (r: seq<byte>)
    ensures |r| == |m|
    ensures forall i :: 0 <= i < |m| ==> r[i] == if addr <= i < addr + |data| then m[i] & data[i - addr] else m[i]
  {
    seq(|m|, i requires 0 <= i < |m| => if addr <= i < addr + |data| then m[i] & data[i - addr] else m[i])
  }

  /** `m` with arbitrary bytes in the sector containing `addr`. */
  function TornIn(m: seq<byte>, addr: nat, left: seq<byte>): (r: seq<byte>)
    ensures |r| == |m|
    ensures forall i :: 0 <= i < |m| ==>
      r[i] == if SectorOf(addr) <= i < SectorOf(addr) + |left| && i < SectorOf(addr) + SECTOR
              then left[i - SectorOf(addr)] else m[i]
  {
    seq(|m|, i requires 0 <= i < |m| =>
      if SectorOf(addr) <= i < SectorOf(addr) + |left| && i < SectorOf(addr) + SECTOR
      then left[i - SectorOf(addr)] else m[i])
  }

  function Aftermath(before: seq<byte>, finished: seq<byte>, addr: nat, r: Remnant): (m: seq<byte>)
    requires |finished| == |before|
    ensures |m| == |before|
  {
    match r
    case Untouched => before
    case Finished => finished
    case Torn(left) => TornIn(before, addr, left)
  }

  /** `m` with arbitrary bytes among the `n` from `addr` on. */
  function TornAt(m: seq<byte>, addr: nat, n: nat, left: seq<byte>): (r: seq<byte>)
    ensures |r| == |m|
    ensures forall i :: 0 <= i < |m| ==>
      r[i] == if addr <= i < addr + n && i < addr + |left| then left[i - addr] else m[i]
  {
    seq(|m|, i requires 0 <= i < |m| => if addr <= i < addr + n && i < addr + |left| then left[i - addr] else m[i])
  }

  /** What a program leaves that did not work. */
  function HalfProgrammed(m: seq<byte>, addr: nat, data: seq<byte>, r: Remnant): (p: seq<byte>)
    ensures |p| == |m|
  {
    match r
    case Untouched => m
    case Finished => Programmed(m, addr, data)
    case Torn(left) => TornAt(m, addr, |data|, left)
  }

  /** Errors of the device are reported, if not avoided. */
  ghost predicate Honest(script: seq<Outcome>) {
    forall o :: o in script ==> !o.Silent?
  }

  predicate InOnePage(addr: nat, n: nat) {
    0 < n <= PAGE && addr / PAGE == (addr + n - 1) / PAGE
  }

  class Flash {
    var mem: seq<byte>
    /** Whether the board has power. Without it no operation has any effect. */
    var powered: bool
    /** The fates of the coming operations; an exhausted script means they all work. */
    var script: seq<Outcome>

    constructor (contents: seq<byte>, fates: seq<Outcome>)
      ensures mem == contents && powered && script == fates
    {
      mem := contents;
      powered := true;
      script := fates;
    }

    function Next(): Outcome
      reads this
    {
      if script == [] then Works else script[0]
    }

    function Rest(): seq<Outcome>
      reads this
    {
      if script == [] then [] else script[1..]
    }

    /** Power comes back: the contents are what they were. */
    method PowerUp()
      modifies this`powered
      ensures powered
    {
      powered := true;
    }

    method Read(addr: nat, n: nat) returns (data: seq<byte>)
      requires addr + n <= |mem|
      ensures data == mem[addr..addr + n]
    {
      data := mem[addr..addr + n];
    }

    method EraseSector(addr: nat) returns (rc: int)
      requires SectorOf(addr) + SECTOR <= |mem|
      modifies this
      ensures script == old(Rest())
      ensures forall o :: o in script ==> o in old(script)
      ensures old(Next()) == Works || old(Next()) in old(script)
      ensures !old(powered) ==> mem == old(mem) && !powered && rc == -1
      ensures old(powered) ==>
        match old(Next())
        case Works => mem == Erased(old(mem), addr) && powered && rc == 0
        case Fails(t) => mem == Aftermath(old(mem), Erased(old(mem), addr), addr, t) && powered && rc == -1
        case Silent(t) => mem == Aftermath(old(mem), Erased(old(mem), addr), addr, t) && powered && rc == -1
        case Cut(t) => mem == Aftermath(old(mem), Erased(old(mem), addr), addr, t) && !powered && rc == -1
    {
      var fate := Next();
      script := Rest();
      if !powered {
        return -1;
      }
      match fate {
        case Works =>
          mem := Erased(mem, addr);
          rc := 0;
        case Fails(t) =>
          mem := Aftermath(mem, Erased(mem, addr), addr, t);
          rc := -1;
        case Silent(t) =>
          mem := Aftermath(mem, Erased(mem, addr), addr, t);
          rc := -1;
        case Cut(t) =>
          mem := Aftermath(mem, Erased(mem, addr), addr, t);
          powered := false;
          rc := -1;
      }
    }

    /** The page rule of the device is the caller's obligation. */
    method Program(addr: nat, data: seq<byte>) returns (rc: int)
      requires InOnePage(addr, |data|)
      requires addr + |data| <= |mem|
      modifies this
      ensures script == old(Rest())
      ensures forall o :: o in script ==> o in old(script)
      ensures old(Next()) == Works || old(Next()) in old(script)
      ensures !old(powered) ==> mem == old(mem) && !powered && rc == -1
      ensures old(powered) ==>
        match old(Next())
        case Works => mem == Programmed(old(mem), addr, data) && powered && rc == 0
        case Fails(t) => mem == HalfProgrammed(old(mem), addr, data, t) && powered && rc == -1
        case Silent(t) => mem == HalfProgrammed(old(mem), addr, data, t) && powered && rc == 0
        case Cut(t) => mem == HalfProgrammed(old(mem), addr, data, t) && !powered && rc == -1
    {
      var fate := Next();
      script := Rest();
      if !powered {
        return -1;
      }
      match fate {
        case Works =>
          mem := Programmed(mem, addr, data);
          rc := 0;
        case Fails(t) =>
          mem := HalfProgrammed(mem, addr, data, t);
          rc := -1;
        case Silent(t) =>
          mem := HalfProgrammed(mem, addr, data, t);
          rc := 0;
        case Cut(t) =>
          mem := HalfProgrammed(mem, addr, data, t);
          powered := false;
          rc := -1;
      }
    }
  }

  /** Programming erased bytes stores the data. */
  lemma ProgramOnBlank(m: seq<byte>, addr: nat, data: seq<byte>)
    requires addr + |data| <= |m|
    requires forall i :: addr <= i < addr + |data| ==> m[i] == 0xFF
    ensures Programmed(m, addr, data)[addr..addr + |data|] == data
  {
    forall k | 0 <= k < |data| ensures Programmed(m, addr, data)[addr..addr + |data|][k] == data[k] {
      AndWithOnes(data[k]);
    }
  }

  lemma AndWithOnes(b: byte)
    ensures 0xFF & b == b
  {
  }
}
