/**
 * The boot configuration: a cached record whose setters change the cache first and then
 * store it. A setter that returns 0 need not have put its value on the flash, and this
 * module says exactly when it has.
 */
module BootConfig {
  import opened Bytes
  import opened W25q
  import opened PingPong

  const SLOT_A: nat := 0x000000
  const SLOT_B: nat := 0x001000
  const SIZE: nat := 32
  const VERSION: byte := 1

  const PENDING_OFF: nat := 10
  const IMAGE_SIZE_OFF: nat := 12
  const IMAGE_CRC_OFF: nat := 16

  /** The staged-image fields of a record. */
  datatype Ota = Ota(flag: byte, size: nat, crc: bv32)

  const NO_OTA := Ota(0, 0, 0)

  /** The fields the setters manage: everything but version, padding, counter and checksum. */
  function Payload(record: seq<byte>): (p: seq<byte>)
    ensures |p| == SIZE - 12
  {
    if |record| < SIZE then seq(SIZE - 12, _ => 0) else record[8..SIZE - 4]
  }

  function OtaOf(record: seq<byte>): Ota {
    OtaIn(Payload(record))
  }

  function OtaIn(p: seq<byte>): Ota
    requires |p| == SIZE - 12
  {
    Ota(p[PENDING_OFF - 8], Load32(p[IMAGE_SIZE_OFF - 8..IMAGE_SIZE_OFF - 4]),
        Le32(p[IMAGE_CRC_OFF - 8..IMAGE_CRC_OFF - 4]))
  }

  /** What a request to set the staged image amounts to: clearing ignores size and checksum. */
  function Requested(pending: bool, size: nat, crc: bv32): Ota {
    if pending then Ota(1, size, crc) else NO_OTA
  }

  /** The other settings, byte by byte: all but the flag, the size and the checksum of a staged image. */
  predicate OthersAlike(p: seq<byte>, q: seq<byte>)
    requires |p| == |q| == SIZE - 12
  {
    forall i :: 0 <= i < 20 && i != 2 && !(4 <= i <= 11) ==> p[i] == q[i]
  }

  lemma OthersTwice(p: seq<byte>, q: seq<byte>, r: seq<byte>)
    requires |p| == |q| == |r| == SIZE - 12 && OthersAlike(p, q) && OthersAlike(q, r)
    ensures OthersAlike(p, r)
  {
  }

  lemma OtaWritten(r: seq<byte>, o: Ota, n: seq<byte>, c: seq<byte>)
    requires |r| == SIZE && o.size < WRAP
    requires n == Store32(o.size) && c == Le32Bytes(o.crc)
    requires r[PENDING_OFF] == o.flag
    requires r[12] == n[0] && r[13] == n[1] && r[14] == n[2] && r[15] == n[3]
    requires r[16] == c[0] && r[17] == c[1] && r[18] == c[2] && r[19] == c[3]
    ensures OtaOf(r) == o
  {
    var p := Payload(r);
    FourBytes(p, 4, n);
    FourBytes(p, 8, c);
    Load32OfStore32(o.size);
    Le32LoadsWhatItStored(o.crc);
  }

  lemma FourBytes(p: seq<byte>, at: nat, w: seq<byte>)
    requires at + 4 <= |p| && |w| == 4
    requires p[at] == w[0] && p[at + 1] == w[1] && p[at + 2] == w[2] && p[at + 3] == w[3]
    ensures p[at..at + 4] == w
  {
  }

  lemma OthersFramed(r: seq<byte>, s: seq<byte>)
    requires |r| == |s| == SIZE
    requires forall i :: 0 <= i < SIZE && i != PENDING_OFF && !(12 <= i < 20) ==> s[i] == r[i]
    ensures OthersAlike(Payload(s), Payload(r))
  {
  }

  lemma StampKeepsPayload(l: Layout, r: seq<byte>, counter: nat)
    requires |r| == SIZE && counter < WRAP
    ensures Payload(l.Stamped(r, counter)) == Payload(r)
  {
    StampedFields(l, r, counter);
  }

  class Config {
    const flash: Flash
    const layout: Layout
    /** The cached record. */
    const cfg: array<byte>

    ghost predicate Valid()
      reads this, flash
    {
      && cfg.Length == SIZE == layout.size && layout.a == SLOT_A && layout.b == SLOT_B
      && layout.Fits(flash.mem, flash.script)
    }

    /** The record a load would find on the flash; empty if there is none. */
    ghost function Stored(): seq<byte>
      requires Valid()
      reads this, flash
    {
      Content(layout.Current(flash.mem))
    }

    /** Cache and flash agree. */
    ghost predicate Synced()
      requires Valid()
      reads this, flash, cfg
    {
      Payload(Stored()) == Payload(cfg[..])
    }

    /** Cache and flash agree on the other settings. */
    ghost predicate OthersAgree()
      requires Valid()
      reads this, flash, cfg
    {
      OthersAlike(Payload(Stored()), Payload(cfg[..]))
    }

    constructor (device: Flash, crc: seq<byte> -> bv32)
      requires Layout(SLOT_A, SLOT_B, SIZE, crc).Fits(device.mem, device.script)
      ensures Valid() && flash == device && layout.crc == crc && fresh(cfg)
    {
      flash := device;
      layout := Layout(SLOT_A, SLOT_B, SIZE, crc);
      cfg := new byte[SIZE](_ => 0);
    }

    /** Fill the cache; if no slot is valid, with defaults that are stored at once. */
    method LoadConfig() returns (rc: int)
      requires Valid()
      modifies cfg, flash
      ensures Valid()
      ensures old(Stored()) != [] ==> rc == 0 && flash.mem == old(flash.mem) && cfg[..] == old(Stored())
      ensures old(Stored()) == [] ==> Payload(cfg[..]) == seq(SIZE - 12, _ => 0)
      ensures rc == 0 ==> Synced() && Stored() == cfg[..]
      ensures old(Stored()) == [] ==> cfg[0] == 1
    {
      var loaded, slot, counter := Load(layout, flash, cfg);
      if loaded == 1 {
        forall i | 0 <= i < cfg.Length { cfg[i] := 0; }
        rc := StoreConfig();
      } else {
        rc := 0;
      }
    }

    /** Store the cache. */
    method StoreConfig() returns (rc: int)
      requires Valid()
      modifies cfg, flash
      ensures Valid()
      ensures Payload(cfg[..]) == old(Payload(cfg[..]))
      ensures Payload(Stored()) == old(Payload(Stored())) || Synced()
      ensures rc == 0 ==> Synced() && Stored() == cfg[..]
      ensures cfg[0] == 1
      ensures old(flash.powered) && AllWork(old(flash.script)) ==> rc == 0 && flash.powered
      ensures AllWork(old(flash.script)) ==> AllWork(flash.script)
      ensures old(flash.powered) && old(flash.Next()) == Fails(Untouched) ==> rc != 0 && flash.mem == old(flash.mem)
      ensures SameElsewhere(old(flash.mem), flash.mem, SLOT_A, SLOT_B)
    {
      cfg[0] := VERSION;
      ghost var given := cfg[..];
      StampKeepsPayload(layout, cfg[..], NextCounter(layout.Current(flash.mem)));
      var slot, counter;
      rc, slot, counter := Store(layout, flash, cfg);
      assert cfg[0] == cfg[..][..4][0] == given[..4][0];
    }

    /**
     * Set the staged-image fields. A return of 0 means they are on the flash, unless the
     * cache already held them while the flash did not: then nothing is written.
     */
    method SetPendingOta(pending: bool, size: nat, crc: bv32) returns (rc: int)
      requires Valid() && size < WRAP
      modifies cfg, flash
      ensures Valid()
      ensures OtaOf(cfg[..]) == Requested(pending, size, crc)
      ensures pending ==> OtaOf(cfg[..]) == Ota(1, size, crc)
      ensures !pending ==> OtaOf(cfg[..]) == Ota(0, 0, 0)
      ensures rc == 0 ==>
        (OtaOf(Stored()) == Requested(pending, size, crc)
         <==> old(OtaOf(cfg[..])) != Requested(pending, size, crc)
              || old(OtaOf(Stored())) == Requested(pending, size, crc))
      ensures rc == 0 && old(Synced()) ==> Synced()
      ensures OthersAlike(Payload(cfg[..]), old(Payload(cfg[..])))
      ensures Payload(Stored()) == old(Payload(Stored())) || OthersAlike(Payload(Stored()), old(Payload(cfg[..])))
      ensures old(OthersAgree()) ==> OthersAgree() && OthersAlike(Payload(Stored()), old(Payload(Stored())))
      ensures SameElsewhere(old(flash.mem), flash.mem, SLOT_A, SLOT_B)
      ensures old(flash.powered) && AllWork(old(flash.script)) ==> rc == 0
      ensures old(OtaOf(cfg[..])) != Requested(pending, size, crc) ==>
        (old(flash.powered) && old(flash.Next()) == Fails(Untouched) ==> rc != 0 && flash.mem == old(flash.mem))
      ensures old(OtaOf(cfg[..])) == Requested(pending, size, crc) ==>
        rc == 0 && flash.mem == old(flash.mem) && cfg[..] == old(cfg[..])
    {
      var want := Requested(pending, size, crc);
      if OtaOf(cfg[..]) == want {
        return 0;
      }
      var n, c := Store32(want.size), Le32Bytes(want.crc);
      ghost var was := cfg[..];
      WriteOta(want.flag, n, c);
      OthersFramed(was, cfg[..]);
      OtaWritten(cfg[..], want, n, c);
      rc := StoreConfig();
    }

    method WriteOta(flag: byte, n: seq<byte>, c: seq<byte>)
      requires cfg.Length == SIZE && |n| == |c| == 4
      modifies cfg
      ensures cfg[PENDING_OFF] == flag
      ensures cfg[12] == n[0] && cfg[13] == n[1] && cfg[14] == n[2] && cfg[15] == n[3]
      ensures cfg[16] == c[0] && cfg[17] == c[1] && cfg[18] == c[2] && cfg[19] == c[3]
      ensures forall i :: 0 <= i < SIZE && i != PENDING_OFF && !(12 <= i < 20) ==> cfg[i] == old(cfg[i])
    {
      cfg[PENDING_OFF] := flag;
      cfg[12], cfg[13], cfg[14], cfg[15] := n[0], n[1], n[2], n[3];
      cfg[16], cfg[17], cfg[18], cfg[19] := c[0], c[1], c[2], c[3];
    }
  }

  /** The gap is real: after one failed erase, the retry of the same request returns 0 and writes nothing. */
  method FailedThenRetried(config: Config, size: nat, crc: bv32) returns (first: int, second: int)
    requires config.Valid() && config.flash.powered && config.flash.Next() == Fails(Untouched)
    requires size < WRAP
    requires OtaOf(config.cfg[..]) == NO_OTA
    modifies config.cfg, config.flash
    ensures first != 0 && second == 0
    ensures config.flash.mem == old(config.flash.mem)
  {
    first := config.SetPendingOta(true, size, crc);
    second := config.SetPendingOta(true, size, crc);
  }
}
