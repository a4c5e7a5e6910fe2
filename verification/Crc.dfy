/**
 * The two checksums of the firmware: CRC-32 (IEEE 802.3, reflected), one-shot and
 * streaming, and CRC-16/CCITT-FALSE. Both are folds of one bit step, and each bit step
 * is an invertible linear map on the register.
 */
module Crc {
  import opened Bytes
  import opened Fold

  // ---------------------------------------------------------------- CRC-32

  const SEED32: bv32 := 0xFFFFFFFF

  function Bit32(c: bv32): bv32 {
    (c >> 1) ^ (0xEDB88320 & (0 - (c & 1)))
  }

  function Xor32(a: bv32, b: bv32): bv32 {
    a ^ b
  }

  /** The register after one more message byte. */
  function Step32(c: bv32, b: byte): bv32 {
    Iterate(Bit32, Xor32(c, b as bv32), 8)
  }

  function Not32(c: bv32): bv32 {
    !c
  }

  function Crc32(s: seq<byte>): bv32 {
    Not32(Run(Step32, SEED32, s))
  }

  /** The inner loop that the one-shot and the streaming form share. */
  method RollByte32(c: bv32, b: byte) returns (crc: bv32)
    ensures crc == Step32(c, b)
  {
    crc := c ^ (b as bv32);
    for i := 0 to 8
      invariant crc == Iterate(Bit32, Xor32(c, b as bv32), i)
    {
      crc := (crc >> 1) ^ (0xEDB88320 & (0 - (crc & 1)));
    }
  }

  method RollAll32(c: bv32, data: seq<byte>) returns (crc: bv32)
    ensures crc == Run(Step32, c, data)
  {
    crc := c;
    for k := 0 to |data|
      invariant crc == Run(Step32, c, data[..k])
    {
      assert data[..k + 1][..k] == data[..k];
      crc := RollByte32(crc, data[k]);
    }
    assert data[..|data|] == data;
  }

  method ComputeCrc32(data: seq<byte>) returns (crc: bv32)
    ensures crc == Crc32(data)
  {
    var register := RollAll32(SEED32, data);
    crc := !register;
  }

  /** The streaming form: `state` is the register before the final complement. */
  class StreamCrc {
    var state: bv32

    constructor ()
      ensures state == SEED32
    {
      state := SEED32;
    }

    method Init()
      modifies this
      ensures state == SEED32
    {
      state := SEED32;
    }

    method Update(data: seq<byte>)
      modifies this
      ensures state == Run(Step32, old(state), data)
    {
      state := RollAll32(state, data);
    }

    function Finalize(): bv32
      reads this
    {
      Not32(state)
    }
  }

  /** Feeding any split of a message to the streaming form gives the one-shot checksum. */
  method StreamAll(chunks: seq<seq<byte>>) returns (crc: bv32)
    ensures crc == Crc32(Flatten(chunks))
  {
    var ctx := new StreamCrc();
    for k := 0 to |chunks|
      invariant ctx.state == Run(Step32, SEED32, Flatten(chunks[..k]))
    {
      assert chunks[..k + 1][..k] == chunks[..k];
      RunConcat(Step32, SEED32, Flatten(chunks[..k]), chunks[k]);
      ctx.Update(chunks[k]);
    }
    assert chunks[..|chunks|] == chunks;
    crc := ctx.Finalize();
  }

  // -------------------------------------------- CRC-32: linear and invertible

  lemma LowBit(a: bv32)
    ensures a & 1 == 0 || a & 1 == 1
  {
  }

  lemma Bit32OddOdd(a: bv32, b: bv32)
    requires a & 1 == 1 && b & 1 == 1
    ensures Bit32(a ^ b) == Bit32(a) ^ Bit32(b)
  {
  }

  lemma Bit32OddEven(a: bv32, b: bv32)
    requires a & 1 == 1 && b & 1 == 0
    ensures Bit32(a ^ b) == Bit32(a) ^ Bit32(b)
  {
  }

  lemma Bit32EvenOdd(a: bv32, b: bv32)
    requires a & 1 == 0 && b & 1 == 1
    ensures Bit32(a ^ b) == Bit32(a) ^ Bit32(b)
  {
  }

  lemma Bit32EvenEven(a: bv32, b: bv32)
    requires a & 1 == 0 && b & 1 == 0
    ensures Bit32(a ^ b) == Bit32(a) ^ Bit32(b)
  {
  }

  lemma Bit32Additive(a: bv32, b: bv32)
    ensures Bit32(Xor32(a, b)) == Xor32(Bit32(a), Bit32(b))
  {
    LowBit(a);
    LowBit(b);
    if a & 1 == 1 {
      if b & 1 == 1 { Bit32OddOdd(a, b); } else { Bit32OddEven(a, b); }
    } else {
      if b & 1 == 1 { Bit32EvenOdd(a, b); } else { Bit32EvenEven(a, b); }
    }
  }

  lemma Bit32Injective(a: bv32, b: bv32)
    requires Bit32(a) == Bit32(b)
    ensures a == b
  {
  }

  lemma Bit32Algebra()
    ensures Injective(Bit32) && Additive(Bit32, Xor32)
  {
    forall a, b | Bit32(a) == Bit32(b) ensures a == b {
      Bit32Injective(a, b);
    }
    forall a, b ensures Bit32(Xor32(a, b)) == Xor32(Bit32(a), Bit32(b)) {
      Bit32Additive(a, b);
    }
  }

  lemma XorCancels32(a: bv32, b: bv32, x: bv32)
    requires Xor32(a, x) == Xor32(b, x)
    ensures a == b
  {
  }

  lemma Step32KeepsApart()
    ensures KeepsApart(Step32)
  {
    Bit32Algebra();
    forall a, b, x | Step32(a, x) == Step32(b, x) ensures a == b {
      IterateInjective(Bit32, Xor32(a, x as bv32), Xor32(b, x as bv32), 8);
      XorCancels32(a, b, x as bv32);
    }
  }

  /** Eight bit steps just shift out a zero byte. */
  lemma ShiftOut32(y: bv32)
    requires y & 0xFF == 0
    ensures Iterate(Bit32, y, 8) == y >> 8
  {
    Iterate8(Bit32, y);
  }

  lemma MovedUpOnce32(b: bv32)
    requires b <= 0xFF
    ensures Iterate(Bit32, b << 8, 8) == b
  {
    ShiftOut32(b << 8);
  }

  lemma MovedUpTwice32(b: bv32)
    requires b <= 0xFF
    ensures Iterate(Bit32, b << 16, 16) == b
  {
    ShiftOut32(b << 16);
    assert (b << 16) >> 8 == b << 8;
    MovedUpOnce32(b);
    IterateSum(Bit32, b << 16, 8, 8);
  }

  lemma MovedUpThrice32(b: bv32)
    requires b <= 0xFF
    ensures Iterate(Bit32, b << 24, 24) == b
  {
    ShiftOut32(b << 24);
    assert (b << 24) >> 8 == b << 16;
    MovedUpTwice32(b);
    IterateSum(Bit32, b << 24, 8, 16);
  }

  /** A byte that enters after `n` bit steps, if `y` becomes that byte in `n` steps, is `y` entering first. */
  lemma Feed32(x: bv32, n: nat, b: byte, y: bv32)
    requires Iterate(Bit32, y, n) == b as bv32
    ensures Step32(Iterate(Bit32, x, n), b) == Iterate(Bit32, Xor32(x, y), n + 8)
  {
    Bit32Algebra();
    FedLater(Bit32, Xor32, x, n, y, 8);
  }

  lemma FeedTwo32(r: bv32, x: bv32, n: nat, b0: byte, b1: byte, y0: bv32, y1: bv32)
    requires r == Iterate(Bit32, x, n)
    requires Iterate(Bit32, y0, n) == b0 as bv32
    requires Iterate(Bit32, y1, n + 8) == b1 as bv32
    ensures Step32(Step32(r, b0), b1) == Iterate(Bit32, Xor32(Xor32(x, y0), y1), n + 16)
  {
    Feed32(x, n, b0, y0);
    Feed32(Xor32(x, y0), n + 8, b1, y1);
  }

  lemma FeedFour32(c: bv32, b0: byte, b1: byte, b2: byte, b3: byte, y0: bv32, y1: bv32, y2: bv32, y3: bv32)
    requires Iterate(Bit32, y0, 0) == b0 as bv32
    requires Iterate(Bit32, y1, 8) == b1 as bv32
    requires Iterate(Bit32, y2, 16) == b2 as bv32
    requires Iterate(Bit32, y3, 24) == b3 as bv32
    ensures Step32(Step32(Step32(Step32(c, b0), b1), b2), b3)
         == Iterate(Bit32, Xor32(Xor32(Xor32(Xor32(c, y0), y1), y2), y3), 32)
  {
    var r := Step32(Step32(c, b0), b1);
    var x := Xor32(Xor32(c, y0), y1);
    assert r == Iterate(Bit32, x, 16) by {
      FeedTwo32(c, c, 0, b0, b1, y0, y1);
    }
    FeedTwo32(r, x, 16, b2, b3, y2, y3);
  }

  /** The register after four bytes: 32 bit steps on the register plus the little-endian word. */
  lemma Run32OfWord(c: bv32, u: seq<byte>)
    requires |u| == 4
    ensures Run(Step32, c, u) == Iterate(Bit32, Xor32(c, Le32(u)), 32)
  {
    MovedUpOnce32(u[1] as bv32);
    MovedUpTwice32(u[2] as bv32);
    MovedUpThrice32(u[3] as bv32);
    var y0, y1, y2, y3 := u[0] as bv32, (u[1] as bv32) << 8, (u[2] as bv32) << 16, (u[3] as bv32) << 24;
    FeedFour32(c, u[0], u[1], u[2], u[3], y0, y1, y2, y3);
    Run4(Step32, c, u);
    XorAssociatesFour32(c, y0, y1, y2, y3);
    Le32IsXor(u);
  }

  lemma XorAssociatesFour32(c: bv32, y0: bv32, y1: bv32, y2: bv32, y3: bv32)
    ensures Xor32(Xor32(Xor32(Xor32(c, y0), y1), y2), y3) == Xor32(c, Xor32(Xor32(Xor32(y0, y1), y2), y3))
  {
    XorAssociates32(c, y0, y1);
    XorAssociates32(c, Xor32(y0, y1), y2);
    XorAssociates32(c, Xor32(Xor32(y0, y1), y2), y3);
  }

  lemma XorAssociates32(a: bv32, b: bv32, c: bv32)
    ensures Xor32(Xor32(a, b), c) == Xor32(a, Xor32(b, c))
  {
  }

  lemma Le32IsXor(u: seq<byte>)
    requires |u| == 4
    ensures Le32(u)
         == Xor32(Xor32(Xor32(u[0] as bv32, (u[1] as bv32) << 8), (u[2] as bv32) << 16), (u[3] as bv32) << 24)
  {
  }

  lemma Step32SeparatesWindows()
    ensures SeparatesWindows(Step32, 4)
  {
    forall c, u: seq<byte>, v: seq<byte> | |u| == 4 && |v| == 4 && Run(Step32, c, u) == Run(Step32, c, v)
      ensures u == v
    {
      Bit32Algebra();
      Run32OfWord(c, u);
      Run32OfWord(c, v);
      IterateInjective(Bit32, Xor32(c, Le32(u)), Xor32(c, Le32(v)), 32);
      XorCancelsLeft32(c, Le32(u), Le32(v));
      Le32StoresWhatItLoaded(u);
      Le32StoresWhatItLoaded(v);
    }
  }

  lemma XorCancelsLeft32(c: bv32, a: bv32, b: bv32)
    requires Xor32(c, a) == Xor32(c, b)
    ensures a == b
  {
  }

  /** Registers separate any two messages that differ only within four consecutive bytes. */
  lemma Run32DetectsBursts(p: seq<byte>, u: seq<byte>, v: seq<byte>, q: seq<byte>)
    requires |u| == |v| <= 4
    requires Run(Step32, SEED32, p + u + q) == Run(Step32, SEED32, p + v + q)
    ensures u == v
  {
    Step32KeepsApart();
    Step32SeparatesWindows();
    BurstDetected(Step32, 4, SEED32, p, u, v, q);
  }

  /** CRC-32 detects every error burst confined to four consecutive bytes. */
  lemma Crc32DetectsBursts(p: seq<byte>, u: seq<byte>, v: seq<byte>, q: seq<byte>)
    requires |u| == |v| <= 4
    requires Crc32(p + u + q) == Crc32(p + v + q)
    ensures u == v
  {
    NotCancels32(Run(Step32, SEED32, p + u + q), Run(Step32, SEED32, p + v + q));
    Run32DetectsBursts(p, u, v, q);
  }

  /** The register after any message followed by its own checksum. */
  const RESIDUE32: bv32 := Iterate(Bit32, 0xFFFFFFFF, 32)

  /** A message carries its right checksum exactly when running over both leaves the residue. */
  lemma ResidueDecides32(s: seq<byte>, u: seq<byte>)
    requires |u| == 4
    ensures Run(Step32, SEED32, s + u) == RESIDUE32 <==> Le32(u) == Crc32(s)
  {
    var c := Run(Step32, SEED32, s);
    RunConcat(Step32, SEED32, s, u);
    Run32OfWord(c, u);
    OnlyOnesLeaveResidue32(Xor32(c, Le32(u)));
    ComplementFills32(c, Le32(u));
  }

  lemma OnlyOnesLeaveResidue32(x: bv32)
    ensures Iterate(Bit32, x, 32) == RESIDUE32 <==> x == 0xFFFFFFFF
  {
    if Iterate(Bit32, x, 32) == RESIDUE32 {
      Bit32Algebra();
      IterateInjective(Bit32, x, 0xFFFFFFFF, 32);
    }
  }

  lemma ComplementFills32(c: bv32, w: bv32)
    ensures Xor32(c, w) == 0xFFFFFFFF <==> w == Not32(c)
  {
    XorOfComplement32(c);
    if Xor32(c, w) == 0xFFFFFFFF {
      XorCancelsLeft32(c, w, Not32(c));
    }
  }

  lemma XorOfComplement32(c: bv32)
    ensures Xor32(c, Not32(c)) == 0xFFFFFFFF
  {
  }

  lemma NotCancels32(a: bv32, b: bv32)
    requires Not32(a) == Not32(b)
    ensures a == b
  {
  }

  // ---------------------------------------------------------------- CRC-16

  const SEED16: bv16 := 0xFFFF

  function Bit16(c: bv16): bv16 {
    if c & 0x8000 != 0 then (c << 1) ^ 0x1021 else c << 1
  }

  function Xor16(a: bv16, b: bv16): bv16 {
    a ^ b
  }

  function Step16(c: bv16, b: byte): bv16 {
    Iterate(Bit16, Xor16(c, (b as bv16) << 8), 8)
  }

  function Crc16(s: seq<byte>): bv16 {
    Run(Step16, SEED16, s)
  }

  method ComputeCrc16(data: seq<byte>) returns (crc: bv16)
    ensures crc == Crc16(data)
  {
    crc := SEED16;
    for k := 0 to |data|
      invariant crc == Run(Step16, SEED16, data[..k])
    {
      assert data[..k + 1][..k] == data[..k];
      crc := RollByte16(crc, data[k]);
    }
    assert data[..|data|] == data;
  }

  method RollByte16(c: bv16, b: byte) returns (crc: bv16)
    ensures crc == Step16(c, b)
  {
    crc := c ^ ((b as bv16) << 8);
    ghost var start := crc;
    for i := 0 to 8
      invariant crc == Iterate(Bit16, start, i)
    {
      crc := RollBit16(crc);
    }
  }

  method RollBit16(c: bv16) returns (crc: bv16)
    ensures crc == Bit16(c)
  {
    if c & 0x8000 != 0 {
      crc := (c << 1) ^ 0x1021;
    } else {
      crc := c << 1;
    }
  }

  lemma Bit16Additive(a: bv16, b: bv16)
    ensures Bit16(Xor16(a, b)) == Xor16(Bit16(a), Bit16(b))
  {
    TopBit(a);
    TopBit(b);
    if a & 0x8000 == 0 {
      if b & 0x8000 == 0 { Bit16LowLow(a, b); } else { Bit16LowHigh(a, b); }
    } else {
      if b & 0x8000 == 0 { Bit16HighLow(a, b); } else { Bit16HighHigh(a, b); }
    }
  }

  lemma TopBit(a: bv16)
    ensures a & 0x8000 == 0 || a & 0x8000 == 0x8000
  {
  }

  lemma Bit16LowLow(a: bv16, b: bv16)
    requires a & 0x8000 == 0 && b & 0x8000 == 0
    ensures Bit16(Xor16(a, b)) == Xor16(Bit16(a), Bit16(b))
  {
  }

  lemma Bit16LowHigh(a: bv16, b: bv16)
    requires a & 0x8000 == 0 && b & 0x8000 == 0x8000
    ensures Bit16(Xor16(a, b)) == Xor16(Bit16(a), Bit16(b))
  {
  }

  lemma Bit16HighLow(a: bv16, b: bv16)
    requires a & 0x8000 == 0x8000 && b & 0x8000 == 0
    ensures Bit16(Xor16(a, b)) == Xor16(Bit16(a), Bit16(b))
  {
  }

  lemma Bit16HighHigh(a: bv16, b: bv16)
    requires a & 0x8000 == 0x8000 && b & 0x8000 == 0x8000
    ensures Bit16(Xor16(a, b)) == Xor16(Bit16(a), Bit16(b))
  {
  }

  lemma Bit16Injective(a: bv16, b: bv16)
    requires Bit16(a) == Bit16(b)
    ensures a == b
  {
    TopBit(a);
    TopBit(b);
    Bit16SameTop(a, b);
    if a & 0x8000 == 0 { Bit16InjectiveLow(a, b); } else { Bit16InjectiveHigh(a, b); }
  }

  lemma Bit16SameTop(a: bv16, b: bv16)
    requires Bit16(a) == Bit16(b)
    ensures a & 0x8000 == b & 0x8000
  {
    if a & 0x8000 == 0 && b & 0x8000 != 0 {
      Bit16TopDiffers(a, b);
    } else if a & 0x8000 != 0 && b & 0x8000 == 0 {
      Bit16TopDiffers(b, a);
    } else {
      TopBit(a);
      TopBit(b);
    }
  }

  lemma Bit16TopDiffers(a: bv16, b: bv16)
    requires a & 0x8000 == 0 && b & 0x8000 != 0
    ensures Bit16(a) != Bit16(b)
  {
  }

  lemma Bit16InjectiveLow(a: bv16, b: bv16)
    requires a & 0x8000 == 0 && b & 0x8000 == 0 && Bit16(a) == Bit16(b)
    ensures a == b
  {
  }

  lemma Bit16InjectiveHigh(a: bv16, b: bv16)
    requires a & 0x8000 == 0x8000 && b & 0x8000 == 0x8000 && Bit16(a) == Bit16(b)
    ensures a == b
  {
  }

  lemma Bit16Algebra()
    ensures Injective(Bit16) && Additive(Bit16, Xor16)
  {
    forall a, b | Bit16(a) == Bit16(b) ensures a == b {
      Bit16Injective(a, b);
    }
    forall a, b ensures Bit16(Xor16(a, b)) == Xor16(Bit16(a), Bit16(b)) {
      Bit16Additive(a, b);
    }
  }

  lemma XorCancels16(a: bv16, b: bv16, x: bv16)
    requires Xor16(a, x) == Xor16(b, x)
    ensures a == b
  {
  }

  lemma Step16KeepsApart()
    ensures KeepsApart(Step16)
  {
    Bit16Algebra();
    forall a, b, x | Step16(a, x) == Step16(b, x) ensures a == b {
      IterateInjective(Bit16, Xor16(a, (x as bv16) << 8), Xor16(b, (x as bv16) << 8), 8);
      XorCancels16(a, b, (x as bv16) << 8);
    }
  }

  lemma MovedUp16(b: bv16)
    requires b <= 0xFF
    ensures Iterate(Bit16, b, 8) == b << 8
  {
    Iterate8(Bit16, b);
  }

  /** Two bytes as one big-endian word. */
  function Be16(u: seq<byte>): bv16
    requires |u| == 2
  {
    Xor16((u[0] as bv16) << 8, u[1] as bv16)
  }

  lemma Be16Injective(a: byte, b: byte, p: byte, q: byte)
    requires Be16([a, b]) == Be16([p, q])
    ensures a == p && b == q
  {
  }

  lemma Run16OfPair(c: bv16, u: seq<byte>)
    requires |u| == 2
    ensures Run(Step16, c, u) == Iterate(Bit16, Xor16(c, Be16(u)), 16)
  {
    Run2(Step16, c, u);
    FeedPair16(c, u[0], u[1]);
    assert u == [u[0], u[1]];
  }

  lemma FeedPair16(c: bv16, b0: byte, b1: byte)
    ensures Step16(Step16(c, b0), b1) == Iterate(Bit16, Xor16(c, Be16([b0, b1])), 16)
  {
    FeedTwo16(c, b0, b1);
    XorAssociates16(c, (b0 as bv16) << 8, b1 as bv16);
  }

  lemma FeedTwo16(c: bv16, b0: byte, b1: byte)
    ensures Step16(Step16(c, b0), b1) == Iterate(Bit16, Xor16(Xor16(c, (b0 as bv16) << 8), b1 as bv16), 16)
  {
    MovedUp16(b1 as bv16);
    Bit16Algebra();
    FedLater(Bit16, Xor16, Xor16(c, (b0 as bv16) << 8), 8, b1 as bv16, 8);
  }

  lemma XorAssociates16(a: bv16, b: bv16, c: bv16)
    ensures Xor16(Xor16(a, b), c) == Xor16(a, Xor16(b, c))
  {
  }

  lemma XorCancelsLeft16(c: bv16, a: bv16, b: bv16)
    requires Xor16(c, a) == Xor16(c, b)
    ensures a == b
  {
  }

  lemma Step16SeparatesWindows()
    ensures SeparatesWindows(Step16, 2)
  {
    forall c, u: seq<byte>, v: seq<byte> | |u| == 2 && |v| == 2 && Run(Step16, c, u) == Run(Step16, c, v)
      ensures u == v
    {
      Bit16Algebra();
      Run16OfPair(c, u);
      Run16OfPair(c, v);
      IterateInjective(Bit16, Xor16(c, Be16(u)), Xor16(c, Be16(v)), 16);
      XorCancelsLeft16(c, Be16(u), Be16(v));
      assert u == [u[0], u[1]] && v == [v[0], v[1]];
      Be16Injective(u[0], u[1], v[0], v[1]);
    }
  }

  /** CRC-16 detects every error burst confined to two consecutive bytes. */
  lemma Crc16DetectsBursts(p: seq<byte>, u: seq<byte>, v: seq<byte>, q: seq<byte>)
    requires |u| == |v| <= 2
    requires Crc16(p + u + q) == Crc16(p + v + q)
    ensures u == v
  {
    Step16KeepsApart();
    Step16SeparatesWindows();
    BurstDetected(Step16, 2, SEED16, p, u, v, q);
  }

  /** The register after any message followed by its own CRC-16, high byte first. */
  const RESIDUE16: bv16 := Iterate(Bit16, 0, 16)

  /** A message carries its right CRC-16 exactly when running over both leaves the residue. */
  lemma ResidueDecides16(s: seq<byte>, u: seq<byte>)
    requires |u| == 2
    ensures Run(Step16, SEED16, s + u) == RESIDUE16 <==> Be16(u) == Crc16(s)
  {
    var c := Run(Step16, SEED16, s);
    RunConcat(Step16, SEED16, s, u);
    Run16OfPair(c, u);
    OnlyZeroLeavesResidue16(Xor16(c, Be16(u)));
    ZeroSum16(c, Be16(u));
  }

  lemma OnlyZeroLeavesResidue16(x: bv16)
    ensures Iterate(Bit16, x, 16) == RESIDUE16 <==> x == 0
  {
    if Iterate(Bit16, x, 16) == RESIDUE16 {
      Bit16Algebra();
      IterateInjective(Bit16, x, 0, 16);
    }
  }

  lemma ZeroSum16(a: bv16, b: bv16)
    ensures Xor16(a, b) == 0 <==> a == b
  {
  }

  /** A message followed by its CRC-16 with at most two consecutive bytes altered, wherever they are, is rejected. */
  lemma Run16DetectsBursts(p: seq<byte>, u: seq<byte>, v: seq<byte>, q: seq<byte>)
    requires |u| == |v| <= 2
    requires Run(Step16, SEED16, p + u + q) == Run(Step16, SEED16, p + v + q)
    ensures u == v
  {
    Step16KeepsApart();
    Step16SeparatesWindows();
    BurstDetected(Step16, 2, SEED16, p, u, v, q);
  }
}
