/** Bytes, and the little-endian words that the on-flash and on-wire layouts use. */
module Bytes {

  type byte = bv8

  /** Erased flash. */
  function Blank(n: nat): (s: seq<byte>)
    ensures |s| == n
  {
    seq(n, _ => 0xFF)
  }

  /** The four-byte little-endian load of a 32-bit word. */
  function Le32(b: seq<byte>): bv32
    requires |b| == 4
  {
    (b[0] as bv32) | ((b[1] as bv32) << 8) | ((b[2] as bv32) << 16) | ((b[3] as bv32) << 24)
  }

  /** The four-byte little-endian store of a 32-bit word. */
  function Le32Bytes(v: bv32): (b: seq<byte>)
    ensures |b| == 4
  {
    [(v & 0xFF) as byte, ((v >> 8) & 0xFF) as byte, ((v >> 16) & 0xFF) as byte, ((v >> 24) & 0xFF) as byte]
  }

  lemma Le32LoadsWhatItStored(v: bv32)
    ensures Le32(Le32Bytes(v)) == v
  {
  }

  lemma Le32StoresWhatItLoaded(b: seq<byte>)
    requires |b| == 4
    ensures Le32Bytes(Le32(b)) == b
  {
    assert b == [b[0], b[1], b[2], b[3]];
    Le32Parts(b[0], b[1], b[2], b[3]);
  }

  lemma Le32Parts(b0: byte, b1: byte, b2: byte, b3: byte)
    ensures Le32Bytes(Le32([b0, b1, b2, b3])) == [b0, b1, b2, b3]
  {
  }

  /** The number a byte stands for, from its binary digits; `Byt` is its inverse below 256. */
  function Num(b: byte): (n: nat)
    ensures n == 0 <==> b == 0
    decreases b
  {
    if b == 0 then 0 else 2 * Num(b >> 1) + (if b & 1 == 1 then 1 else 0)
  }

  function Byt(n: nat): byte {
    if n == 0 then 0 else (Byt(n / 2) << 1) | (if n % 2 == 1 then 1 else 0)
  }

  lemma {:induction false} NumBounds(b: byte)
    ensures b & 0xFE == 0 ==> Num(b) < 2
    ensures b & 0xFC == 0 ==> Num(b) < 4
    ensures b & 0xF8 == 0 ==> Num(b) < 8
    ensures b & 0xF0 == 0 ==> Num(b) < 16
    ensures b & 0xE0 == 0 ==> Num(b) < 32
    ensures b & 0xC0 == 0 ==> Num(b) < 64
    ensures b & 0x80 == 0 ==> Num(b) < 128
    ensures Num(b) < 256
    decreases b
  {
    if b != 0 {
      NumBounds(b >> 1);
    }
  }

  lemma {:induction false} BytBounds(n: nat)
    requires n < 256
    ensures n < 2 ==> Byt(n) & 0xFE == 0
    ensures n < 4 ==> Byt(n) & 0xFC == 0
    ensures n < 8 ==> Byt(n) & 0xF8 == 0
    ensures n < 16 ==> Byt(n) & 0xF0 == 0
    ensures n < 32 ==> Byt(n) & 0xE0 == 0
    ensures n < 64 ==> Byt(n) & 0xC0 == 0
    ensures n < 128 ==> Byt(n) & 0x80 == 0
    decreases n
  {
    if n != 0 {
      BytBounds(n / 2);
    }
  }

  lemma {:induction false} NumOfByt(n: nat)
    requires n < 256
    ensures Num(Byt(n)) == n
    decreases n
  {
    if n != 0 {
      BytBounds(n / 2);
      ShiftedBack(Byt(n / 2), n % 2 == 1);
      NumOfByt(n / 2);
    }
  }

  lemma ShiftedBack(b: byte, odd: bool)
    requires b & 0x80 == 0
    ensures ((b << 1) | (if odd then 1 else 0)) >> 1 == b
    ensures ((b << 1) | (if odd then 1 else 0)) & 1 == if odd then 1 else 0
  {
  }

  lemma {:induction false} BytOfNum(b: byte)
    ensures Byt(Num(b)) == b
    decreases b
  {
    if b != 0 {
      BytOfNum(b >> 1);
      ShiftedForth(b);
    }
  }

  lemma ShiftedForth(b: byte)
    ensures ((b >> 1) << 1) | (if b & 1 == 1 then 1 else 0) == b
  {
  }

  /** A little-endian 32-bit field read as a number. */
  function Load32(b: seq<byte>): (n: nat)
    requires |b| == 4
  {
    Num(b[0]) + 0x100 * Num(b[1]) + 0x1_0000 * Num(b[2]) + 0x100_0000 * Num(b[3])
  }

  lemma Load32Bounded(b: seq<byte>)
    requires |b| == 4
    ensures Load32(b) < 0x1_0000_0000
  {
    NumBounds(b[0]);
    NumBounds(b[1]);
    NumBounds(b[2]);
    NumBounds(b[3]);
  }

  function Store32(n: nat): (b: seq<byte>)
    requires n < 0x1_0000_0000
    ensures |b| == 4
  {
    [Byt(n % 0x100), Byt(n / 0x100 % 0x100), Byt(n / 0x100 / 0x100 % 0x100), Byt(n / 0x100 / 0x100 / 0x100)]
  }

  lemma Load32OfStore32(n: nat)
    requires n < 0x1_0000_0000
    ensures Load32(Store32(n)) == n
  {
    var q1 := n / 0x100;
    var q2 := q1 / 0x100;
    var q3 := q2 / 0x100;
    NumOfByt(n % 0x100);
    NumOfByt(q1 % 0x100);
    NumOfByt(q2 % 0x100);
    NumOfByt(q3);
  }

  /** A little-endian 16-bit field, as a word and as a number. */
  function Le16(b: seq<byte>): bv16
    requires |b| == 2
  {
    (b[0] as bv16) | ((b[1] as bv16) << 8)
  }

  function Le16Bytes(v: bv16): (b: seq<byte>)
    ensures |b| == 2
  {
    [(v & 0xFF) as byte, (v >> 8) as byte]
  }

  lemma Le16LoadsWhatItStored(v: bv16)
    ensures Le16(Le16Bytes(v)) == v
  {
  }

  function Load16(b: seq<byte>): (n: nat)
    requires |b| == 2
  {
    Num(b[0]) + 0x100 * Num(b[1])
  }

  function Store16(n: nat): (b: seq<byte>)
    requires n < 0x1_0000
    ensures |b| == 2
  {
    [Byt(n % 0x100), Byt(n / 0x100)]
  }

  lemma Load16OfStore16(n: nat)
    requires n < 0x1_0000
    ensures Load16(Store16(n)) == n
  {
    NumOfByt(n % 0x100);
    NumOfByt(n / 0x100);
  }

  lemma Store16OfLoad16(b: seq<byte>)
    requires |b| == 2
    ensures Load16(b) < 0x1_0000 && Store16(Load16(b)) == b
  {
    NumBounds(b[0]);
    NumBounds(b[1]);
    BytOfNum(b[0]);
    BytOfNum(b[1]);
    assert Load16(b) % 0x100 == Num(b[0]) && Load16(b) / 0x100 == Num(b[1]);
  }
}
