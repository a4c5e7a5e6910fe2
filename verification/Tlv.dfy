/**
 * The link-layer frame: two start bytes, a little-endian length, command, sequence number,
 * payload, and a big-endian CRC-16 over everything from the length on.
 */
module Tlv {
  import opened Bytes
  import opened Fold
  import opened Crc

  const SOF0: byte := 0xA5
  const SOF1: byte := 0x5A
  const HDR_LEN: nat := 6
  const CRC_LEN: nat := 2
  const PAYLOAD_MAX: nat := 56
  const FRAME_MIN: nat := 8
  const FRAME_MAX: nat := 64

  datatype Frame = Frame(cmd: byte, tag: byte, payload: seq<byte>)

  /** What a parser makes of a buffer: more bytes needed, skip one, or a frame of `total` bytes. */
  datatype Verdict = NeedMore | Resync | Got(frame: Frame, total: nat)

  predicate Fits(f: Frame) {
    |f.payload| <= PAYLOAD_MAX
  }

  function Hi(c: bv16): byte {
    ((c >> 8) & 0xFF) as byte
  }

  function Lo(c: bv16): byte {
    (c & 0xFF) as byte
  }

  function Joined(hi: byte, lo: byte): bv16 {
    ((hi as bv16) << 8) | (lo as bv16)
  }

  lemma JoinedHalves(c: bv16)
    ensures Joined(Hi(c), Lo(c)) == c
  {
  }

  lemma HalvesOfJoined(hi: byte, lo: byte)
    ensures Hi(Joined(hi, lo)) == hi && Lo(Joined(hi, lo)) == lo
  {
  }

  /** The protocol, for whatever checksum it is used with. */
  datatype Codec = Codec(crc: seq<byte> -> bv16) {

    /** The checksummed part of a frame. */
    function Body(f: Frame): (s: seq<byte>)
      requires Fits(f)
      ensures |s| == 4 + |f.payload|
    {
      Store16(2 + |f.payload|) + [f.cmd, f.tag] + f.payload
    }

    function Built(f: Frame): (s: seq<byte>)
      requires Fits(f)
      ensures |s| == HDR_LEN + |f.payload| + CRC_LEN
    {
      [SOF0, SOF1] + Body(f) + [Hi(crc(Body(f))), Lo(crc(Body(f)))]
    }

    /** Where everything stands in a frame. */
    lemma FrameLayout(f: Frame)
      requires Fits(f)
      ensures var s, n := Built(f), |f.payload|;
        && s[0] == 0xA5 && s[1] == 0x5A && Load16(s[2..4]) == n + 2
        && s[4] == f.cmd && s[5] == f.tag && s[6..6 + n] == f.payload
        && Be16(s[6 + n..]) == crc(s[2..6 + n])
    {
      var s, n := Built(f), |f.payload|;
      Load16OfStore16(2 + n);
      assert s[2..4] == Store16(2 + n);
      assert s[2..6 + n] == Body(f);
      JoinedHalves(crc(Body(f)));
      JoinedIsBe16(s[6 + n..]);
    }

    function Parsed(buf: seq<byte>): (v: Verdict)
      ensures v.Got? ==> Fits(v.frame) && v.total == HDR_LEN + |v.frame.payload| + CRC_LEN <= |buf|
      ensures v.NeedMore? ==> |buf| < FRAME_MAX
      ensures v.Resync? ==> |buf| >= HDR_LEN + CRC_LEN
    {
      if |buf| < HDR_LEN + CRC_LEN then NeedMore
      else if buf[0] != SOF0 || buf[1] != SOF1 then Resync
      else
        var len := Load16(buf[2..4]);
        if len < 2 || len > 2 + PAYLOAD_MAX then Resync
        else
          var total := HDR_LEN + (len - 2) + CRC_LEN;
          if |buf| < total then NeedMore
          else if Joined(buf[total - 2], buf[total - 1]) != crc(buf[2..total - 2]) then Resync
          else Got(Frame(buf[4], buf[5], buf[HDR_LEN..total - CRC_LEN]), total)
    }

    /** A frame is found exactly where a built frame stands: one direction ... */
    lemma ParseOfBuilt(f: Frame, rest: seq<byte>)
      requires Fits(f)
      ensures Parsed(Built(f) + rest) == Got(f, |Built(f)|)
    {
      var buf := Built(f) + rest;
      Load16OfStore16(2 + |f.payload|);
      assert buf[2..4] == Store16(2 + |f.payload|);
      var total := |Built(f)|;
      assert buf[2..total - 2] == Body(f);
      assert buf[HDR_LEN..total - CRC_LEN] == f.payload;
      JoinedHalves(crc(Body(f)));
    }

    /** ... and the other. */
    lemma BuiltOfParsed(buf: seq<byte>)
      requires Parsed(buf).Got?
      ensures buf[..Parsed(buf).total] == Built(Parsed(buf).frame)
    {
      var f, total := Parsed(buf).frame, Parsed(buf).total;
      Store16OfLoad16(buf[2..4]);
      assert buf[2..total - 2] == Body(f);
      HalvesOfJoined(buf[total - 2], buf[total - 1]);
    }

    /** A verdict other than `NeedMore` does not change when more bytes arrive. */
    lemma VerdictIsFinal(buf: seq<byte>, more: seq<byte>)
      requires !Parsed(buf).NeedMore?
      ensures Parsed(buf + more) == Parsed(buf)
    {
      if buf[0] == SOF0 && buf[1] == SOF1 {
        assert (buf + more)[2..4] == buf[2..4];
        var len := Load16(buf[2..4]);
        if 2 <= len <= 2 + PAYLOAD_MAX {
          var total := HDR_LEN + (len - 2) + CRC_LEN;
          assert (buf + more)[2..total - 2] == buf[2..total - 2];
          assert (buf + more)[HDR_LEN..total - CRC_LEN] == buf[HDR_LEN..total - CRC_LEN];
        }
      }
    }

    /** While a frame is arriving the parser waits. */
    lemma PrefixNeedsMore(f: Frame, n: nat)
      requires Fits(f) && n < |Built(f)|
      ensures Parsed(Built(f)[..n]) == NeedMore
    {
      if n >= HDR_LEN + CRC_LEN {
        Load16OfStore16(2 + |f.payload|);
        assert Built(f)[..n][2..4] == Store16(2 + |f.payload|);
      }
    }
  }

  lemma JoinedIsBe16(u: seq<byte>)
    requires |u| == 2
    ensures Joined(u[0], u[1]) == Be16(u)
  {
  }

  /** The checksum test of the parser, as a test on the whole checksummed part and its checksum. */
  lemma ChecksOut(s: seq<byte>)
    requires |s| >= 2
    ensures var n := |s| - 2;
      Joined(s[n], s[n + 1]) == Crc16(s[..n]) <==> Run(Step16, SEED16, s) == RESIDUE16
  {
    var n := |s| - 2;
    ResidueDecides16(s[..n], s[n..]);
    JoinedIsBe16(s[n..]);
    assert s[..n] + s[n..] == s;
  }

  /**
   * A frame in which at most two consecutive bytes have changed, other than the length
   * field, is never taken for a frame: the parser resynchronises.
   */
  lemma BurstRejected(f: Frame, p: seq<byte>, u: seq<byte>, v: seq<byte>, q: seq<byte>, rest: seq<byte>)
    requires Fits(f) && Codec(Crc16).Built(f) == p + u + q
    requires |u| == |v| <= 2 && u != v
    requires |p| >= 4 || |p| + |u| <= 2
    ensures Codec(Crc16).Parsed(p + v + q + rest) == Resync
  {
    if |p| >= 4 {
      CorruptBody(Codec(Crc16), f, p, u, v, q, rest);
    } else {
      CorruptStart(Codec(Crc16).Built(f), p, u, v, q);
    }
  }

  lemma CorruptStart(good: seq<byte>, p: seq<byte>, u: seq<byte>, v: seq<byte>, q: seq<byte>)
    requires |good| >= 2 && good == p + u + q && good[0] == SOF0 && good[1] == SOF1
    requires |u| == |v| && u != v && |p| + |u| <= 2
    ensures (p + v + q)[0] != SOF0 || (p + v + q)[1] != SOF1
  {
  }

  lemma CorruptBody(codec: Codec, f: Frame, p: seq<byte>, u: seq<byte>, v: seq<byte>, q: seq<byte>, rest: seq<byte>)
    requires codec == Codec(Crc16)
    requires Fits(f) && codec.Built(f) == p + u + q
    requires |u| == |v| <= 2 && u != v && |p| >= 4
    ensures codec.Parsed(p + v + q + rest) == Resync
  {
    GoodChecksOut(codec, f);
    TailOf(p, u, q, []);
    TailOf(p, v, q, rest);
    BadDoesNot(p[2..], u, v, q);
    assert codec.Built(f)[..4] == p[..4];
    SameLengthField(codec, f, p + v + q + rest);
  }

  lemma TailOf(p: seq<byte>, v: seq<byte>, q: seq<byte>, rest: seq<byte>)
    requires |p| >= 4
    ensures var buf, n, tail := p + v + q + rest, |p + v + q|, p[2..] + v + q;
      && (p + v + q)[2..] == tail && buf[..4] == p[..4] && buf[2..n - 2] == tail[..|tail| - 2]
      && buf[n - 2] == tail[|tail| - 2] && buf[n - 1] == tail[|tail| - 1]
  {
  }

  lemma BadDoesNot(p: seq<byte>, u: seq<byte>, v: seq<byte>, q: seq<byte>)
    requires |p| >= 2 && |u| == |v| <= 2 && u != v
    requires Run(Step16, SEED16, p + u + q) == RESIDUE16
    ensures var s := p + v + q;
      Joined(s[|s| - 2], s[|s| - 1]) != Crc16(s[..|s| - 2])
  {
    ChecksOut(p + v + q);
    if Run(Step16, SEED16, p + v + q) == RESIDUE16 {
      Run16DetectsBursts(p, u, v, q);
    }
  }

  /** With the start and length bytes of a frame in place, only the checksum decides. */
  lemma SameLengthField(codec: Codec, f: Frame, buf: seq<byte>)
    requires Fits(f) && |buf| >= |codec.Built(f)| && buf[..4] == codec.Built(f)[..4]
    ensures var n := |codec.Built(f)|;
      Joined(buf[n - 2], buf[n - 1]) != codec.crc(buf[2..n - 2]) ==> codec.Parsed(buf) == Resync
  {
    var good := codec.Built(f);
    assert buf[0] == buf[..4][0] && buf[1] == buf[..4][1];
    assert buf[2..4] == buf[..4][2..] && good[2..4] == good[..4][2..];
    Load16OfStore16(2 + |f.payload|);
    assert good[2..4] == Store16(2 + |f.payload|);
  }

  lemma GoodChecksOut(codec: Codec, f: Frame)
    requires codec == Codec(Crc16) && Fits(f)
    ensures Run(Step16, SEED16, codec.Built(f)[2..]) == RESIDUE16
  {
    var body := codec.Body(f);
    var tail := codec.Built(f)[2..];
    assert tail == body + [Hi(codec.crc(body)), Lo(codec.crc(body))];
    JoinedHalves(codec.crc(body));
    ChecksOut(tail);
  }

  /** Write a frame into a buffer: its length, or -1 if the payload or the frame does not fit. */
  method Build(codec: Codec, cmd: byte, tag: byte, payload: seq<byte>, out: array<byte>) returns (rc: int)
    modifies out
    ensures rc == -1 <==> |payload| > 56 || out.Length < |payload| + 8
    ensures rc == -1 ==> out[..] == old(out[..])
    ensures rc != -1 ==>
      rc == |codec.Built(Frame(cmd, tag, payload))| && out[..rc] == codec.Built(Frame(cmd, tag, payload))
      && out[rc..] == old(out[rc..])
  {
    if |payload| > PAYLOAD_MAX {
      return -1;
    }
    var total := HDR_LEN + |payload| + CRC_LEN;
    if out.Length < total {
      return -1;
    }
    WriteHeader(2 + |payload|, cmd, tag, out);
    ghost var beyond := out[HDR_LEN..][|payload|..];
    WritePayload(payload, out);
    assert out[total..] == beyond[CRC_LEN..] == old(out[total..]);
    ghost var covered := out[2..total - 2];
    var crc := codec.crc(out[2..total - 2]);
    out[total - 2] := Hi(crc);
    out[total - 1] := Lo(crc);
    assert out[2..total - 2] == covered;
    assert out[..][..HDR_LEN] == out[..HDR_LEN];
    Assembled(codec, Frame(cmd, tag, payload), out[..]);
    return total;
  }

  lemma Assembled(codec: Codec, f: Frame, s: seq<byte>)
    requires Fits(f) && |s| >= |codec.Built(f)|
    requires s[..HDR_LEN] == [SOF0, SOF1] + Store16(2 + |f.payload|) + [f.cmd, f.tag]
    requires s[HDR_LEN..HDR_LEN + |f.payload|] == f.payload
    requires var n := |codec.Built(f)|;
      s[n - 2] == Hi(codec.crc(s[2..n - 2])) && s[n - 1] == Lo(codec.crc(s[2..n - 2]))
    ensures s[..|codec.Built(f)|] == codec.Built(f)
  {
    var n := |codec.Built(f)|;
    var head := s[..HDR_LEN];
    assert s[2..n - 2] == head[2..] + s[HDR_LEN..n - 2];
    assert s[2..n - 2] == codec.Body(f);
    assert s[..n] == head[..2] + s[2..n - 2] + [s[n - 2], s[n - 1]];
  }

  method WritePayload(payload: seq<byte>, out: array<byte>)
    requires out.Length >= HDR_LEN + |payload|
    modifies out
    ensures out[HDR_LEN..HDR_LEN + |payload|] == payload
    ensures out[..HDR_LEN] == old(out[..HDR_LEN])
    ensures out[HDR_LEN + |payload|..] == old(out[HDR_LEN + |payload|..])
  {
    for i := 0 to |payload|
      invariant out[HDR_LEN..HDR_LEN + i] == payload[..i]
      invariant out[..HDR_LEN] == old(out[..HDR_LEN])
      invariant out[HDR_LEN + |payload|..] == old(out[HDR_LEN + |payload|..])
    {
      out[HDR_LEN + i] := payload[i];
    }
  }

  method WriteHeader(len: nat, cmd: byte, tag: byte, out: array<byte>)
    requires out.Length >= HDR_LEN && len < 0x1_0000
    modifies out
    ensures out[..HDR_LEN] == [SOF0, SOF1] + Store16(len) + [cmd, tag]
    ensures out[HDR_LEN..] == old(out[HDR_LEN..])
  {
    out[0] := SOF0;
    out[1] := SOF1;
    out[2] := Byt(len % 0x100);
    out[3] := Byt(len / 0x100);
    out[4] := cmd;
    out[5] := tag;
  }

  /** Look for a frame at the start of the first `len` bytes. */
  method Parse(codec: Codec, buf: array<byte>, len: nat) returns (v: Verdict)
    requires len <= buf.Length
    ensures v == codec.Parsed(buf[..len])
  {
    if len < HDR_LEN + CRC_LEN {
      return NeedMore;
    }
    if buf[0] != SOF0 || buf[1] != SOF1 {
      return Resync;
    }
    var lenField := Num(buf[2]) + 0x100 * Num(buf[3]);
    if lenField < 2 || lenField > 2 + PAYLOAD_MAX {
      return Resync;
    }
    var plen := lenField - 2;
    var total := HDR_LEN + plen + CRC_LEN;
    if len < total {
      return NeedMore;
    }
    var got := Joined(buf[HDR_LEN + plen], buf[HDR_LEN + plen + 1]);
    var want := codec.crc(buf[2..HDR_LEN + plen]);
    assert buf[..len][2..total - 2] == buf[2..HDR_LEN + plen];
    if got != want {
      return Resync;
    }
    assert buf[..len][HDR_LEN..total - CRC_LEN] == buf[HDR_LEN..HDR_LEN + plen];
    return Got(Frame(buf[4], buf[5], buf[HDR_LEN..HDR_LEN + plen]), total);
  }
}
