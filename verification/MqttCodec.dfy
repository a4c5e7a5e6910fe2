/**
 * The publish packet of MQTT 3.1.1 (section 3.3) and the variable-length integer of its
 * fixed header (section 2.2.3), written into and parsed out of a caller's buffer.
 */
module MqttCodec {

  type octet = n: int | 0 <= n < 256

  const REMLEN_MAX: nat := 268435455
  const HEADER_ROOM: nat := 5

  // ------------------------------------------------------- the remaining length

  /** Seven bits a byte, low ones first, the top bit set on all but the last. */
  function RemLen(v: nat): (s: seq<octet>)
    ensures |s| >= 1
    ensures v < 128 ==> |s| == 1
    ensures v < 128 * 128 ==> |s| <= 2
    ensures v < 128 * 128 * 128 ==> |s| <= 3
    ensures v <= REMLEN_MAX ==> |s| <= 4
  {
    if v < 128 then [v] else [v % 128 + 128] + RemLen(v / 128)
  }

  /** The four lengths of an encoding, byte by byte. */
  lemma RemLenBytes(v: nat)
    ensures v < 0x80 ==> RemLen(v) == [v]
    ensures 0x80 <= v < 0x4000 ==> RemLen(v) == [v % 0x80 + 0x80, v / 0x80]
    ensures 0x4000 <= v < 0x20_0000 ==>
      RemLen(v) == [v % 0x80 + 0x80, v / 0x80 % 0x80 + 0x80, v / 0x80 / 0x80]
    ensures 0x20_0000 <= v <= REMLEN_MAX ==>
      RemLen(v) == [v % 0x80 + 0x80, v / 0x80 % 0x80 + 0x80, v / 0x80 / 0x80 % 0x80 + 0x80, v / 0x80 / 0x80 / 0x80]
  {
    RemLenOne(v);
    if v >= 0x80 {
      RemLenOne(v / 0x80);
      if v >= 0x4000 {
        RemLenOne(v / 0x80 / 0x80);
        if v >= 0x20_0000 {
          RemLenOne(v / 0x80 / 0x80 / 0x80);
        }
      }
    }
  }

  lemma RemLenOne(v: nat)
    ensures v < 0x80 ==> RemLen(v) == [v]
    ensures v >= 0x80 ==> RemLen(v) == [v % 0x80 + 0x80] + RemLen(v / 0x80)
  {
  }

  /** A decoded value and the number of bytes it took. */
  datatype Decoded = Bad | Value(v: nat, consumed: nat)

  /** At most `left` bytes are looked at. */
  function DecodeIn(s: seq<octet>, left: nat): (d: Decoded)
    ensures d.Value? ==> 1 <= d.consumed <= left && d.consumed <= |s|
    decreases left, |s|
  {
    if s == [] || left == 0 then Bad
    else if s[0] < 128 then Value(s[0], 1)
    else match DecodeIn(s[1..], left - 1)
      case Bad => Bad
      case Value(v, c) => Value(s[0] - 128 + 128 * v, c + 1)
  }

  /** The encoding is read back, to the byte, whatever follows it. */
  lemma {:induction false} RemLenReadBack(v: nat, left: nat, rest: seq<octet>)
    requires |RemLen(v)| <= left
    ensures DecodeIn(RemLen(v) + rest, left) == Value(v, |RemLen(v)|)
    decreases v
  {
    if v >= 128 {
      RemLenReadBack(v / 128, left - 1, rest);
      assert (RemLen(v) + rest)[1..] == RemLen(v / 128) + rest;
    }
  }

  /** The decoder also takes padded encodings; it undoes the encoder exactly on those that are not padded. */
  lemma {:induction false} UnpaddedIsRemLen(s: seq<octet>, left: nat)
    requires DecodeIn(s, left).Value?
    ensures var c := DecodeIn(s, left).consumed;
      RemLen(DecodeIn(s, left).v) == s[..c] <==> c == 1 || s[c - 1] != 0
    decreases left
  {
    if s[0] >= 128 {
      var d := DecodeIn(s[1..], left - 1);
      UnpaddedIsRemLen(s[1..], left - 1);
      LastSeven(s, d.v, d.consumed);
    }
  }

  lemma LastSeven(s: seq<octet>, v: nat, c: nat)
    requires 1 <= c < |s| && s[0] >= 128
    requires RemLen(v) == s[1..][..c] <==> c == 1 || s[1..][c - 1] != 0
    requires c == 1 ==> v == s[1]
    ensures RemLen(s[0] - 128 + 128 * v) == s[..c + 1] <==> s[c] != 0
  {
    var w := s[0] - 128 + 128 * v;
    assert s[1..][c - 1] == s[c];
    assert s[..c + 1] == [s[0]] + s[1..][..c];
    if v == 0 {
      assert RemLen(0) == [0] && RemLen(w) == [w];
      assert |s[1..][..c]| == c && |s[..c + 1]| == c + 1;
    } else {
      assert w >= 128 && w % 128 == s[0] - 128 && w / 128 == v;
      assert RemLen(w) == [s[0]] + RemLen(v);
      assert RemLen(w)[1..] == RemLen(v) && s[..c + 1][1..] == s[1..][..c];
    }
  }

  method EncodeRemLen(out: array<octet>, value: nat) returns (n: int)
    requires out.Length >= 4
    modifies out
    ensures n == -1 <==> value > REMLEN_MAX
    ensures n != -1 ==> 1 <= n <= 4 && out[..n] == RemLen(value)
  {
    if value > REMLEN_MAX {
      return -1;
    }
    n := 0;
    var rest := value;
    var more := true;
    ghost var tail := RemLen(value);
    while more
      invariant 0 <= n && n + |tail| == |RemLen(value)| <= 4
      invariant more ==> tail == RemLen(rest)
      invariant !more ==> tail == []
      invariant out[..n] + tail == RemLen(value)
      decreases |tail|
    {
      ghost var done := out[..n];
      rest := EmitByte(out, n, rest);
      n := n + 1;
      more := rest > 0;
      OneByteOver(done, tail, out[..n]);
      tail := tail[1..];
    }
    assert out[..n] + [] == out[..n];
  }

  /** A byte moved from what is to come to what is done. */
  lemma OneByteOver(done: seq<octet>, tail: seq<octet>, next: seq<octet>)
    requires tail != [] && next == done + [tail[0]]
    ensures next + tail[1..] == done + tail
  {
  }

  method EmitByte(out: array<octet>, n: nat, rest: nat) returns (left: nat)
    requires n < out.Length
    modifies out
    ensures out[..n + 1] == old(out[..n]) + [RemLen(rest)[0]]
    ensures RemLen(rest)[1..] == if left > 0 then RemLen(left) else []
  {
    var b;
    b, left := NextByte(rest);
    out[n] := b;
  }

  /** The next byte of an encoding and what is left to encode. */
  method NextByte(rest: nat) returns (b: octet, left: nat)
    ensures RemLen(rest)[0] == b && RemLen(rest)[1..] == if left > 0 then RemLen(left) else []
  {
    b := rest % 128;
    left := rest / 128;
    if left > 0 {
      b := b + 128;
    }
  }

  /** `v` shifted up by seven bits `i` times. */
  function Up(v: nat, i: nat): nat {
    if i == 0 then v
    else if i == 1 then 0x80 * v
    else if i == 2 then 0x4000 * v
    else if i == 3 then 0x20_0000 * v
    else 0x1000_0000 * v
  }

  /** The decoding loop as a function. */
  function DecodeFrom(s: seq<octet>, i: nat, value: nat): Decoded
    decreases 4 - i, |s|
  {
    if i >= |s| || i >= 4 then Bad
    else if s[i] < 128 then Value(value + Up(s[i], i), i + 1)
    else DecodeFrom(s, i + 1, value + Up(s[i] - 128, i))
  }

  /** What the bytes still to come contribute to a value of which `i` bytes have been read. */
  function Shifted(d: Decoded, value: nat, i: nat): Decoded {
    match d
    case Bad => Bad
    case Value(v, c) => Value(value + Up(v, i), i + c)
  }

  lemma {:induction false} LoopDecodes(s: seq<octet>, i: nat, value: nat)
    requires i <= |s| && i <= 4
    ensures DecodeFrom(s, i, value) == Shifted(DecodeIn(s[i..], 4 - i), value, i)
    decreases 4 - i
  {
    if i < |s| && i < 4 && s[i] >= 128 {
      assert s[i..][1..] == s[i + 1..];
      LoopDecodes(s, i + 1, value + Up(s[i] - 128, i));
    }
  }

  method DecodeRemLen(s: seq<octet>) returns (d: Decoded)
    ensures d == DecodeIn(s, 4)
  {
    var value: nat, i: nat := 0, 0;
    LoopDecodes(s, 0, 0);
    assert s[0..] == s;
    while i < |s| && i < 4
      invariant i <= 4 && i <= |s|
      invariant DecodeFrom(s, i, value) == DecodeIn(s, 4)
    {
      var low: nat := if s[i] >= 128 then s[i] - 128 else s[i];
      value := value + Up(low, i);
      if s[i] < 128 {
        return Value(value, i + 1);
      }
      i := i + 1;
    }
    d := Bad;
  }

  // ------------------------------------------------------------------- publish

  function Str(s: seq<octet>): (r: seq<octet>)
    requires |s| <= 0xFFFF
    ensures |r| == 2 + |s|
  {
    [|s| / 256, |s| % 256] + s
  }

  function Body(topic: seq<octet>, payload: seq<octet>): (r: seq<octet>)
    requires |topic| <= 0xFFFF
    ensures |r| == 2 + |topic| + |payload|
  {
    Str(topic) + payload
  }

  predicate Fits(topic: seq<octet>, payload: seq<octet>) {
    |topic| <= 0xFFFF && 2 + |topic| + |payload| <= REMLEN_MAX
  }

  function Publish(topic: seq<octet>, payload: seq<octet>, retain: bool): (r: seq<octet>)
    requires Fits(topic, payload)
  {
    [if retain then 0x31 else 0x30] + RemLen(2 + |topic| + |payload|) + Body(topic, payload)
  }

  datatype Message = NotPublish | Message(topic: seq<octet>, payload: seq<octet>)

  /** The top four bits name the packet type, bits 1 and 2 the quality of service. */
  predicate IsPublish(b: octet) {
    b / 16 == 3
  }

  predicate QosZero(b: octet) {
    b / 2 % 4 == 0
  }

  /** Two bytes, high one first. */
  function Word(hi: octet, lo: octet): (n: nat)
    ensures n <= 0xFFFF
  {
    var h: int := hi;
    h * 256 + lo
  }

  function Parsed(buf: seq<octet>): Message {
    if |buf| < 2 || !IsPublish(buf[0]) || !QosZero(buf[0]) then NotPublish
    else
      var d := DecodeIn(buf[1..], 4);
      if d.Bad? then NotPublish else ParsedBody(buf, 1 + d.consumed, d.v)
  }

  /** The variable header and the payload, after `header` bytes and `remlen` bytes long. */
  function ParsedBody(buf: seq<octet>, header: nat, remlen: nat): Message
    requires header <= |buf|
  {
    if remlen > |buf| - header || remlen < 2 then NotPublish
    else
      var n := Word(buf[header], buf[header + 1]);
      if remlen < 2 + n then NotPublish
      else Message(buf[header + 2..header + 2 + n], buf[header + 2 + n..header + remlen])
  }

  /** Parsing undoes building, whatever follows the packet. */
  lemma PublishReadBack(topic: seq<octet>, payload: seq<octet>, retain: bool, rest: seq<octet>)
    requires Fits(topic, payload)
    ensures Parsed(Publish(topic, payload, retain) + rest) == Message(topic, payload)
  {
    var len := 2 + |topic| + |payload|;
    RemLenReadBack(len, 4, Body(topic, payload) + rest);
    HeaderReadBack(if retain then 0x31 else 0x30, RemLen(len), topic, payload, rest);
  }

  lemma HeaderReadBack(flags: octet, rl: seq<octet>, topic: seq<octet>, payload: seq<octet>, rest: seq<octet>)
    requires IsPublish(flags) && QosZero(flags) && |topic| <= 0xFFFF
    requires DecodeIn(rl + (Body(topic, payload) + rest), 4) == Value(2 + |topic| + |payload|, |rl|)
    ensures Parsed([flags] + rl + Body(topic, payload) + rest) == Message(topic, payload)
  {
    HeaderParts(flags, rl, Body(topic, payload), rest);
    BodyReadBack([flags] + rl + Body(topic, payload) + rest, 1 + |rl|, topic, payload, rest);
  }

  lemma BodyReadBack(buf: seq<octet>, header: nat, topic: seq<octet>, payload: seq<octet>, rest: seq<octet>)
    requires header <= |buf| && |topic| <= 0xFFFF
    requires buf[header..] == Body(topic, payload) + rest
    ensures ParsedBody(buf, header, 2 + |topic| + |payload|) == Message(topic, payload)
  {
    BodyParts(buf, header, topic, payload, rest);
  }

  lemma HeaderParts(flags: octet, rl: seq<octet>, body: seq<octet>, rest: seq<octet>)
    ensures var buf := [flags] + rl + body + rest;
      buf[0] == flags && buf[1..] == rl + (body + rest) && buf[1 + |rl|..] == body + rest
  {
  }

  lemma BodyParts(buf: seq<octet>, header: nat, topic: seq<octet>, payload: seq<octet>, rest: seq<octet>)
    requires header <= |buf| && |topic| <= 0xFFFF
    requires buf[header..] == Body(topic, payload) + rest
    ensures var n := |topic|;
      && header + 2 + n + |payload| <= |buf|
      && Word(buf[header], buf[header + 1]) == n
      && buf[header + 2..header + 2 + n] == topic
      && buf[header + 2 + n..header + 2 + n + |payload|] == payload
  {
    var n := |topic|;
    assert |buf| - header == 2 + n + |payload| + |rest|;
    assert buf[header] == buf[header..][0] && buf[header + 1] == buf[header..][1];
    SliceOfSuffix(buf, header, 2, 2 + n);
    SliceOfSuffix(buf, header, 2 + n, 2 + n + |payload|);
  }

  lemma SliceOfSuffix(s: seq<octet>, from: nat, lo: nat, hi: nat)
    requires lo <= hi && from + hi <= |s|
    ensures s[from..][lo..hi] == s[from + lo..from + hi]
  {
  }

  /**
   * Building undoes parsing on every accepted packet without the duplicate flag whose
   * length is not padded.
   */
  lemma ParsedRebuilt(buf: seq<octet>)
    requires Parsed(buf).Message?
    requires buf[0] == 0x30 || buf[0] == 0x31
    requires var c := DecodeIn(buf[1..], 4).consumed; c == 1 || buf[c] != 0
    ensures var m, d := Parsed(buf), DecodeIn(buf[1..], 4);
      && Fits(m.topic, m.payload)
      && Publish(m.topic, m.payload, buf[0] == 0x31) == buf[..1 + d.consumed + d.v]
  {
    var d := DecodeIn(buf[1..], 4);
    ParsedShape(buf);
    UnpaddedIsRemLen(buf[1..], 4);
    DecodedBounded(buf[1..], 4);
    Reassembled(buf, d.consumed, d.v);
  }

  lemma ParsedShape(buf: seq<octet>)
    requires Parsed(buf).Message?
    ensures var m, d := Parsed(buf), DecodeIn(buf[1..], 4);
      && d.Value? && |m.topic| <= 0xFFFF && d.v == 2 + |m.topic| + |m.payload|
      && 1 + d.consumed + d.v <= |buf|
      && Body(m.topic, m.payload) == buf[1 + d.consumed..1 + d.consumed + d.v]
  {
    var d := DecodeIn(buf[1..], 4);
    BodyRebuilt(buf, 1 + d.consumed, d.v);
  }

  /**
   * Exactly which packets are accepted: type PUBLISH with quality of service 0, with or
   * without the duplicate and retain flags, a length of at most four bytes, and within it
   * the topic and the payload.
   */
  lemma AcceptedExactly(buf: seq<octet>, topic: seq<octet>, payload: seq<octet>)
    requires |topic| <= 0xFFFF
    ensures Parsed(buf) == Message(topic, payload) <==>
      && |buf| >= 2 && buf[0] in {0x30, 0x31, 0x38, 0x39}
      && DecodeIn(buf[1..], 4).Value?
      && var c, n := DecodeIn(buf[1..], 4).consumed, 2 + |topic| + |payload|;
         DecodeIn(buf[1..], 4).v == n && 1 + c + n <= |buf| && buf[1 + c..1 + c + n] == Body(topic, payload)
  {
    if |buf| >= 2 && buf[0] in {0x30, 0x31, 0x38, 0x39} && DecodeIn(buf[1..], 4).Value? {
      var c, n := DecodeIn(buf[1..], 4).consumed, 2 + |topic| + |payload|;
      if DecodeIn(buf[1..], 4).v == n && 1 + c + n <= |buf| && buf[1 + c..1 + c + n] == Body(topic, payload) {
        assert buf[1 + c..] == buf[1 + c..1 + c + n] + buf[1 + c + n..];
        BodyReadBack(buf, 1 + c, topic, payload, buf[1 + c + n..]);
      }
    }
    if Parsed(buf) == Message(topic, payload) {
      ParsedShape(buf);
      FirstByte(buf[0]);
    }
    if |buf| >= 2 {
      FirstByte(buf[0]);
    }
  }

  lemma FirstByte(b: octet)
    ensures IsPublish(b) && QosZero(b) <==> b in {0x30, 0x31, 0x38, 0x39}
  {
  }

  lemma BodyRebuilt(buf: seq<octet>, header: nat, remlen: nat)
    requires header + remlen <= |buf| && remlen >= 2 && remlen >= 2 + Word(buf[header], buf[header + 1])
    ensures var n := Word(buf[header], buf[header + 1]);
      Body(buf[header + 2..header + 2 + n], buf[header + 2 + n..header + remlen]) == buf[header..header + remlen]
  {
    WordParts(buf[header], buf[header + 1]);
  }

  lemma Reassembled(buf: seq<octet>, c: nat, remlen: nat)
    requires 1 + c + remlen <= |buf|
    ensures [buf[0]] + buf[1..][..c] + buf[1 + c..1 + c + remlen] == buf[..1 + c + remlen]
  {
  }

  lemma WordParts(hi: octet, lo: octet)
    ensures Word(hi, lo) / 256 == hi && Word(hi, lo) % 256 == lo
  {
  }

  function Power(n: nat): nat {
    if n == 0 then 1 else 128 * Power(n - 1)
  }

  lemma {:induction false} DecodedBelow(s: seq<octet>, left: nat)
    ensures DecodeIn(s, left).Value? ==> DecodeIn(s, left).v < Power(left)
    decreases left
  {
    if s != [] && left != 0 {
      DecodedBelow(s[1..], left - 1);
      PowerPositive(left - 1);
    }
  }

  lemma {:induction false} PowerPositive(n: nat)
    ensures Power(n) >= 1
  {
    if n > 0 {
      PowerPositive(n - 1);
    }
  }

  lemma DecodedBounded(s: seq<octet>, left: nat)
    requires left == 4
    ensures DecodeIn(s, left).Value? ==> DecodeIn(s, left).v <= REMLEN_MAX
  {
    DecodedBelow(s, left);
    assert Power(left) == 128 * Power(left - 1);
    assert Power(left - 1) == 128 * Power(left - 2);
    assert Power(left - 2) == 128 * Power(left - 3);
    assert Power(left - 3) == 128 * Power(0);
  }

  /** Append a length-prefixed string at `at`; the bytes written, or -1. */
  method PutStr(buf: array<octet>, at: nat, room: nat, s: seq<octet>) returns (n: int)
    requires at + room <= buf.Length
    modifies buf
    ensures n == -1 <==> |s| > 0xFFFF || room < |s| + 2
    ensures n != -1 ==> n == |s| + 2 && buf[at..at + n] == Str(s)
  {
    if |s| > 0xFFFF || room < |s| + 2 {
      return -1;
    }
    buf[at] := |s| / 256;
    buf[at + 1] := |s| % 256;
    forall i | 0 <= i < |s| {
      buf[at + 2 + i] := s[i];
    }
    return |s| + 2;
  }

  /** Move the body against the header it turns out to need, and write that header. */
  method Finalize(buf: array<octet>, typeFlags: octet, len: nat) returns (total: int)
    requires HEADER_ROOM + len <= buf.Length
    modifies buf
    ensures total == -1 <==> len > REMLEN_MAX
    ensures total != -1 ==>
      0 <= total && total == 1 + |RemLen(len)| + len <= buf.Length
      && buf[..total] == [typeFlags] + RemLen(len) + old(buf[HEADER_ROOM..HEADER_ROOM + len])
  {
    var rl := new octet[4](_ => 0);
    var n := EncodeRemLen(rl, len);
    if n < 0 {
      return -1;
    }
    total := 1 + n + len;
    if total > buf.Length {
      return -1;
    }
    MoveAndHead(buf, typeFlags, rl[..n], len);
  }

  method MoveAndHead(buf: array<octet>, typeFlags: octet, rl: seq<octet>, len: nat)
    requires |rl| <= 4 && HEADER_ROOM + len <= buf.Length
    modifies buf
    ensures buf[..1 + |rl| + len] == [typeFlags] + rl + old(buf[HEADER_ROOM..HEADER_ROOM + len])
  {
    var n := 1 + |rl|;
    MoveBody(buf, n, len);
    ghost var moved := buf[..];
    WriteHeader(buf, typeFlags, rl);
    HeaderAndBody(buf[..], moved, n, len);
  }

  /** A rewritten front and an untouched back. */
  lemma HeaderAndBody(s: seq<octet>, before: seq<octet>, n: nat, len: nat)
    requires |s| == |before| && n + len <= |s| && s[n..] == before[n..]
    ensures s[..n + len] == s[..n] + before[n..n + len]
  {
    SliceOfSuffix(s, n, 0, len);
    SliceOfSuffix(before, n, 0, len);
  }

  method WriteHeader(buf: array<octet>, typeFlags: octet, rl: seq<octet>)
    requires 1 + |rl| <= buf.Length
    modifies buf
    ensures buf[..1 + |rl|] == [typeFlags] + rl
    ensures buf[1 + |rl|..] == old(buf[1 + |rl|..])
  {
    buf[0] := typeFlags;
    forall i | 0 <= i < |rl| {
      buf[1 + i] := rl[i];
    }
  }

  method MoveBody(buf: array<octet>, to: nat, len: nat)
    requires to <= HEADER_ROOM && HEADER_ROOM + len <= buf.Length
    modifies buf
    ensures buf[to..to + len] == old(buf[HEADER_ROOM..HEADER_ROOM + len])
  {
    forall i | 0 <= i < len {
      buf[to + i] := buf[HEADER_ROOM + i];
    }
  }

  method Append(buf: array<octet>, from: nat, at: nat, s: seq<octet>)
    requires from <= at && at + |s| <= buf.Length
    modifies buf
    ensures buf[from..at + |s|] == old(buf[from..at]) + s
  {
    forall i | 0 <= i < |s| {
      buf[at + i] := s[i];
    }
    assert buf[from..at] == old(buf[from..at]) && buf[at..at + |s|] == s;
    assert buf[from..at + |s|] == buf[from..at] + buf[at..at + |s|];
  }

  /** Build a packet in the caller's buffer: its length, or -1 if it does not fit. */
  method EncodePublish(buf: array<octet>, topic: seq<octet>, payload: seq<octet>, retain: bool) returns (n: int)
    modifies buf
    ensures n == -1 <==>
      |topic| > 0xFFFF || buf.Length < 8 || buf.Length < HEADER_ROOM + 2 + |topic| + |payload|
      || 2 + |topic| + |payload| > REMLEN_MAX
    ensures n != -1 ==> 0 <= n <= buf.Length && buf[..n] == Publish(topic, payload, retain)
  {
    if buf.Length < 8 {
      return -1;
    }
    var room := buf.Length - HEADER_ROOM;
    var r := PutStr(buf, HEADER_ROOM, room, topic);
    if r < 0 {
      return -1;
    }
    var at := HEADER_ROOM + r;
    if room - r < |payload| {
      return -1;
    }
    Append(buf, HEADER_ROOM, at, payload);
    n := Finalize(buf, if retain then 0x31 else 0x30, r + |payload|);
  }

  /** Parse the packet at the start of the first `len` bytes. */
  method DecodePublish(buf: array<octet>, len: nat) returns (m: Message)
    requires len <= buf.Length
    ensures m == Parsed(buf[..len])
    ensures m.Message? ==> buf[0] in {0x30, 0x31, 0x38, 0x39}
  {
    if len < 2 {
      return NotPublish;
    }
    if buf[0] / 16 != 3 {
      return NotPublish;
    }
    if buf[0] / 2 % 4 != 0 {
      return NotPublish;
    }
    assert buf[..len][1..] == buf[1..len];
    var d := DecodeRemLen(buf[1..len]);
    if d.Bad? {
      return NotPublish;
    }
    var remlen, consumed := d.v, d.consumed;
    var header := 1 + consumed;
    m := DecodeBody(buf, len, header, remlen);
  }

  method DecodeBody(buf: array<octet>, len: nat, header: nat, remlen: nat) returns (m: Message)
    requires header <= len <= buf.Length
    ensures m == ParsedBody(buf[..len], header, remlen)
  {
    if header > len || remlen > len - header {
      return NotPublish;
    }
    if remlen < 2 {
      return NotPublish;
    }
    var topicLen := Word(buf[header], buf[header + 1]);
    if remlen < 2 + topicLen {
      return NotPublish;
    }
    SliceOfPrefix(buf[..], len, header + 2, header + 2 + topicLen);
    SliceOfPrefix(buf[..], len, header + 2 + topicLen, header + remlen);
    return Message(buf[header + 2..header + 2 + topicLen], buf[header + 2 + topicLen..header + remlen]);
  }

  lemma SliceOfPrefix(s: seq<octet>, len: nat, lo: nat, hi: nat)
    requires lo <= hi <= len <= |s|
    ensures s[..len][lo..hi] == s[lo..hi]
  {
  }
}
