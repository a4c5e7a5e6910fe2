/**
 * Parsing a byte stream greedily from left to right, for any frame parser: frames are
 * taken as they are found and one byte is skipped where there is none.
 */
module GreedyParse {
  import opened Bytes
  import opened Tlv

  type Parser = seq<byte> -> Verdict

  /** A parser makes progress within its input, and never waits for more than a frame. */
  ghost predicate Orderly(p: Parser) {
    forall s :: StepOk(p(s), |s|)
  }

  predicate StepOk(v: Verdict, n: nat) {
    match v
    case NeedMore => n < FRAME_MAX
    case Resync => n > 0
    case Got(_, total) => 0 < total <= n
  }

  /** A parser that has decided does not change its mind when more bytes arrive. */
  ghost predicate Steadfast(p: Parser) {
    forall s, t {:trigger p(s + t)} :: !p(s).NeedMore? ==> p(s + t) == p(s)
  }

  /** The bytes `w` stand for the frame `f`, whatever follows. */
  ghost predicate StandsFor(p: Parser, w: seq<byte>, f: Frame) {
    forall t {:trigger p(w + t)} :: p(w + t) == Got(f, |w|)
  }

  /** The frames found so far and the bytes still to be looked at. */
  datatype State = State(frames: seq<Frame>, left: seq<byte>)

  function Eaten(v: Verdict): nat {
    if v.Got? then v.total else 1
  }

  function Step(st: State, v: Verdict): State
    requires !v.NeedMore? && StepOk(v, |st.left|)
  {
    State(if v.Got? then st.frames + [v.frame] else st.frames, st.left[Eaten(v)..])
  }

  /** The state in which more bytes are needed. */
  ghost function Settled(p: Parser, st: State): (r: State)
    requires Orderly(p)
    ensures p(r.left).NeedMore? && |r.left| < FRAME_MAX
    decreases |st.left|
  {
    var v := p(st.left);
    if v.NeedMore? then st else Settled(p, Step(st, v))
  }

  /** The greedy parse of a whole stream. */
  ghost function Greedy(p: Parser, s: seq<byte>): State
    requires Orderly(p)
  {
    Settled(p, State([], s))
  }

  function Then(st: State, more: seq<byte>): State {
    State(st.frames, st.left + more)
  }

  /** Parsing in two instalments is parsing at once. */
  lemma {:induction false} ParseInInstalments(p: Parser, st: State, more: seq<byte>)
    requires Orderly(p) && Steadfast(p)
    ensures Settled(p, Then(st, more)) == Settled(p, Then(Settled(p, st), more))
    decreases |st.left|
  {
    var v := p(st.left);
    if !v.NeedMore? {
      assert p(st.left + more) == v;
      assert (st.left + more)[Eaten(v)..] == st.left[Eaten(v)..] + more;
      ParseInInstalments(p, Step(st, v), more);
    }
  }

  // ------------------------------------------------------------ what is found

  /** Words one after another. */
  function Concat(ws: seq<seq<byte>>): seq<byte> {
    if ws == [] then [] else ws[0] + Concat(ws[1..])
  }

  /** Frames sent back to back are found exactly, whatever follows them. */
  lemma {:induction false} SentFramesArrive(p: Parser, ws: seq<seq<byte>>, fs: seq<Frame>, done: seq<Frame>, tail: seq<byte>)
    requires Orderly(p) && |ws| == |fs|
    requires forall i :: 0 <= i < |ws| ==> StandsFor(p, ws[i], fs[i])
    ensures Settled(p, State(done, Concat(ws) + tail)) == Settled(p, State(done + fs, tail))
    decreases |ws|
  {
    if ws == [] {
      assert Concat(ws) + tail == tail && done + fs == done;
    } else {
      var others := Concat(ws[1..]) + tail;
      assert ws[0] + others == Concat(ws) + tail;
      assert done + [fs[0]] + fs[1..] == done + fs;
      OneArrives(p, ws[0], fs[0], done, others);
      SentFramesArrive(p, ws[1..], fs[1..], done + [fs[0]], tail);
    }
  }

  lemma OneArrives(p: Parser, w: seq<byte>, f: Frame, done: seq<Frame>, others: seq<byte>)
    requires Orderly(p) && StandsFor(p, w, f)
    ensures Settled(p, State(done, w + others)) == Settled(p, State(done + [f], others))
  {
    assert p(w + others) == Got(f, |w|);
    assert (w + others)[|w|..] == others;
  }

  /** The byte `b` starts no frame. */
  ghost predicate StartsNone(p: Parser, b: byte) {
    forall t {:trigger p([b] + t)} :: |t| >= FRAME_MIN - 1 ==> p([b] + t) == Resync
  }

  /** Noise of bytes that start no frame costs nothing but itself, once enough bytes have come. */
  lemma {:induction false} NoiseIsSkipped(p: Parser, noise: seq<byte>, done: seq<Frame>, s: seq<byte>)
    requires Orderly(p) && |s| >= FRAME_MIN - 1
    requires forall b :: b in noise ==> StartsNone(p, b)
    ensures Settled(p, State(done, noise + s)) == Settled(p, State(done, s))
    decreases |noise|
  {
    if noise == [] {
      assert noise + s == s;
    } else {
      var others := noise[1..] + s;
      assert noise + s == [noise[0]] + others;
      OneSkipped(p, noise[0], done, others);
      NoiseIsSkipped(p, noise[1..], done, s);
    }
  }

  lemma OneSkipped(p: Parser, b: byte, done: seq<Frame>, others: seq<byte>)
    requires Orderly(p) && StartsNone(p, b) && |others| >= FRAME_MIN - 1
    ensures Settled(p, State(done, [b] + others)) == Settled(p, State(done, others))
  {
    assert p([b] + others) == Resync;
    assert ([b] + others)[1..] == others;
  }

  // ------------------------------------------------------- what becomes of bytes

  /** What was done with a stretch of the stream. */
  datatype Item = Skipped(b: byte) | Taken(frame: Frame, word: seq<byte>)

  ghost function Trace(p: Parser, s: seq<byte>): seq<Item>
    requires Orderly(p)
    decreases |s|
  {
    match p(s)
    case NeedMore => []
    case Resync => [Skipped(s[0])] + Trace(p, s[1..])
    case Got(f, n) => [Taken(f, s[..n])] + Trace(p, s[n..])
  }

  function BytesOf(items: seq<Item>): seq<byte> {
    if items == [] then [] else Stretch(items[0]) + BytesOf(items[1..])
  }

  function Stretch(item: Item): seq<byte> {
    match item
    case Skipped(b) => [b]
    case Taken(_, w) => w
  }

  function FramesOf(items: seq<Item>): seq<Frame> {
    if items == [] then []
    else if items[0].Taken? then [items[0].frame] + FramesOf(items[1..])
    else FramesOf(items[1..])
  }

  /** Every byte of a stream belongs to one frame, was skipped, or is left over, and in that order. */
  lemma {:induction false} EveryByteAccounted(p: Parser, s: seq<byte>, done: seq<Frame>)
    requires Orderly(p)
    ensures BytesOf(Trace(p, s)) + Settled(p, State(done, s)).left == s
    decreases |s|
  {
    match p(s)
    case NeedMore =>
      assert [] + s == s;
    case Resync =>
      EveryByteAccounted(p, s[1..], done);
      Rejoined(s, 1, Skipped(s[0]), Trace(p, s[1..]), Settled(p, State(done, s[1..])).left);
    case Got(f, n) =>
      EveryByteAccounted(p, s[n..], done + [f]);
      Rejoined(s, n, Taken(f, s[..n]), Trace(p, s[n..]), Settled(p, State(done + [f], s[n..])).left);
  }

  lemma Rejoined(s: seq<byte>, n: nat, item: Item, items: seq<Item>, left: seq<byte>)
    requires n <= |s| && Stretch(item) == s[..n] && BytesOf(items) + left == s[n..]
    ensures BytesOf([item] + items) + left == s
  {
    var middle := BytesOf(items);
    assert ([item] + items)[1..] == items;
    assert s[..n] + middle + left == s[..n] + (middle + left);
  }

  /** The frames found are those of the stretches taken. */
  lemma {:induction false} FramesAreTaken(p: Parser, s: seq<byte>, done: seq<Frame>)
    requires Orderly(p)
    ensures Settled(p, State(done, s)).frames == done + FramesOf(Trace(p, s))
    decreases |s|
  {
    match p(s)
    case NeedMore =>
      assert done + [] == done;
    case Resync =>
      FramesAreTaken(p, s[1..], done);
      Preceded([], Skipped(s[0]), Trace(p, s[1..]), done);
    case Got(f, n) =>
      FramesAreTaken(p, s[n..], done + [f]);
      Preceded([f], Taken(f, s[..n]), Trace(p, s[n..]), done);
  }

  lemma Preceded(fs: seq<Frame>, item: Item, items: seq<Item>, done: seq<Frame>)
    requires fs == if item.Taken? then [item.frame] else []
    ensures done + FramesOf([item] + items) == done + fs + FramesOf(items)
  {
    assert ([item] + items)[1..] == items;
    assert done + fs + FramesOf(items) == done + (fs + FramesOf(items));
  }
}
