/**
 * The receiver: it appends whatever the ring yields to a 64-byte accumulator and
 * parses from its start, dispatching frames, and skipping one byte after an error.
 */
module RxAccumulator {
  import opened Bytes
  import opened Tlv
  import opened UartRing
  import opened GreedyParse

  /** The protocol's parser is one for which greedy parsing works out. */
  lemma ParserIsOrderly(c: Codec)
    ensures Orderly(c.Parsed)
  {
  }

  lemma ParserIsSteadfast(c: Codec)
    ensures Steadfast(c.Parsed)
  {
    forall s: seq<byte>, t: seq<byte> | !c.Parsed(s).NeedMore? ensures c.Parsed(s + t) == c.Parsed(s) {
      c.VerdictIsFinal(s, t);
    }
  }

  lemma BuiltStandsFor(c: Codec, f: Frame)
    requires Fits(f)
    ensures StandsFor(c.Parsed, c.Built(f), f)
  {
    forall t: seq<byte> ensures c.Parsed(c.Built(f) + t) == Got(f, |c.Built(f)|) {
      c.ParseOfBuilt(f, t);
    }
  }

  lemma OnlySof0Starts(c: Codec, b: byte)
    requires b != SOF0
    ensures StartsNone(c.Parsed, b)
  {
  }

  /** Whatever is dispatched stood in the stream as its built form. */
  lemma {:induction false} TakenIsBuilt(c: Codec, s: seq<byte>, item: Item)
    requires Orderly(c.Parsed) && item in Trace(c.Parsed, s) && item.Taken?
    ensures Fits(item.frame) && item.word == c.Built(item.frame)
    decreases |s|
  {
    var v := c.Parsed(s);
    if v.Resync? {
      TakenIsBuilt(c, s[1..], item);
    } else if item in Trace(c.Parsed, s[v.total..]) {
      TakenIsBuilt(c, s[v.total..], item);
    } else {
      c.BuiltOfParsed(s);
    }
  }

  /** What a sender of `fs` puts on the line, frame by frame. */
  function Wire(c: Codec, fs: seq<Frame>): (ws: seq<seq<byte>>)
    requires forall f :: f in fs ==> Fits(f)
    ensures |ws| == |fs|
    ensures forall i :: 0 <= i < |fs| ==> ws[i] == c.Built(fs[i])
  {
    if fs == [] then [] else [c.Built(fs[0])] + Wire(c, fs[1..])
  }

  lemma WireStandsFor(c: Codec, fs: seq<Frame>)
    requires forall f :: f in fs ==> Fits(f)
    ensures forall i :: 0 <= i < |fs| ==> StandsFor(c.Parsed, Wire(c, fs)[i], fs[i])
  {
    forall i | 0 <= i < |fs| ensures StandsFor(c.Parsed, Wire(c, fs)[i], fs[i]) {
      BuiltStandsFor(c, fs[i]);
    }
  }

  lemma WireHasLength(c: Codec, fs: seq<Frame>)
    requires forall f :: f in fs ==> Fits(f)
    ensures fs != [] ==> |Concat(Wire(c, fs))| >= FRAME_MIN
  {
  }

  /**
   * Built frames sent back to back, even after noise without a start byte, are dispatched
   * exactly, and nothing of them is left over.
   */
  lemma WireIsDispatched(c: Codec, noise: seq<byte>, fs: seq<Frame>)
    requires forall f :: f in fs ==> Fits(f)
    requires SOF0 !in noise && (noise != [] ==> fs != [])
    ensures Orderly(c.Parsed)
    ensures Greedy(c.Parsed, noise + Concat(Wire(c, fs))) == State(fs, [])
  {
    var ws := Wire(c, fs);
    var sent := Concat(ws);
    assert sent + [] == sent && [] + fs == fs && [] + sent == sent;
    ParserIsOrderly(c);
    WireStandsFor(c, fs);
    WireHasLength(c, fs);
    SentFramesArrive(c.Parsed, ws, fs, [], []);
    if noise != [] {
      forall b | b in noise ensures StartsNone(c.Parsed, b) {
        OnlySof0Starts(c, b);
      }
      NoiseIsSkipped(c.Parsed, noise, [], sent);
    }
  }

  lemma MoreArrived(c: Codec, before: seq<byte>, kept: State, news: seq<byte>)
    requires Orderly(c.Parsed) && kept == Greedy(c.Parsed, before)
    ensures Settled(c.Parsed, Then(kept, news)) == Greedy(c.Parsed, before + news)
  {
    assert State([], before + news) == Then(State([], before), news);
    ParserIsSteadfast(c);
    ParseInInstalments(c.Parsed, State([], before), news);
  }

  // -------------------------------------------------------------- the receiver

  class Receiver {
    const codec: Codec
    const ring: Ring
    const accum: array<byte>
    var accumLen: nat
    var dispatched: seq<Frame>

    /** What has been dispatched and what is kept, as the state of a greedy parse. */
    ghost function Now(): State
      requires accumLen <= accum.Length
      reads this, accum
    {
      State(dispatched, accum[..accumLen])
    }

    /** They are the greedy parse of all bytes ever taken from the ring, however those were cut. */
    ghost predicate Valid()
      reads this, accum, ring, ring.ring
    {
      && Orderly(codec.Parsed) && ring.Valid() && accum != ring.ring
      && accum.Length == FRAME_MAX && accumLen < FRAME_MAX
      && Now() == Greedy(codec.Parsed, ring.popped)
    }

    constructor (c: Codec, r: Ring)
      requires r.Valid() && r.popped == []
      ensures Valid() && codec == c && ring == r && fresh(accum)
    {
      codec, ring := c, r;
      accum := new byte[FRAME_MAX](_ => 0);
      accumLen, dispatched := 0, [];
      ParserIsOrderly(c);
    }

    /** One pass of the outer loop. */
    method Poll() returns (got: nat)
      requires Valid()
      modifies this, accum, ring, ring.ring
      ensures Valid()
      ensures old(ring.accepted) <= ring.accepted
      ensures got == 0 ==> old(ring.accepted) <= ring.popped == old(ring.popped)
    {
      ghost var before, was := ring.popped, Now();
      ghost var news;
      got, news := Fill();
      if got == 0 {
        return;
      }
      MoreArrived(codec, before, was, news);
      DispatchAll();
      ResetIfFull();
    }

    /** A full accumulator is emptied. `Valid` would not survive that, so it never happens in `Poll`. */
    method ResetIfFull()
      requires accumLen <= accum.Length
      modifies this`accumLen
      ensures accumLen == if old(accumLen) == accum.Length then 0 else old(accumLen)
    {
      if accumLen == accum.Length {
        accumLen := 0;
      }
    }

    /** Append what the ring has to what is kept. */
    method Fill() returns (got: nat, ghost news: seq<byte>)
      requires ring.Valid() && accum != ring.ring && accumLen < accum.Length
      modifies this`accumLen, accum, ring, ring.ring
      ensures ring.Valid() && accumLen == old(accumLen) + got <= accum.Length
      ensures got == |news| && ring.popped == old(ring.popped) + news
      ensures Now() == Then(old(Now()), news)
      ensures old(ring.accepted) <= ring.accepted
      ensures got == 0 ==> old(ring.accepted) <= ring.popped == old(ring.popped) && Now() == old(Now())
    {
      ghost var kept := accum[..accumLen];
      got := ring.Pop(accum, accumLen);
      news := accum[accumLen..accumLen + got];
      assert accum[..accumLen + got] == kept + news;
      if got == 0 {
        assert kept + news == kept && old(ring.popped) + news == old(ring.popped);
      }
      accumLen := accumLen + got;
    }

    /** The inner loop: dispatch and resynchronise until more bytes are needed. */
    method DispatchAll()
      requires accumLen <= accum.Length == FRAME_MAX && Orderly(codec.Parsed)
      modifies this`accumLen, this`dispatched, accum
      ensures accumLen < accum.Length
      ensures Now() == Settled(codec.Parsed, old(Now()))
    {
      ghost var goal := Settled(codec.Parsed, Now());
      var verdict := Parse(codec, accum, accumLen);
      while !verdict.NeedMore?
        invariant accumLen <= accum.Length
        invariant verdict == codec.Parsed(accum[..accumLen])
        invariant Settled(codec.Parsed, Now()) == goal
        decreases accumLen
      {
        Advance(verdict);
        verdict := Parse(codec, accum, accumLen);
      }
    }

    /** Act on a verdict: dispatch a frame and drop it, or drop one byte. */
    method Advance(verdict: Verdict)
      requires accumLen <= accum.Length && !verdict.NeedMore? && StepOk(verdict, accumLen)
      modifies this`accumLen, this`dispatched, accum
      ensures accumLen < old(accumLen)
      ensures Now() == Step(old(Now()), verdict)
    {
      if verdict.Got? {
        dispatched := dispatched + [verdict.frame];
        DropFront(verdict.total);
      } else {
        DropFront(1);
      }
    }

    /** Move what follows the first `n` bytes to the front. */
    method DropFront(n: nat)
      requires n <= accumLen <= accum.Length
      modifies this`accumLen, accum
      ensures accumLen == old(accumLen) - n
      ensures accum[..accumLen] == old(accum[..accumLen])[n..]
    {
      forall i | 0 <= i < accumLen - n {
        accum[i] := accum[i + n];
      }
      accumLen := accumLen - n;
    }

    /** Any number of passes. */
    method Run(passes: nat)
      requires Valid()
      modifies this, accum, ring, ring.ring
      ensures Valid()
      ensures old(ring.accepted) <= ring.accepted
    {
      for k := 0 to passes
        invariant Valid()
        invariant old(ring.accepted) <= ring.accepted
      {
        var got := Poll();
      }
    }
  }

  /**
   * From the wire to the dispatcher: if the bytes the interrupt handler accepted are frames
   * sent back to back, possibly after noise without a start byte, and the receiver has caught
   * up with them, exactly those frames have been dispatched, in order.
   */
  lemma FramesDelivered(r: Receiver, noise: seq<byte>, fs: seq<Frame>)
    requires r.Valid() && r.ring.Contents() == []
    requires forall f :: f in fs ==> Fits(f)
    requires SOF0 !in noise && (noise != [] ==> fs != [])
    requires r.ring.accepted == noise + Concat(Wire(r.codec, fs))
    ensures r.dispatched == fs && r.accumLen == 0
  {
    assert r.ring.popped + [] == r.ring.popped;
    WireIsDispatched(r.codec, noise, fs);
    assert |r.accum[..r.accumLen]| == r.accumLen;
  }
}
