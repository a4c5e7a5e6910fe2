/**
 * The receive ring: an interrupt handler puts bytes in, a reader takes them out, and no
 * lock is held. The reader can be interrupted between any two of its reads and writes; the
 * handler runs to completion.
 */
module UartRing {
  import opened Bytes

  const LEN: nat := 256

  /** What the handler finds: whether a byte is there, whether the line reported an error, the data register. */
  datatype Event = Event(ready: bool, errors: bool, data: byte) {
    predicate Clean() {
      ready && !errors
    }
  }

  /** Of the bytes a batch of interrupts offers, the clean ones for which there is room, in order. */
  function Fitting(batch: seq<Event>, room: nat): (bytes: seq<byte>)
    ensures |bytes| <= room
  {
    if batch == [] then []
    else if batch[0].Clean() && room > 0 then [batch[0].data] + Fitting(batch[1..], room - 1)
    else Fitting(batch[1..], room)
  }

  lemma FittingOne(e: Event, room: nat)
    ensures Fitting([e], room) == if e.ready && !e.errors && room > 0 then [e.data] else []
  {
    assert [e][1..] == [];
  }

  lemma FittingInTwo(batch: seq<Event>, room: nat)
    requires batch != []
    ensures var first := Fitting([batch[0]], room);
      Fitting(batch, room) == first + Fitting(batch[1..], room - |first|)
  {
    FittingOne(batch[0], room);
  }

  lemma Regroup(a: seq<byte>, b: seq<byte>, c: seq<byte>)
    ensures a + b + c == a + (b + c)
  {
  }

  /** How many bytes lie between two indices. */
  function Count(tail: nat, head: nat): (n: nat)
    requires tail < LEN && head < LEN
    ensures n < LEN
  {
    if tail <= head then head - tail else head + LEN - tail
  }

  /** The index after `i`. */
  function Next(i: nat): (j: nat)
    requires i < LEN
    ensures j < LEN
  {
    (i + 1) % LEN
  }

  /** The bytes from `tail` up to but not including `head`, oldest first. */
  function Queued(ring: seq<byte>, tail: nat, head: nat): (q: seq<byte>)
    requires |ring| == LEN && tail < LEN && head < LEN
    ensures |q| == Count(tail, head)
    decreases Count(tail, head)
  {
    if tail == head then [] else [ring[tail]] + Queued(ring, Next(tail), head)
  }

  lemma FullExactly(tail: nat, head: nat)
    requires tail < LEN && head < LEN
    ensures Next(head) == tail <==> Count(tail, head) == LEN - 1
  {
  }

  lemma {:induction false} Enqueued(ring: seq<byte>, tail: nat, head: nat, c: byte)
    requires |ring| == LEN && tail < LEN && head < LEN && Next(head) != tail
    ensures Queued(ring[head := c], tail, Next(head)) == Queued(ring, tail, head) + [c]
    decreases Count(tail, head)
  {
    if tail == head {
      assert Queued(ring[head := c], Next(head), Next(head)) == [];
    } else {
      Enqueued(ring, Next(tail), head, c);
    }
  }

  class Ring {
    const ring: array<byte>
    /** Written by the handler only. */
    var head: nat
    /** Written by the reader only. */
    var tail: nat
    /** The interrupts to come: one batch for every point at which the reader can be interrupted. */
    var pending: seq<seq<Event>>

    /** Every byte ever put in, and every byte ever taken out. */
    ghost var accepted: seq<byte>
    ghost var popped: seq<byte>

    ghost predicate InBounds()
      reads this
    {
      ring.Length == LEN && head < LEN && tail < LEN
    }

    ghost function Contents(): (q: seq<byte>)
      requires InBounds()
      reads this, ring
      ensures |q| < LEN
    {
      Queued(ring[..], tail, head)
    }

    /** The next batch of interrupts. */
    function Coming(): seq<Event>
      reads this
    {
      if pending == [] then [] else pending[0]
    }

    /** No byte is lost, doubled, overwritten or out of place. */
    ghost predicate Valid()
      reads this, ring
    {
      InBounds() && accepted == popped + Contents()
    }

    constructor (interrupts: seq<seq<Event>>)
      ensures Valid() && fresh(ring)
      ensures accepted == [] && popped == [] && pending == interrupts
    {
      ring := new byte[LEN](_ => 0);
      head, tail, pending := 0, 0, interrupts;
      accepted, popped := [], [];
    }

    method Put(c: byte)
      requires Valid() && Next(head) != tail
      modifies this`head, this`accepted, ring
      ensures Valid()
      ensures accepted == old(accepted) + [c] && Contents() == old(Contents()) + [c]
    {
      ghost var was := ring[..];
      Enqueued(was, tail, head, c);
      ring[head] := c;
      assert ring[..] == was[head := c];
      head := Next(head);
      accepted := accepted + [c];
    }

    /** The handler: a clean byte is accepted unless 255 are queued, anything else is drained and forgotten. */
    method Interrupt(e: Event)
      requires Valid()
      modifies this`head, this`accepted, ring
      ensures Valid()
      ensures accepted ==
        if e.ready && !e.errors && |old(Contents())| < 255 then old(accepted) + [e.data] else old(accepted)
      ensures Contents() ==
        if e.ready && !e.errors && |old(Contents())| < 255 then old(Contents()) + [e.data] else old(Contents())
    {
      if e.ready || e.errors {
        var c := e.data;
        if e.ready && !e.errors {
          var h := head;
          var next := Next(h);
          FullExactly(tail, head);
          if next != tail {
            Put(c);
          }
        }
      }
    }

    /** The reader is interrupted as often as the next batch says: what fits is accepted, the rest is lost. */
    method Preempt()
      requires Valid()
      modifies this`head, this`accepted, this`pending, ring
      ensures Valid()
      ensures pending == if old(pending) == [] then [] else old(pending)[1..]
      ensures Contents() == old(Contents()) + Fitting(old(Coming()), LEN - 1 - |old(Contents())|)
      ensures accepted == old(accepted) + Fitting(old(Coming()), LEN - 1 - |old(Contents())|)
      ensures old(head) != tail ==> head != tail && ring[tail] == old(ring[tail])
    {
      if pending == [] {
        return;
      }
      var batch := pending[0];
      pending := pending[1..];
      ghost var q, oldest := Contents(), ring[tail];
      TakeBatch(batch);
      if q != [] {
        assert q[0] == oldest && Contents()[0] == ring[tail];
      }
    }

    method TakeBatch(batch: seq<Event>)
      requires Valid()
      modifies this`head, this`accepted, ring
      ensures Valid()
      ensures Contents() == old(Contents()) + Fitting(batch, LEN - 1 - |old(Contents())|)
      ensures accepted == old(accepted) + Fitting(batch, LEN - 1 - |old(Contents())|)
      decreases batch
    {
      if batch == [] {
        assert Contents() + [] == Contents() && accepted + [] == accepted;
      } else {
        ghost var q, a, room := Contents(), accepted, LEN - 1 - |Contents()|;
        ghost var first := Fitting([batch[0]], room);
        ghost var rest := Fitting(batch[1..], room - |first|);
        FittingInTwo(batch, room);
        TakeOne(batch[0]);
        TakeBatch(batch[1..]);
        Regroup(q, first, rest);
        Regroup(a, first, rest);
      }
    }

    method TakeOne(e: Event)
      requires Valid()
      modifies this`head, this`accepted, ring
      ensures Valid()
      ensures Contents() == old(Contents()) + Fitting([e], LEN - 1 - |old(Contents())|)
      ensures accepted == old(accepted) + Fitting([e], LEN - 1 - |old(Contents())|)
    {
      FittingOne(e, LEN - 1 - |Contents()|);
      Interrupt(e);
    }

    /**
     * Take out at most `out.Length - from` bytes, in the order they came. Fewer only if the
     * ring was found empty, and then everything accepted before the call has been taken.
     */
    method Pop(out: array<byte>, from: nat) returns (n: nat)
      requires Valid() && out != ring && from <= out.Length
      modifies this, ring, out
      ensures Valid() && n <= out.Length - from
      ensures out[..from] == old(out[..from])
      ensures popped == old(popped) + out[from..from + n]
      ensures old(accepted) <= accepted
      ensures n < out.Length - from ==> old(accepted) <= popped
    {
      n := 0;
      var more := true;
      while more && n < out.Length - from
        invariant Valid() && n <= out.Length - from
        invariant out[..from] == old(out[..from])
        invariant popped == old(popped) + out[from..from + n]
        invariant old(accepted) <= accepted
        invariant !more ==> old(accepted) <= popped
        decreases out.Length - from - n, more
      {
        ghost var taken := out[from..from + n];
        more := PopByte(out, from + n);
        assert out[from..from + n] == taken;
        if more {
          n := n + 1;
          assert out[from..from + n] == taken + [out[from + n - 1]];
        }
      }
    }

    /** One round of the loop, up to the write that ends it; false if the ring was found empty. */
    method PopByte(out: array<byte>, at: nat) returns (more: bool)
      requires Valid() && out != ring && at < out.Length
      modifies this, ring, out
      ensures Valid() && old(accepted) <= accepted
      ensures out[..at] == old(out[..at])
      ensures more ==> popped == old(popped) + [out[at]]
      ensures !more ==> popped == old(popped) && old(accepted) <= popped
    {
      var h, t := ReadIndices();
      if h == t {
        return false;
      }
      out[at] := ring[t];
      more := true;
      TakeOut(t);
    }

    /** The two index reads of a round. What they show stays true of a ring that was not empty. */
    method ReadIndices() returns (h: nat, t: nat)
      requires Valid()
      modifies this`head, this`accepted, this`pending, ring
      ensures Valid() && old(accepted) <= accepted && t == tail
      ensures h == t ==> old(accepted) <= popped
      ensures h != t ==> tail != head
    {
      Preempt();
      h := head;
      Preempt();
      t := tail;
      Preempt();
    }

    /** The write that ends a round, after a last chance to interrupt: the byte read is still the oldest. */
    method TakeOut(t: nat)
      requires Valid() && t == tail && tail != head
      modifies this, ring
      ensures Valid() && popped == old(popped) + [old(ring[tail])]
      ensures old(accepted) <= accepted
    {
      Preempt();
      popped := popped + [ring[tail]];
      tail := Next(t);
    }
  }
}
