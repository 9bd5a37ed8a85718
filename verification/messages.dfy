/**
  Messages and the message buffers of one UART direction (SWUART.cpp).

  A buffer is a payload array plus two circular lists over the same nodes:
  the pending list (messages queued, in order) and the free list. Node i is
  bound to payload slot i for good, so the model keeps a buffer as the
  payload sequence and the two lists as sequences of node indices; module
  ListBuffer shows that the arena operations of CircularList carry out
  exactly these sequence operations.
 */
module Messages {
  import opened CircularList
  import opened Parity

  /** The three message flag bits BLANK_F (0), CLEARRX_F (1) and STOPERR_F (2). */
  datatype Flags = Flags(blank: bool, clearRx: bool, stopErr: bool)

  /** A flags byte of 0. */
  const NoFlags := Flags(false, false, false)

  /** `struct message`: the data byte, its parity bit and the flags. */
  datatype Message = Message(data: byte, par: Bit, flags: Flags)

  /** The all-zero message static storage starts with. */
  const ZeroMessage := Message(0, 0, NoFlags)

  datatype Buffer = Buffer(slots: seq<Message>, pending: seq<nat>, free: seq<nat>)

  /** The pending and free lists share out the cap nodes of the buffer between them. */
  ghost predicate Inv(b: Buffer, cap: nat)
  {
    |b.slots| == cap && Partition(b.pending, b.free, cap)
  }

  predicate NodesInRange(b: Buffer)
  {
    forall i :: 0 <= i < |b.pending| ==> b.pending[i] < |b.slots|
  }

  /** The queued messages, oldest first. */
  function Contents(b: Buffer): (c: seq<Message>)
    requires NodesInRange(b)
    ensures |c| == |b.pending|
  {
    seq(|b.pending|, i requires 0 <= i < |b.pending| => b.slots[b.pending[i]])
  }

  lemma InvInRange(b: Buffer, cap: nat)
    requires Inv(b, cap)
    ensures NodesInRange(b)
    ensures |b.pending| + |b.free| == cap
    ensures Disjoint(b.pending, b.free)
    ensures forall i :: 0 <= i < |b.free| ==> b.free[i] < |b.slots|
  {
    PartitionFacts(b.pending, b.free, cap);
    forall i | 0 <= i < |b.pending| ensures b.pending[i] < |b.slots| {
      assert b.pending[i] in b.pending;
    }
    forall i | 0 <= i < |b.free| ensures b.free[i] < |b.slots| {
      assert b.free[i] in b.free;
    }
  }

  /**
    mergeList(pending, free): every pending node goes to the tail of the
    free list and the queue becomes empty.
   */
  function Clear(b: Buffer, ghost cap: nat): (r: Buffer)
    requires Inv(b, cap)
    ensures Inv(r, cap) && NodesInRange(r)
    ensures Contents(r) == []
    ensures r.slots == b.slots && r.free == b.free + b.pending
  {
    var r := Buffer(b.slots, [], b.free + b.pending);
    assert multiset(r.pending) + multiset(r.free) == multiset(b.pending) + multiset(b.free);
    r
  }

  /**
    removeHead(free), fill its payload with m, appendTail(pending): the
    queue grows by m at the back and the free list loses its head.
   */
  function Enqueue(b: Buffer, m: Message, ghost cap: nat): (r: Buffer)
    requires Inv(b, cap) && b.free != []
    ensures Inv(r, cap) && NodesInRange(r) && NodesInRange(b)
    ensures Contents(r) == Contents(b) + [m]
    ensures r.pending == b.pending + [b.free[0]] && r.free == b.free[1..]
  {
    InvInRange(b, cap);
    var node := b.free[0];
    var r := Buffer(b.slots[node := m], b.pending + [node], b.free[1..]);
    assert b.free == [node] + b.free[1..];
    assert multiset(r.pending) + multiset(r.free) == multiset(b.pending) + multiset(b.free);
    assert node !in b.pending;
    assert Contents(r) == Contents(b) + [m] by {
      forall i | 0 <= i < |b.pending| ensures Contents(r)[i] == Contents(b)[i] {
        assert b.pending[i] in b.pending;
      }
    }
    r
  }

  /**
    removeHead(pending), read its payload, appendTail(free): the oldest
    queued message comes out and its node rejoins the free list at the tail.
   */
  function Dequeue(b: Buffer, ghost cap: nat): (r: (Buffer, Message))
    requires Inv(b, cap) && b.pending != []
    ensures Inv(r.0, cap) && NodesInRange(r.0) && NodesInRange(b)
    ensures r.1 == Contents(b)[0] && Contents(r.0) == Contents(b)[1..]
    ensures r.0.slots == b.slots && r.0.pending == b.pending[1..] && r.0.free == b.free + [b.pending[0]]
  {
    InvInRange(b, cap);
    var node := b.pending[0];
    var r := Buffer(b.slots, b.pending[1..], b.free + [node]);
    assert b.pending == [node] + b.pending[1..];
    assert multiset(r.pending) + multiset(r.free) == multiset(b.pending) + multiset(b.free);
    (r, b.slots[node])
  }

  /**
    A buffer as initUARTDS leaves it. The first pair of initList calls empties
    the pending list, the second builds the full 0..cap-1 list on the pending
    head again; the free head is never initialised and is empty only because
    static storage starts at zero, and resetUARTDS's merge then moves every
    node onto it.
   */
  function InitBuffer(b: Buffer, cap: nat): (r: Buffer)
    requires |b.slots| == cap && b.free == []
    ensures Inv(r, cap) && NodesInRange(r)
    ensures r.slots == b.slots && r.pending == [] && r.free == Range(cap)
  {
    var built := Buffer(b.slots, Range(cap), b.free);
    assert Partition(built.pending, built.free, cap);
    Clear(built, cap)
  }

  /** Sending then draining a buffer is a FIFO: messages come out in the order they went in. */
  lemma {:induction false} EnqueueDequeueFifo(b: Buffer, m: Message, cap: nat)
    requires Inv(b, cap) && b.free != [] && b.pending != []
    ensures Dequeue(Enqueue(b, m, cap), cap).1 == Dequeue(b, cap).1
    ensures Contents(Dequeue(Enqueue(b, m, cap), cap).0) == Contents(Dequeue(b, cap).0) + [m]
  {
    var e := Enqueue(b, m, cap);
    assert Contents(e)[0] == Contents(b)[0];
    assert Contents(e)[1..] == Contents(b)[1..] + [m];
  }

  /** A message enqueued into an empty queue is the next one out. */
  lemma EnqueueEmptyDequeue(b: Buffer, m: Message, cap: nat)
    requires Inv(b, cap) && b.free != [] && b.pending == []
    ensures Dequeue(Enqueue(b, m, cap), cap).1 == m
    ensures Contents(Dequeue(Enqueue(b, m, cap), cap).0) == []
  {
  }
}
