/**
  The message buffers as the C code keeps them: one node arena, a pending
  head and a free head. Each method here performs the list calls
  SWUART.cpp makes on a buffer and proves that the two heads afterwards
  denote exactly the pending and free sequences that the corresponding
  Messages operation computes. This is what lets the rest of the model
  work on sequences of node indices.
 */
module ListBuffer {
  import opened CircularList
  import opened Messages

  datatype ArenaBuffer = ArenaBuffer(arena: Arena, pendH: int, freeH: int, slots: seq<Message>)

  /** The arena buffer `ab` stores the sequence-level buffer `b`. */
  ghost predicate Represents(ab: ArenaBuffer, b: Buffer)
  {
    && ab.slots == b.slots
    && ab.arena.Size() == |b.slots|
    && IsList(ab.arena, ab.pendH, b.pending)
    && IsList(ab.arena, ab.freeH, b.free)
  }

  lemma PartitionSwap(s1: seq<nat>, s2: seq<nat>, n: nat)
    requires Partition(s1, s2, n)
    ensures Partition(s2, s1, n)
  {
  }

  /** SWUARTsend and the RX store at stop: removeHead(free), write the payload, appendTail(pending). */
  method PutMessage(ab: ArenaBuffer, m: Message, ghost b: Buffer, ghost cap: nat) returns (ab': ArenaBuffer)
    requires Represents(ab, b) && Inv(b, cap) && b.free != []
    ensures Represents(ab', Enqueue(b, m, cap))
  {
    PartitionSwap(b.pending, b.free, cap);
    var a', freeH', pendH', node := MoveHead(ab.arena, ab.freeH, ab.pendH, b.free, b.pending);
    ab' := ArenaBuffer(a', pendH', freeH', ab.slots[node := m]);
  }

  /** SWUARTreceive and the TX pop when idle: removeHead(pending), read the payload, appendTail(free). */
  method TakeMessage(ab: ArenaBuffer, ghost b: Buffer, ghost cap: nat) returns (ab': ArenaBuffer, m: Message)
    requires Represents(ab, b) && Inv(b, cap) && b.pending != []
    ensures Represents(ab', Dequeue(b, cap).0)
    ensures m == Dequeue(b, cap).1
  {
    var a', pendH', freeH', node := MoveHead(ab.arena, ab.pendH, ab.freeH, b.pending, b.free);
    m := ab.slots[node];
    ab' := ArenaBuffer(a', pendH', freeH', ab.slots);
  }

  /** resetUARTDS, SWUARTclearBuffer and the clear-RX paths: mergeList(pending, free). */
  method ClearAll(ab: ArenaBuffer, ghost b: Buffer, ghost cap: nat) returns (ab': ArenaBuffer)
    requires Represents(ab, b) && Inv(b, cap)
    ensures Represents(ab', Clear(b, cap))
  {
    var a', pendH', freeH' := MergeAll(ab.arena, ab.pendH, ab.freeH, b.pending, b.free);
    ab' := ArenaBuffer(a', pendH', freeH', ab.slots);
  }

  /**
    initUARTDS on one direction: initList(pending, 0), initList(pending, cap),
    then the merge of resetUARTDS into the free head, which static storage
    left NULL.
   */
  method Build(a: Arena, slots: seq<Message>) returns (ab: ArenaBuffer)
    requires a.WellSized() && a.Size() == |slots|
    ensures Represents(ab, InitBuffer(Buffer(slots, [], []), |slots|))
  {
    var cap := |slots|;
    var a0, h0 := InitList(a, 0);
    var a1, h1 := InitList(a0, cap);
    assert IsList(a1, NIL, []);
    assert Partition(Range(cap), [], cap);
    var a2, pendH, freeH := MergeAll(a1, h1, NIL, Range(cap), []);
    assert [] + Range(cap) == Range(cap);
    ab := ArenaBuffer(a2, pendH, freeH, slots);
  }
}
