/**
  One software UART channel (`struct UARTDS` of SWUART.cpp): its name and
  pins, the TX and RX buffers, the two bit machines and their enable flags,
  with the per-channel halves of the ISR tick and the reset/initialise
  helpers.
 */
module Channels {
  import opened SwuartConfig
  import opened CircularList
  import opened Parity
  import opened Messages
  import opened BitMachines

  datatype Channel = Channel(
    name: byte, txPin: int, rxPin: int,
    txBuf: Buffer, tx: TxMachine, txEnabled: bool,
    rxBuf: Buffer, rx: RxMachine, rxEnabled: bool)

  /** A channel as static storage starts it: everything zero, both list heads NULL. */
  const ZeroChannel := Channel(
    0, 0, 0,
    Buffer(Repeat(ZeroMessage, TXBUFFLEN), [], []), TxMachine(0, 0, ZeroMessage), false,
    Buffer(Repeat(ZeroMessage, RXBUFFLEN), [], []), RxMachine(0, 0, ZeroMessage, 0), false)

  /** Both buffers partition their nodes and both machines are in a reachable state. */
  ghost predicate ChannelInv(ch: Channel)
  {
    Inv(ch.txBuf, TXBUFFLEN) && Inv(ch.rxBuf, RXBUFFLEN) && TxInv(ch.tx) && RxInv(ch.rx)
  }

  /**
    resetUARTDS: name, pins, enable flags, bit positions, quanta and the old
    line value go to zero and both queues are merged into their free lists.
    The current TX and RX messages are left as they were.
   */
  function ResetChannel(ch: Channel): (r: Channel)
    requires ChannelInv(ch)
    ensures ChannelInv(r)
    ensures r.txBuf.pending == [] && r.rxBuf.pending == []
    ensures |r.txBuf.free| == TXBUFFLEN && |r.rxBuf.free| == RXBUFFLEN
    ensures r.tx == TxMachine(0, 0, ch.tx.cur) && r.rx == RxMachine(0, 0, ch.rx.cur, 0)
    ensures r.name == 0 && r.txPin == 0 && r.rxPin == 0 && !r.txEnabled && !r.rxEnabled
    ensures r.txBuf.slots == ch.txBuf.slots && r.rxBuf.slots == ch.rxBuf.slots
  {
    var r := Channel(
      0, 0, 0,
      Clear(ch.txBuf, TXBUFFLEN), TxMachine(0, 0, ch.tx.cur), false,
      Clear(ch.rxBuf, RXBUFFLEN), RxMachine(0, 0, ch.rx.cur, 0), false);
    InvInRange(r.txBuf, TXBUFFLEN);
    InvInRange(r.rxBuf, RXBUFFLEN);
    r
  }

  /**
    initUARTDS: build the full 0..n-1 list on each pending head, then reset.
    The free heads are never initialised; the result has full free lists
    only because they start out empty.
   */
  function InitChannel(ch: Channel): (r: Channel)
    requires |ch.txBuf.slots| == TXBUFFLEN && |ch.rxBuf.slots| == RXBUFFLEN
    requires ch.txBuf.free == [] && ch.rxBuf.free == []
    requires TxInv(ch.tx) && RxInv(ch.rx)
    ensures ChannelInv(r)
    ensures r.txBuf == InitBuffer(ch.txBuf, TXBUFFLEN) && r.rxBuf == InitBuffer(ch.rxBuf, RXBUFFLEN)
    ensures r.txBuf.pending == [] && r.txBuf.free == Range(TXBUFFLEN)
    ensures r.rxBuf.pending == [] && r.rxBuf.free == Range(RXBUFFLEN)
  {
    var built := ch.(
      txBuf := Buffer(ch.txBuf.slots, Range(TXBUFFLEN), ch.txBuf.free),
      rxBuf := Buffer(ch.rxBuf.slots, Range(RXBUFFLEN), ch.rxBuf.free));
    assert Partition(built.txBuf.pending, built.txBuf.free, TXBUFFLEN);
    assert Partition(built.rxBuf.pending, built.rxBuf.free, RXBUFFLEN);
    ResetChannel(built)
  }

  /**
    The RX half of a tick for one channel on line sample `smp`: step the
    machine and, when a frame has just completed, store it at the queue tail
    (dropped when the free list is empty) or, if the frame carries CLEARRX_F,
    empty the queue instead.
   */
  function ChannelRx(ch: Channel, smp: Bit): (r: Channel)
    requires ChannelInv(ch)
    ensures ChannelInv(r)
    ensures r.tx == ch.tx && r.txBuf == ch.txBuf
    ensures r.name == ch.name && r.txPin == ch.txPin && r.rxPin == ch.rxPin
    ensures r.txEnabled == ch.txEnabled && r.rxEnabled == ch.rxEnabled
  {
    InvInRange(ch.rxBuf, RXBUFFLEN);
    if !ch.rxEnabled then ch
    else
      var (rx', done) := RxStep(ch.rx, smp);
      var rxBuf' :=
        if done.None? then ch.rxBuf
        else if !done.value.flags.clearRx then
          (if ch.rxBuf.free != [] then Enqueue(ch.rxBuf, done.value, RXBUFFLEN) else ch.rxBuf)
        else Clear(ch.rxBuf, RXBUFFLEN);
      InvInRange(rxBuf', RXBUFFLEN);
      ch.(rx := rx', rxBuf := rxBuf')
  }

  /** What the RX half of a tick does to the RX queue (SWUART.cpp:416-495). */
  lemma ChannelRxSpec(ch: Channel, smp: Bit)
    requires ChannelInv(ch)
    ensures var r := ChannelRx(ch, smp);
      !ch.rxEnabled ==> r == ch
    ensures var r := ChannelRx(ch, smp);
      ch.rxEnabled ==> r.rx == RxStep(ch.rx, smp).0
    ensures var r := ChannelRx(ch, smp);
      NodesInRange(ch.rxBuf) && NodesInRange(r.rxBuf)
    ensures var r := ChannelRx(ch, smp);
      ch.rxEnabled && RxStep(ch.rx, smp).1.Some? ==>
      var f := RxStep(ch.rx, smp).1.value;
      Contents(r.rxBuf) ==
        if f.flags.clearRx then []
        else if ch.rxBuf.free != [] then Contents(ch.rxBuf) + [f]
        else Contents(ch.rxBuf)
    ensures var r := ChannelRx(ch, smp);
      !(ch.rxEnabled && RxStep(ch.rx, smp).1.Some?) ==> r.rxBuf == ch.rxBuf
  {
    InvInRange(ch.rxBuf, RXBUFFLEN);
  }

  /** The message at the head of the TX queue, if any. */
  function NextTx(ch: Channel): (n: Option<Message>)
    requires ChannelInv(ch)
    ensures n.None? <==> ch.txBuf.pending == []
    ensures NodesInRange(ch.txBuf) && (n.Some? ==> n.value == Contents(ch.txBuf)[0])
  {
    InvInRange(ch.txBuf, TXBUFFLEN);
    if ch.txBuf.pending == [] then None else Some(Contents(ch.txBuf)[0])
  }

  /**
    The TX half of a tick for one channel: step the machine; when it takes
    the next message, move that node to the free list and, if the message
    carries CLEARRX_F, flag the frame being received and empty the RX queue.
    The second component is the level written to the TX pin, if any.
   */
  function ChannelTx(ch: Channel): (r: (Channel, Option<Bit>))
    requires ChannelInv(ch)
    ensures ChannelInv(r.0)
    ensures r.0.name == ch.name && r.0.txPin == ch.txPin && r.0.rxPin == ch.rxPin
    ensures r.0.txEnabled == ch.txEnabled && r.0.rxEnabled == ch.rxEnabled
  {
    InvInRange(ch.txBuf, TXBUFFLEN);
    if !ch.txEnabled then (ch, None)
    else
      var (tx', out, popped) := TxTick(ch.tx, NextTx(ch));
      var w := PinWrite(tx', out);
      if popped then
        var (txBuf', msg) := Dequeue(ch.txBuf, TXBUFFLEN);
        var ch1 := ch.(tx := tx', txBuf := txBuf');
        if msg.flags.clearRx then
          var rxBuf' := Clear(ch.rxBuf, RXBUFFLEN);
          (ch1.(rx := ch.rx.(cur := ch.rx.cur.(flags := ch.rx.cur.flags.(clearRx := true))), rxBuf := rxBuf'), w)
        else
          (ch1, w)
      else
        (ch.(tx := tx'), w)
  }

  /** What the TX half of a tick does to the queues and to the receiver (SWUART.cpp:499-566). */
  lemma ChannelTxSpec(ch: Channel)
    requires ChannelInv(ch)
    ensures var r := ChannelTx(ch);
      !ch.txEnabled ==> r == (ch, None)
    ensures var r := ChannelTx(ch);
      ch.txEnabled ==> r.0.tx == TxTick(ch.tx, NextTx(ch)).0
    ensures var r := ChannelTx(ch);
      ch.txEnabled ==> r.1 == PinWrite(r.0.tx, TxTick(ch.tx, NextTx(ch)).1)
    ensures var r := ChannelTx(ch);
      NodesInRange(ch.txBuf) && NodesInRange(r.0.txBuf)
    // a popped message leaves the queue; the RX side changes only through its CLEARRX_F
    ensures var r := ChannelTx(ch);
      ch.txEnabled && TxTick(ch.tx, NextTx(ch)).2 ==>
      Contents(r.0.txBuf) == Contents(ch.txBuf)[1..] && r.0.tx.cur == Contents(ch.txBuf)[0]
    ensures var r := ChannelTx(ch);
      ch.txEnabled && TxTick(ch.tx, NextTx(ch)).2 && Contents(ch.txBuf)[0].flags.clearRx ==>
      NodesInRange(r.0.rxBuf) && Contents(r.0.rxBuf) == [] && r.0.rx == ch.rx.(cur := ch.rx.cur.(flags := ch.rx.cur.flags.(clearRx := true)))
    ensures var r := ChannelTx(ch);
      !(ch.txEnabled && TxTick(ch.tx, NextTx(ch)).2 && Contents(ch.txBuf)[0].flags.clearRx) ==>
      r.0.rx == ch.rx && r.0.rxBuf == ch.rxBuf
    ensures var r := ChannelTx(ch);
      !(ch.txEnabled && TxTick(ch.tx, NextTx(ch)).2) ==> r.0.txBuf == ch.txBuf
  {
    InvInRange(ch.txBuf, TXBUFFLEN);
    InvInRange(ch.rxBuf, RXBUFFLEN);
  }

  /** Moving nodes between the paired lists never changes how many a direction owns. */
  lemma ChannelConserves(ch: Channel)
    requires ChannelInv(ch)
    ensures |ch.txBuf.pending| + |ch.txBuf.free| == TXBUFFLEN
    ensures |ch.rxBuf.pending| + |ch.rxBuf.free| == RXBUFFLEN
  {
    InvInRange(ch.txBuf, TXBUFFLEN);
    InvInRange(ch.rxBuf, RXBUFFLEN);
  }

  /**
    After a blank frame BLANK_F stays in currTX, so an idle transmitter with
    nothing queued does not even drive the line high.
   */
  lemma BlankKeepsIdleSilent(ch: Channel)
    requires ChannelInv(ch) && ch.txEnabled
    requires ch.tx.bit == 0 && ch.tx.cur.flags.blank && ch.txBuf.pending == []
    ensures ChannelTx(ch).1 == None
    ensures ChannelTx(ch).0.tx.bit == 0 && ChannelTx(ch).0.tx.cur.flags.blank
  {
  }

  /**
    A CLEARRX_F set on the frame being received stops that frame from being
    stored: if the tick completes it, the RX queue is left empty.
   */
  lemma ClearedFrameNotStored(ch: Channel, smp: Bit)
    requires ChannelInv(ch) && ch.rxEnabled
    requires ch.rx.bit != 0 && ch.rx.cur.flags.clearRx
    requires RxStep(ch.rx, smp).1.Some?
    ensures Contents(ChannelRx(ch, smp).rxBuf) == []
  {
    ChannelRxSpec(ch, smp);
  }

  /** A CLEARRX_F set on currRX while the receiver is idle is wiped by the next start detection. */
  lemma StartWipesClearRx(ch: Channel, smp: Bit)
    requires ChannelInv(ch) && ch.rxEnabled
    requires ch.rx.bit == 0 && ch.rx.cur.flags.clearRx
    requires ch.rx.oldVal == 1 && smp == 0
    ensures !ChannelRx(ch, smp).rx.cur.flags.clearRx
    ensures ChannelRx(ch, smp).rx.bit == 1
  {
  }
}
