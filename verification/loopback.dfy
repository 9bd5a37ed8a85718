/**
  Two bit machines on one wire: the TX machine of one channel drives the
  line and the RX machine of another samples it, one SWUART_isr tick at a
  time (the wiring of laptop_test/main.c, where channel 'A' transmits on
  the pin channel 'B' receives on, for one non-blank frame; the channels'
  queues and the registry around the machines are not part of this module).
  Within a tick the receiver reads the line before the transmitter writes
  it, as the RX loop of SWUART_isr runs before the TX loop.

  The theorem: a frame started by the transmitter on an idle line reaches
  the receiver 56 ticks later as exactly the byte and parity bit that were
  sent, with no error flag, and nothing else is received meanwhile.
 */
module Loopback {
  import opened SwuartConfig
  import opened Parity
  import opened Messages
  import opened BitMachines
  import opened Swuart
  import opened Iteration

  datatype Link = Link(tx: TxMachine, rx: RxMachine, line: Bit)

  predicate LinkInv(w: Link)
  {
    TxInv(w.tx) && RxInv(w.rx)
  }

  /**
    One tick of the pair with nothing more queued: the receiver samples the
    line, then the transmitter steps and, unless its message is blank,
    drives the line. The second component is the frame received, if any.
   */
  function LinkStep(w: Link): (r: (Link, Option<Message>))
    requires LinkInv(w)
    ensures LinkInv(r.0)
  {
    var (rx', frame) := RxStep(w.rx, w.line);
    var (tx', out, _) := TxTick(w.tx, None);
    var line' := match PinWrite(tx', out) case Some(v) => v case None => w.line;
    (Link(tx', rx', line'), frame)
  }

  /** n ticks of the pair, with the frames received in order. */
  function Run(w: Link, n: nat): (r: (Link, seq<Message>))
    requires LinkInv(w)
    ensures LinkInv(r.0)
    ensures |r.1| <= n
    decreases n
  {
    if n == 0 then (w, [])
    else
      var step := LinkStep(w);
      var rest := Run(step.0, n - 1);
      (rest.0, Received(step.1) + rest.1)
  }

  /** The frame a tick delivers, as a list of at most one. */
  function Received(frame: Option<Message>): (fs: seq<Message>)
    ensures |fs| <= 1 && (fs == [] <==> frame.None?)
  {
    if frame.Some? then [frame.value] else []
  }

  /** The tick of the pair as a total step: the new state and the frames it delivers. */
  function PairStep(w: Link): (Link, seq<Message>)
  {
    if LinkInv(w) then var s := LinkStep(w); (s.0, Received(s.1)) else (w, [])
  }

  /** Run is the iteration of the total tick on states that satisfy LinkInv. */
  lemma {:induction false} RunIsIter(w: Link, n: nat)
    requires LinkInv(w)
    ensures Run(w, n) == Iter(PairStep, w, n)
    decreases n
  {
    if n > 0 {
      RunIsIter(LinkStep(w).0, n - 1);
    }
  }

  /**
    Running a + b ticks is running a ticks, then b more; the frames of both
    stretches add up. Proved on the generic iteration, so that the tick's
    bit-level body stays out of the induction.
   */
  lemma RunSplit(w: Link, a: nat, b: nat)
    requires LinkInv(w)
    ensures Run(w, a + b).0 == Run(Run(w, a).0, b).0
    ensures Run(w, a + b).1 == Run(w, a).1 + Run(Run(w, a).0, b).1
  {
    RunIsIter(w, a + b);
    RunIsIter(w, a);
    RunIsIter(Run(w, a).0, b);
    IterSplit(PairStep, w, a, b);
  }

  /** Bytes that agree on all eight bits are equal. */
  lemma BitsDetermineByte(x: byte, y: byte)
    requires forall j :: 0 <= j < 8 ==> GetBit(x, j) == GetBit(y, j)
    ensures x == y
  {
    assert GetBit(x, 0) == GetBit(y, 0) && GetBit(x, 1) == GetBit(y, 1);
    assert GetBit(x, 2) == GetBit(y, 2) && GetBit(x, 3) == GetBit(y, 3);
    assert GetBit(x, 4) == GetBit(y, 4) && GetBit(x, 5) == GetBit(y, 5);
    assert GetBit(x, 6) == GetBit(y, 6) && GetBit(x, 7) == GetBit(y, 7);
    EightBits(x, y);
  }

  lemma EightBits(x: byte, y: byte)
    requires (x >> 0) & 1 == (y >> 0) & 1 && (x >> 1) & 1 == (y >> 1) & 1
    requires (x >> 2) & 1 == (y >> 2) & 1 && (x >> 3) & 1 == (y >> 3) & 1
    requires (x >> 4) & 1 == (y >> 4) & 1 && (x >> 5) & 1 == (y >> 5) & 1
    requires (x >> 6) & 1 == (y >> 6) & 1 && (x >> 7) & 1 == (y >> 7) & 1
    ensures x == y
  {
  }

  /**
    The pair right after the transmitter has entered frame position k
    (2..11) of `msg`: the receiver is at the last quantum of position k-1,
    has no flags, and holds the data bits below k-2 (and, at the stop
    position, the parity bit) as sent.
   */
  ghost predicate InPhase(w: Link, msg: Message, k: int)
  {
    && 2 <= k <= 11 && !msg.flags.blank
    && w.tx == TxMachine(k, 0, msg)
    && w.rx.bit == k - 1 && w.rx.quantum == BITQUANTI - 1
    && w.line == TxLevel(msg, k)
    && w.rx.cur.flags == NoFlags
    && (forall j :: 0 <= j < 8 && j < k - 2 ==> GetBit(w.rx.cur.data, j) == GetBit(msg.data, j))
    && (k == 11 ==> w.rx.cur.par == msg.par)
  }

  /** The start of a frame: the transmitter has just driven the start bit low onto an idle, high line. */
  ghost predicate Started(w: Link, msg: Message)
  {
    && !msg.flags.blank
    && w.tx == TxMachine(1, 0, msg)
    && w.rx.bit == 0 && w.rx.oldVal == 1
    && w.line == 0
  }

  /** Five ticks from the start bit: the receiver detects the edge, checks the start bit and reaches data bit 0. */
  lemma StartPeriod(w: Link, msg: Message)
    requires Started(w, msg) && LinkInv(w)
    ensures Run(w, 5).1 == [] && InPhase(Run(w, 5).0, msg, 2)
  {
    var w1 := LinkStep(w).0;
    assert w1.rx.bit == 1 && w1.rx.quantum == 0 && w1.rx.cur.flags == NoFlags && w1.tx == TxMachine(1, 1, msg) && w1.line == 0;
    var w2 := LinkStep(w1).0;
    assert w2.rx.bit == 1 && w2.rx.quantum == 1 && w2.rx.cur.flags == NoFlags && w2.tx == TxMachine(1, 2, msg) && w2.line == 0;
    var w3 := LinkStep(w2).0;
    assert w3.rx.bit == 1 && w3.rx.quantum == 2 && w3.rx.cur.flags == NoFlags && w3.tx == TxMachine(1, 3, msg) && w3.line == 0;
    var w4 := LinkStep(w3).0;
    assert w4.rx.bit == 1 && w4.rx.quantum == 3 && w4.rx.cur.flags == NoFlags && w4.tx == TxMachine(1, 4, msg) && w4.line == 0;
    var w5 := LinkStep(w4).0;
    assert w5.rx.bit == 1 && w5.rx.quantum == 4 && w5.tx == TxMachine(2, 0, msg);
    assert InPhase(w5, msg, 2);
    assert Run(w, 5) == (w5, []) by {
      assert Run(w4, 1) == (w5, []);
      assert Run(w3, 2) == (w5, []);
      assert Run(w2, 3) == (w5, []);
      assert Run(w1, 4) == (w5, []);
    }
  }

  /**
    The pair three ticks into frame position k (2..10): the receiver has
    just sampled position k, so it holds the data bits below k-1 and, at the
    parity position, the parity bit as sent.
   */
  ghost predicate Sampled(w: Link, msg: Message, k: int)
  {
    && 2 <= k <= 10 && !msg.flags.blank
    && w.tx == TxMachine(k, 3, msg)
    && w.rx.bit == k && w.rx.quantum == SMPQUANTUM
    && w.line == TxLevel(msg, k)
    && w.rx.cur.flags == NoFlags
    && (forall j :: 0 <= j < 8 && j < k - 1 ==> GetBit(w.rx.cur.data, j) == GetBit(msg.data, j))
    && (k == 10 ==> w.rx.cur.par == msg.par)
  }

  /** Three ticks into position k: the receiver enters it and samples it. */
  lemma SampleTicks(w: Link, msg: Message, k: int)
    requires InPhase(w, msg, k) && k <= 10 && LinkInv(w)
    ensures Run(w, 3).1 == [] && Sampled(Run(w, 3).0, msg, k)
  {
    var w1 := LinkStep(w).0;
    assert w1.rx.bit == k && w1.rx.quantum == 0 && w1.rx.cur == w.rx.cur && w1.tx == TxMachine(k, 1, msg) && w1.line == w.line;
    var w2 := LinkStep(w1).0;
    assert w2.rx.bit == k && w2.rx.quantum == 1 && w2.rx.cur == w.rx.cur && w2.tx == TxMachine(k, 2, msg) && w2.line == w.line;
    var w3 := LinkStep(w2).0;
    RxStepSpec(w2.rx, w2.line);
    assert w3.rx.bit == k && w3.rx.quantum == 2 && w3.tx == TxMachine(k, 3, msg) && w3.line == w.line;
    assert Sampled(w3, msg, k);
    assert Run(w, 3) == (w3, []) by {
      assert Run(w2, 1) == (w3, []);
      assert Run(w1, 2) == (w3, []);
    }
  }

  /** The last two ticks of position k: the transmitter moves on to k + 1 and drives its level. */
  lemma LeaveTicks(w: Link, msg: Message, k: int)
    requires Sampled(w, msg, k) && LinkInv(w)
    ensures Run(w, 2).1 == [] && InPhase(Run(w, 2).0, msg, k + 1)
  {
    var w1 := LinkStep(w).0;
    assert w1.rx.bit == k && w1.rx.quantum == 3 && w1.rx.cur == w.rx.cur && w1.tx == TxMachine(k, 4, msg) && w1.line == w.line;
    var w2 := LinkStep(w1).0;
    assert w2.rx.bit == k && w2.rx.quantum == 4 && w2.rx.cur == w.rx.cur && w2.tx == TxMachine(k + 1, 0, msg);
    assert w2.line == TxLevel(msg, k + 1);
    assert InPhase(w2, msg, k + 1);
    assert Run(w, 2) == (w2, []) by {
      assert Run(w1, 1) == (w2, []);
    }
  }

  /** Five ticks inside the frame: the receiver samples position k and both machines move on to k + 1. */
  lemma BitPeriod(w: Link, msg: Message, k: int)
    requires InPhase(w, msg, k) && k <= 10 && LinkInv(w)
    ensures Run(w, 5).1 == [] && InPhase(Run(w, 5).0, msg, k + 1)
  {
    SampleTicks(w, msg, k);
    LeaveTicks(Run(w, 3).0, msg, k);
    RunSplit(w, 3, 2);
    assert Run(w, 5).1 == [] + [];
  }

  /** The last six ticks: the stop bit is checked, the transmitter goes idle high and the frame completes. */
  lemma StopPeriod(w: Link, msg: Message)
    requires InPhase(w, msg, 11) && LinkInv(w)
    ensures |Run(w, 6).1| == 1
    ensures Run(w, 6).1[0].flags == NoFlags && Run(w, 6).1[0].par == msg.par
    ensures forall j :: 0 <= j < 8 ==> GetBit(Run(w, 6).1[0].data, j) == GetBit(msg.data, j)
  {
    var w1 := LinkStep(w).0;
    assert w1.rx.bit == 11 && w1.rx.quantum == 0 && w1.rx.cur == w.rx.cur && w1.tx == TxMachine(11, 1, msg) && w1.line == 1;
    var w2 := LinkStep(w1).0;
    assert w2.rx.bit == 11 && w2.rx.quantum == 1 && w2.rx.cur == w.rx.cur && w2.tx == TxMachine(11, 2, msg) && w2.line == 1;
    var w3 := LinkStep(w2).0;
    assert w3.rx.bit == 11 && w3.rx.quantum == 2 && w3.rx.cur == w.rx.cur && w3.tx == TxMachine(11, 3, msg) && w3.line == 1;
    var w4 := LinkStep(w3).0;
    assert w4.rx.bit == 11 && w4.rx.quantum == 3 && w4.rx.cur == w.rx.cur && w4.tx == TxMachine(11, 4, msg) && w4.line == 1;
    var w5 := LinkStep(w4).0;
    assert w5.rx.bit == 11 && w5.rx.quantum == 4 && w5.rx.cur == w.rx.cur && w5.tx.bit == 0 && w5.line == 1;
    var (w6, frame) := LinkStep(w5);
    assert frame == Some(w.rx.cur);
    assert Run(w, 6).1 == [w.rx.cur] by {
      assert Run(w5, 1).1 == [w.rx.cur];
      assert Run(w4, 2).1 == [w.rx.cur];
      assert Run(w3, 3).1 == [w.rx.cur];
      assert Run(w2, 4).1 == [w.rx.cur];
      assert Run(w1, 5).1 == [w.rx.cur];
    }
  }

  /** The stop period delivers the frame exactly as sent. */
  lemma StopDelivers(w: Link, msg: Message)
    requires InPhase(w, msg, 11) && LinkInv(w)
    ensures Run(w, 6).1 == [Message(msg.data, msg.par, NoFlags)]
  {
    StopPeriod(w, msg);
    var fs := Run(w, 6).1;
    BitsDetermineByte(fs[0].data, msg.data);
  }

  /** From position k on, the rest of the frame takes n = 5 * (11 - k) + 6 ticks and delivers it intact. */
  lemma {:induction false} FrameFrom(w: Link, msg: Message, k: int, n: nat)
    requires InPhase(w, msg, k) && LinkInv(w) && n == 5 * (11 - k) + 6
    ensures Run(w, n).1 == [Message(msg.data, msg.par, NoFlags)]
    decreases 11 - k
  {
    if k == 11 {
      assert n == 6;
      StopDelivers(w, msg);
      assert Run(w, n).1 == [Message(msg.data, msg.par, NoFlags)];
    } else {
      var w5 := BitThenRest(w, msg, k, n);
      FrameFrom(w5, msg, k + 1, n - 5);
      assert Run(w, n).1 == [Message(msg.data, msg.par, NoFlags)];
    }
  }

  /** One bit period, after which the remaining n - 5 ticks deliver what the whole n ticks do. */
  lemma BitThenRest(w: Link, msg: Message, k: int, n: nat) returns (w5: Link)
    requires InPhase(w, msg, k) && k <= 10 && LinkInv(w) && n == 5 * (11 - k) + 6
    ensures InPhase(w5, msg, k + 1) && LinkInv(w5)
    ensures Run(w, n).1 == Run(w5, n - 5).1
  {
    BitPeriod(w, msg, k);
    SilentPrefix(w, 5, n);
    w5 := Run(w, 5).0;
  }

  /** Ticks in which no frame arrives contribute nothing to the frames of a longer run. */
  lemma SilentPrefix(w: Link, a: nat, n: nat)
    requires LinkInv(w) && a <= n && Run(w, a).1 == []
    ensures Run(w, n).1 == Run(Run(w, a).0, n - a).1
  {
    RunSplit(w, a, n - a);
    assert a + (n - a) == n;
    assert [] + Run(Run(w, a).0, n - a).1 == Run(Run(w, a).0, n - a).1;
  }

  /** A silent stretch followed by one that delivers `fs` delivers `fs`. */
  lemma SilentThen(w: Link, a: nat, b: nat, fs: seq<Message>)
    requires LinkInv(w) && Run(w, a).1 == [] && Run(Run(w, a).0, b).1 == fs
    ensures Run(w, a + b).1 == fs
  {
    SilentPrefix(w, a, a + b);
  }

  /**
    Loopback: a non-blank message whose start bit has just gone out on an
    idle high line is received after 56 ticks as exactly its data and
    parity, with no stop error, clear or blank flag; no other frame is
    received meanwhile.
   */
  lemma Loopback(w: Link, msg: Message)
    requires Started(w, msg) && LinkInv(w)
    ensures Run(w, 56).1 == [Message(msg.data, msg.par, NoFlags)]
  {
    StartPeriod(w, msg);
    FrameFrom(Run(w, 5).0, msg, 2, 51);
    SilentThen(w, 5, 51, [Message(msg.data, msg.par, NoFlags)]);
  }

  /**
    End to end: a byte queued by SWUARTsend (not blank) and put on the line
    is read back by SWUARTreceive's checks as the same byte with status 0.
   */
  lemma LoopbackSendReceive(w: Link, data: byte, clearRx: bool)
    requires Started(w, Outgoing(data, clearRx, false)) && LinkInv(w)
    ensures |Run(w, 56).1| == 1
    ensures Run(w, 56).1[0].data == data && RxStatus(Run(w, 56).1[0]) == Ok
  {
    Loopback(w, Outgoing(data, clearRx, false));
  }
}
