/**
  The receive and transmit bit machines run by every SWUART_isr tick
  (SWUART.cpp:416-495 and 499-569).

  Both count `bit` through 0 (idle), 1 (start), 2..9 (data bits, least
  significant first), 10 (parity) and 11 (stop), and `quantum` through the
  BITQUANTI ticks of one line bit. The list and buffer work the ISR does
  around them (storing a finished frame, popping the next message) belongs
  to module Channels; here each machine is a pure step.
 */
module BitMachines {
  import opened SwuartConfig
  import opened Parity
  import opened Messages

  /** The receive state of a channel: RXbit, RXquantum, currRX and oldVal. */
  datatype RxMachine = RxMachine(bit: int, quantum: int, cur: Message, oldVal: Bit)

  /** The transmit state of a channel: TXbit, TXquantum and currTX. */
  datatype TxMachine = TxMachine(bit: int, quantum: int, cur: Message)

  /**
    The value a TX step has decided to drive: `NoWrite` is the C code's -1,
    `Undefined` the value of the default branch when TXbit has just wrapped
    to 0 (a shift by -2 in C).
   */
  datatype TxOut = NoWrite | Level(v: Bit) | Undefined

  /** The states a machine can be in: a bit position, and inside a bit a quantum below BITQUANTI. */
  predicate RxInv(m: RxMachine)
  {
    0 <= m.bit <= 11 && (m.bit != 0 ==> 0 <= m.quantum < BITQUANTI)
  }

  predicate TxInv(m: TxMachine)
  {
    0 <= m.bit <= 11 && (m.bit != 0 ==> 0 <= m.quantum < BITQUANTI)
  }

  /** The `switch (RXbit)` at the sampling quantum: start check, data bit, parity or stop check. */
  function RxSample(bit: int, cur: Message, smp: Bit): (r: (int, Message))
    requires 1 <= bit <= 11
    ensures bit == 1 ==> r == (if smp != 0 then 0 else 1, cur)
    ensures 2 <= bit <= 9 ==> r.0 == bit && r.1.par == cur.par && r.1.flags == cur.flags
    ensures 2 <= bit <= 9 ==> forall j :: 0 <= j < 8 ==> GetBit(r.1.data, j) == if j == bit - 2 then smp else GetBit(cur.data, j)
    ensures bit == 10 ==> r == (bit, cur.(par := smp))
    ensures bit == 11 ==> r.0 == bit && r.1.data == cur.data && r.1.par == cur.par
    ensures bit == 11 ==> r.1.flags == cur.flags.(stopErr := cur.flags.stopErr || smp != 1)
  {
    if bit == 1 then
      (if smp != 0 then 0 else bit, cur)
    else if bit == 10 then
      (bit, cur.(par := smp))
    else if bit == 11 then
      (bit, if smp != 1 then cur.(flags := cur.flags.(stopErr := true)) else cur)
    else
      SetBitAll(cur.data, bit - 2, smp);
      (bit, cur.(data := SetBit(cur.data, bit - 2, smp)))
  }

  /**
    One RX tick on line sample `smp`. The second component is the frame
    (currRX) that has just completed its stop period, if any; it is what the
    ISR stores or discards.
   */
  function RxStep(m: RxMachine, smp: Bit): (r: (RxMachine, Option<Message>))
    requires RxInv(m)
    ensures RxInv(r.0)
    ensures r.0.oldVal == smp
    ensures r.1.Some? ==> r.1.value == m.cur
  {
    var q := m.quantum + 1;
    var (bit1, q1, done) :=
      if m.bit != 0 && q == BITQUANTI then
        (if m.bit + 1 == 12 then (0, 0, Some(m.cur)) else (m.bit + 1, 0, None))
      else (m.bit, q, None);
    var (bit2, cur2) :=
      if m.bit != 0 && q1 == SMPQUANTUM then RxSample(bit1, m.cur, smp) else (bit1, m.cur);
    var start := bit2 == 0 && m.oldVal == 1 && smp == 0;
    var m' := if start then RxMachine(1, 0, cur2.(flags := NoFlags), smp) else RxMachine(bit2, q1, cur2, smp);
    (m', done)
  }

  /** What one RX tick does, case by case (SWUART.cpp:416-495). */
  lemma RxStepSpec(m: RxMachine, smp: Bit)
    requires RxInv(m)
    // an idle receiver starts a frame exactly on a falling edge, with a fresh quantum and cleared flags
    ensures var r := RxStep(m, smp);
      m.bit == 0 ==> (r.0.bit != 0 <==> m.oldVal == 1 && smp == 0)
    ensures var r := RxStep(m, smp);
      m.bit == 0 && r.0.bit != 0 ==> r.0.bit == 1 && r.0.quantum == 0 && r.0.cur == m.cur.(flags := NoFlags)
    // an idle receiver that sees no falling edge keeps currRX, flags included
    ensures var r := RxStep(m, smp);
      m.bit == 0 && !(m.oldVal == 1 && smp == 0) ==> r.0.bit == 0 && r.0.cur == m.cur
    // a frame completes exactly at the end of the stop period, and it is currRX as it stood
    ensures var r := RxStep(m, smp);
      r.1.Some? <==> m.bit == 11 && m.quantum + 1 == BITQUANTI
    // inside a frame, the bit position advances only at the end of a bit period
    ensures var r := RxStep(m, smp);
      m.bit != 0 && m.quantum + 1 < BITQUANTI && !(m.bit == 1 && m.quantum + 1 == SMPQUANTUM && smp != 0)
      ==> r.0.bit == m.bit && r.0.quantum == m.quantum + 1
    ensures var r := RxStep(m, smp);
      1 <= m.bit <= 10 && m.quantum + 1 == BITQUANTI ==> r.0.bit == m.bit + 1 && r.0.quantum == 0
    // the end of the stop period returns to idle, or straight into a new start bit on a falling edge
    ensures var r := RxStep(m, smp);
      m.bit == 11 && m.quantum + 1 == BITQUANTI ==>
      r.0.quantum == 0 &&
      (if m.oldVal == 1 && smp == 0 then r.0.bit == 1 && r.0.cur == m.cur.(flags := NoFlags)
       else r.0.bit == 0 && r.0.cur == m.cur)
    // data and parity change only at the sampling quantum
    ensures var r := RxStep(m, smp);
      m.bit == 0 || m.quantum + 1 != SMPQUANTUM ==> r.0.cur.data == m.cur.data && r.0.cur.par == m.cur.par
    // inside a frame the flags change only at the stop sample, or when a new start replaces the frame
    ensures var r := RxStep(m, smp);
      m.bit != 0 && !(m.bit == 11 && m.quantum + 1 == SMPQUANTUM) &&
      !(m.bit == 11 && m.quantum + 1 == BITQUANTI && m.oldVal == 1 && smp == 0)
      ==> r.0.cur.flags == m.cur.flags
    // the sample taken at SMPQUANTUM: start check, data bit bit-2, parity, stop check
    ensures var r := RxStep(m, smp);
      m.bit == 1 && m.quantum + 1 == SMPQUANTUM ==> r.0.bit == (if smp != 0 then 0 else 1) && r.0.cur == m.cur
    ensures var r := RxStep(m, smp);
      2 <= m.bit <= 9 && m.quantum + 1 == SMPQUANTUM ==>
      r.0.cur.par == m.cur.par && r.0.cur.flags == m.cur.flags &&
      forall j :: 0 <= j < 8 ==> GetBit(r.0.cur.data, j) == if j == m.bit - 2 then smp else GetBit(m.cur.data, j)
    ensures var r := RxStep(m, smp);
      m.bit == 10 && m.quantum + 1 == SMPQUANTUM ==> r.0.cur == m.cur.(par := smp)
    ensures var r := RxStep(m, smp);
      m.bit == 11 && m.quantum + 1 == SMPQUANTUM ==>
      r.0.cur == m.cur.(flags := m.cur.flags.(stopErr := m.cur.flags.stopErr || smp != 1))
  {
  }

  /**
    A CLEARRX_F on the frame in flight lasts until that frame ends: a tick
    either completes the frame carrying the flag, keeps receiving it with the
    flag still set, or abandons it at a failed start check.
   */
  lemma ClearRxKept(m: RxMachine, smp: Bit)
    requires RxInv(m) && m.bit != 0 && m.cur.flags.clearRx
    ensures var r := RxStep(m, smp);
      r.1.Some? ==> r.1.value.flags.clearRx
    ensures var r := RxStep(m, smp);
      r.1.None? ==> r.0.cur.flags.clearRx
    ensures var r := RxStep(m, smp);
      r.1.None? && r.0.bit == 0 ==> m.bit == 1 && m.quantum + 1 == SMPQUANTUM && smp != 0
  {
    RxStepSpec(m, smp);
  }

  /**
    The part of a TX tick that runs while not idle: at the end of a bit
    period move to the next bit (wrapping from the end of stop to idle) and
    pick the level of the new bit.
   */
  function TxAdvance(m: TxMachine): (r: (TxMachine, TxOut))
    requires TxInv(m)
    ensures r.0.cur == m.cur
    ensures m.bit == 0 ==> r == (m.(quantum := m.quantum + 1), NoWrite)
    ensures m.bit != 0 && m.quantum + 1 < BITQUANTI ==> r == (m.(quantum := m.quantum + 1), NoWrite)
    ensures m.bit != 0 && m.quantum + 1 == BITQUANTI ==> r.0.quantum == 0 && r.0.bit == (m.bit + 1) % 12
    ensures r.1 == Undefined <==> m.bit == 11 && m.quantum + 1 == BITQUANTI
    ensures r.0.bit == 0 || (r.0.bit == m.bit && r.1 == NoWrite) || r.1 == Level(TxLevel(m.cur, r.0.bit))
  {
    var q := m.quantum + 1;
    if m.bit != 0 && q == BITQUANTI then
      var b := if m.bit + 1 == 12 then 0 else m.bit + 1;
      var out :=
        if b == 10 then Level(m.cur.par)
        else if b == 11 then Level(1)
        else if b >= 2 then Level(GetBit(m.cur.data, b - 2))
        else Undefined;
      (TxMachine(b, 0, m.cur), out)
    else
      (m.(quantum := q), NoWrite)
  }

  /**
    A whole TX tick for a channel whose pending queue starts with `next`
    (None when it is empty). The second component is the value to drive;
    the third says whether `next` was taken off the queue.
   */
  function TxTick(m: TxMachine, next: Option<Message>): (r: (TxMachine, TxOut, bool))
    requires TxInv(m)
    ensures TxInv(r.0)
    // the undefined level of the wrap to idle is always replaced by the idle branch
    ensures r.1 != Undefined
  {
    var (m1, out1) := TxAdvance(m);
    if m1.bit == 0 then
      if next.Some? then (TxMachine(1, 0, next.value), Level(0), true) else (m1, Level(1), false)
    else
      (m1, out1, false)
  }

  /** What one TX tick does, case by case (SWUART.cpp:499-566). */
  lemma TxTickSpec(m: TxMachine, next: Option<Message>)
    requires TxInv(m)
    // a message is taken exactly when the machine is or has just become idle and one is queued
    ensures var r := TxTick(m, next);
      r.2 <==> next.Some? && (m.bit == 0 || (m.bit == 11 && m.quantum + 1 == BITQUANTI))
    ensures var r := TxTick(m, next);
      r.2 ==> r.0 == TxMachine(1, 0, next.value) && r.1 == Level(0)
    // with nothing queued an idle line is driven high
    ensures var r := TxTick(m, next);
      next.None? && (m.bit == 0 || (m.bit == 11 && m.quantum + 1 == BITQUANTI)) ==> r.0.bit == 0 && r.1 == Level(1)
    // inside a frame: a new bit's level exactly at each bit boundary, silence otherwise
    ensures var r := TxTick(m, next);
      1 <= m.bit <= 10 && m.quantum + 1 == BITQUANTI ==>
      r.0 == TxMachine(m.bit + 1, 0, m.cur) && r.1 == Level(TxLevel(m.cur, m.bit + 1))
    ensures var r := TxTick(m, next);
      m.bit != 0 && m.quantum + 1 < BITQUANTI ==> r.0 == m.(quantum := m.quantum + 1) && r.1 == NoWrite
  {
  }

  /** The pin write a TX tick performs: a defined level, unless the current message is blank. */
  function PinWrite(m: TxMachine, out: TxOut): (w: Option<Bit>)
    ensures w.Some? <==> out.Level? && !m.cur.flags.blank
    ensures w.Some? ==> w.value == out.v
  {
    if out.Level? && !m.cur.flags.blank then Some(out.v) else None
  }

  /** Reference definition of the line level for each frame position of message `msg`. */
  function TxLevel(msg: Message, bit: int): Bit
    requires 1 <= bit <= 11
  {
    if bit == 1 then 0
    else if bit <= 9 then GetBit(msg.data, bit - 2)
    else if bit == 10 then msg.par
    else 1
  }
}
