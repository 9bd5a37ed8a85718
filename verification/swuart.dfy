/**
  The public API of the software UART (SWUART.cpp, src/SWUART.h) over the
  registry of channels, and the ISR tick.

  The registry is the channel array with its two lists: the active channels
  in the order they were added and the free channel slots. Every API call
  and every tick is one atomic step; the interrupt masking the C code does
  around them is what makes that so. Pin levels read by a call are
  parameters and pin writes are returned, in order, as `PinOut` values.
 */
module Swuart {
  import opened SwuartConfig
  import opened CircularList
  import opened Parity
  import opened Messages
  import opened BitMachines
  import opened Channels

  datatype Registry = Registry(initialised: bool, slots: seq<Channel>, active: seq<nat>, free: seq<nat>)

  /** A writePin(pin, level) performed by a call. */
  datatype PinOut = PinOut(pin: int, level: Bit)

  /** The registry before SWUARTinit: zeroed channels and NULL list heads. */
  const Boot := Registry(false, Repeat(ZeroChannel, MAXUARTS), [], [])

  /** Active channels have pairwise distinct names and pairwise distinct TX pins. */
  ghost predicate Unclashed(r: Registry)
    requires forall j :: 0 <= j < |r.active| ==> r.active[j] < |r.slots|
  {
    forall j, k :: 0 <= j < k < |r.active| ==>
      r.slots[r.active[j]].name != r.slots[r.active[k]].name &&
      r.slots[r.active[j]].txPin != r.slots[r.active[k]].txPin
  }

  predicate ActiveInRange(r: Registry)
  {
    forall j :: 0 <= j < |r.active| ==> r.active[j] < |r.slots|
  }

  predicate FreeInRange(r: Registry)
  {
    forall j :: 0 <= j < |r.free| ==> r.free[j] < |r.slots|
  }

  /**
    The registry invariant. Before initialisation it is the boot state; after,
    the active and free lists share out the MAXUARTS slots, every channel is
    consistent and no two active channels share a name or a TX pin.
   */
  ghost predicate Valid(r: Registry)
  {
    && |r.slots| == MAXUARTS
    && (!r.initialised ==> r == Boot)
    && (r.initialised ==>
         && Partition(r.active, r.free, MAXUARTS)
         && (forall i :: 0 <= i < MAXUARTS ==> ChannelInv(r.slots[i]))
         && ActiveInRange(r) && FreeInRange(r)
         && Unclashed(r))
  }

  /** The channel counts and every buffer's node counts add up to their capacities. */
  lemma ValidConserves(r: Registry)
    requires Valid(r) && r.initialised
    ensures |r.active| + |r.free| == MAXUARTS
    ensures Disjoint(r.active, r.free)
    ensures forall i :: 0 <= i < |r.free| ==> r.free[i] < MAXUARTS
    ensures forall i :: 0 <= i < MAXUARTS ==>
      |r.slots[i].txBuf.pending| + |r.slots[i].txBuf.free| == TXBUFFLEN &&
      |r.slots[i].rxBuf.pending| + |r.slots[i].rxBuf.free| == RXBUFFLEN
  {
    PartitionFacts(r.active, r.free, MAXUARTS);
    forall i | 0 <= i < |r.free| ensures r.free[i] < MAXUARTS {
      assert r.free[i] in r.free;
    }
    forall i | 0 <= i < MAXUARTS
      ensures |r.slots[i].txBuf.pending| + |r.slots[i].txBuf.free| == TXBUFFLEN
      ensures |r.slots[i].rxBuf.pending| + |r.slots[i].rxBuf.free| == RXBUFFLEN
    {
      ChannelConserves(r.slots[i]);
    }
  }

  /** Replacing one channel by another with the same name and TX pin keeps the registry valid. */
  lemma UpdateKeepsValid(r: Registry, i: nat, ch: Channel)
    requires Valid(r) && r.initialised && i < |r.slots|
    requires ChannelInv(ch) && ch.name == r.slots[i].name && ch.txPin == r.slots[i].txPin
    ensures Valid(r.(slots := r.slots[i := ch]))
  {
    var r' := r.(slots := r.slots[i := ch]);
    assert forall j :: 0 <= j < |r.active| ==>
      r'.slots[r.active[j]].name == r.slots[r.active[j]].name && r'.slots[r.active[j]].txPin == r.slots[r.active[j]].txPin;
  }

  // ---------------------------------------------------------------- lookup

  /**
    The position, from position k on, of the first active channel named
    `name`: the do-while walk of searchUARTDSbyName, which stops at the
    first match or when it is back at the head.
   */
  function FindFrom(slots: seq<Channel>, active: seq<nat>, name: byte, k: nat): (p: Option<nat>)
    requires k <= |active| && forall j :: 0 <= j < |active| ==> active[j] < |slots|
    ensures p.None? <==> forall j :: k <= j < |active| ==> slots[active[j]].name != name
    ensures p.Some? ==> k <= p.value < |active| && slots[active[p.value]].name == name
    ensures p.Some? ==> forall j :: k <= j < p.value ==> slots[active[j]].name != name
    decreases |active| - k
  {
    if k == |active| then None
    else if slots[active[k]].name == name then Some(k)
    else FindFrom(slots, active, name, k + 1)
  }

  /** searchUARTDSbyName over the active list: the slot of the first channel named `name`. */
  function Lookup(r: Registry, name: byte): (res: Option<nat>)
    requires ActiveInRange(r)
    ensures res.None? <==> forall j :: 0 <= j < |r.active| ==> r.slots[r.active[j]].name != name
    ensures res.Some? ==> res.value in r.active && res.value < |r.slots| && r.slots[res.value].name == name
  {
    match FindFrom(r.slots, r.active, name, 0)
    case None => None
    case Some(p) => Some(r.active[p])
  }

  /** With distinct names, the channel Lookup finds is the only one with that name. */
  lemma LookupUnique(r: Registry, name: byte, j: nat)
    requires Valid(r) && r.initialised
    requires j < |r.active| && r.slots[r.active[j]].name == name
    ensures Lookup(r, name) == Some(r.active[j])
  {
    assert forall k :: 0 <= k < |r.active| && k != j ==> r.slots[r.active[k]].name != name;
  }

  /**
    The duplicate check of SWUARTadd from position k on: the first active
    channel whose name matches gives NAMEERR, or else whose TX pin matches
    gives TXUSED; the scan stops at that first clash.
   */
  function FirstClash(slots: seq<Channel>, active: seq<nat>, name: byte, txPin: int, k: nat): (e: Option<Status>)
    requires k <= |active| && forall j :: 0 <= j < |active| ==> active[j] < |slots|
    ensures e.None? <==> forall j :: k <= j < |active| ==> slots[active[j]].name != name && slots[active[j]].txPin != txPin
    ensures e == None || e == Some(NameErr) || e == Some(TxUsed)
    ensures e == Some(NameErr) ==> exists p :: (k <= p < |active| && slots[active[p]].name == name &&
      forall j :: k <= j < p ==> slots[active[j]].name != name && slots[active[j]].txPin != txPin)
    ensures e == Some(TxUsed) ==> exists p :: (k <= p < |active| && slots[active[p]].name != name && slots[active[p]].txPin == txPin &&
      forall j :: k <= j < p ==> slots[active[j]].name != name && slots[active[j]].txPin != txPin)
    decreases |active| - k
  {
    if k == |active| then None
    else if slots[active[k]].name == name then Some(NameErr)
    else if slots[active[k]].txPin == txPin then Some(TxUsed)
    else FirstClash(slots, active, name, txPin, k + 1)
  }

  // ---------------------------------------------------------------- API

  /**
    SWUARTinit: the first call initialises every channel and puts all of
    them on the free list; later calls change nothing. Starting the timer is
    not modelled.
   */
  function Init(r: Registry): (r': Registry)
    requires Valid(r)
    ensures Valid(r') && r'.initialised
    ensures r.initialised ==> r' == r
    ensures !r.initialised ==> r'.active == [] && r'.free == Range(MAXUARTS)
    ensures !r.initialised ==> forall i :: 0 <= i < MAXUARTS ==>
      r'.slots[i].txBuf.pending == [] && r'.slots[i].txBuf.free == Range(TXBUFFLEN) &&
      r'.slots[i].rxBuf.pending == [] && r'.slots[i].rxBuf.free == Range(RXBUFFLEN)
  {
    if r.initialised then r
    else
      var slots := seq(MAXUARTS, i requires 0 <= i < MAXUARTS => InitChannel(r.slots[i]));
      var r' := Registry(true, slots, [], Range(MAXUARTS));
      assert Partition(r'.active, r'.free, MAXUARTS);
      r'
  }

  /** The message SWUARTsend queues for `msg` with the requested flags. */
  function Outgoing(msg: byte, clearRx: bool, blank: bool): (m: Message)
    ensures m.data == msg && (m.par == 1 <==> PopCount(msg, 8) % 2 == 1)
    ensures m.flags == Flags(blank, clearRx, false)
  {
    Message(msg, ComputeParity(msg), Flags(blank, clearRx, false))
  }

  /**
    SWUARTsend: queue `msg` at the TX tail of channel `name`, with its parity
    and only the CLEARRX_F and BLANK_F flags asked for. Nothing changes on
    an error.
   */
  function Send(r: Registry, msg: byte, name: byte, clearRx: bool, blank: bool): (res: (Registry, Status))
    requires Valid(r)
    ensures Valid(res.0)
    ensures res.1 in {Ok, NoInit, NameErr, FullBuff}
    ensures res.1 == NoInit <==> !r.initialised
    ensures res.1 != Ok ==> res.0 == r
    ensures r.initialised ==> ActiveInRange(r)
    ensures r.initialised ==> (res.1 == NameErr <==> Lookup(r, name).None?)
    ensures r.initialised && Lookup(r, name).Some? ==>
      var i := Lookup(r, name).value;
      && (res.1 == FullBuff <==> r.slots[i].txBuf.free == [])
      && (res.1 == Ok ==>
           && res.0.active == r.active && res.0.free == r.free
           && NodesInRange(r.slots[i].txBuf) && NodesInRange(res.0.slots[i].txBuf)
           && Contents(res.0.slots[i].txBuf) == Contents(r.slots[i].txBuf) + [Outgoing(msg, clearRx, blank)]
           && res.0.slots == r.slots[i := r.slots[i].(txBuf := res.0.slots[i].txBuf)])
  {
    if !r.initialised then (r, NoInit)
    else
      match Lookup(r, name)
      case None => (r, NameErr)
      case Some(i) =>
        var ch := r.slots[i];
        if ch.txBuf.free == [] then (r, FullBuff)
        else
          var ch' := ch.(txBuf := Enqueue(ch.txBuf, Outgoing(msg, clearRx, blank), TXBUFFLEN));
          var r' := r.(slots := r.slots[i := ch']);
          UpdateKeepsValid(r, i, r'.slots[i]);
          (r', Ok)
  }

  /** The status SWUARTreceive reports for a message it has read: stop error first, then parity. */
  function RxStatus(m: Message): (s: Status)
    ensures s == StopErr <==> m.flags.stopErr
    ensures s == ParErr <==> !m.flags.stopErr && ComputeParity(m.data) != m.par
    ensures s == Ok <==> !m.flags.stopErr && ComputeParity(m.data) == m.par
  {
    if m.flags.stopErr then StopErr
    else if ComputeParity(m.data) != m.par then ParErr
    else Ok
  }

  /** A frame whose parity bit was computed from its data, received without a stop error, reads as status 0. */
  lemma IntactFrameOk(data: byte)
    ensures RxStatus(Message(data, ComputeParity(data), NoFlags)) == Ok
  {
  }

  /** One data bit corrupted on the line is always reported as a parity error. */
  lemma CorruptedBitDetected(data: byte, k: nat)
    requires k < 8
    ensures RxStatus(Message(data ^ (1 << (k as bv8)), ComputeParity(data), NoFlags)) == ParErr
  {
    FlipChangesParity(data, k);
  }

  /** A corrupted parity bit is reported as a parity error too. */
  lemma CorruptedParityDetected(data: byte)
    ensures RxStatus(Message(data, 1 - ComputeParity(data), NoFlags)) == ParErr
  {
  }

  /**
    SWUARTreceive: take the oldest received message of channel `name`. The
    data is delivered even when the status reports a parity or stop error.
   */
  function Receive(r: Registry, name: byte): (res: (Registry, Status, Option<byte>))
    requires Valid(r)
    ensures Valid(res.0)
    ensures res.1 in {Ok, NoInit, NameErr, EmptyBuff, ParErr, StopErr}
    ensures res.1 == NoInit <==> !r.initialised
    ensures res.2.None? <==> res.1 in {NoInit, NameErr, EmptyBuff}
    ensures res.1 in {NoInit, NameErr, EmptyBuff} ==> res.0 == r
    ensures r.initialised ==> ActiveInRange(r)
    ensures r.initialised ==> (res.1 == NameErr <==> Lookup(r, name).None?)
    ensures r.initialised && Lookup(r, name).Some? ==>
      var i := Lookup(r, name).value;
      && NodesInRange(r.slots[i].rxBuf)
      && (res.1 == EmptyBuff <==> Contents(r.slots[i].rxBuf) == [])
      && (Contents(r.slots[i].rxBuf) != [] ==>
           var m := Contents(r.slots[i].rxBuf)[0];
           && res.2 == Some(m.data) && res.1 == RxStatus(m)
           && res.0.active == r.active && res.0.free == r.free
           && NodesInRange(res.0.slots[i].rxBuf)
           && Contents(res.0.slots[i].rxBuf) == Contents(r.slots[i].rxBuf)[1..]
           && res.0.slots == r.slots[i := r.slots[i].(rxBuf := res.0.slots[i].rxBuf)])
  {
    if !r.initialised then (r, NoInit, None)
    else
      match Lookup(r, name)
      case None => (r, NameErr, None)
      case Some(i) =>
        var ch := r.slots[i];
        if ch.rxBuf.pending == [] then (r, EmptyBuff, None)
        else
          var (rxBuf', m) := Dequeue(ch.rxBuf, RXBUFFLEN);
          var r' := r.(slots := r.slots[i := ch.(rxBuf := rxBuf')]);
          UpdateKeepsValid(r, i, r'.slots[i]);
          (r', RxStatus(m), Some(m.data))
  }

  /**
    SWUARTclearBuffer: `rxSide` false empties the TX queue (a frame already on
    the line completes); true empties the RX queue and flags the frame being
    received so that it is not stored.
   */
  function ClearBuffer(r: Registry, rxSide: bool, name: byte): (res: (Registry, Status))
    requires Valid(r)
    ensures Valid(res.0)
    ensures res.1 in {Ok, NoInit, NameErr}
    ensures res.1 == NoInit <==> !r.initialised
    ensures res.1 != Ok ==> res.0 == r
    ensures r.initialised ==> ActiveInRange(r)
    ensures r.initialised ==> (res.1 == NameErr <==> Lookup(r, name).None?)
    ensures res.1 == Ok ==>
      var i := Lookup(r, name).value;
      var ch := r.slots[i];
      var ch' := res.0.slots[i];
      && res.0.active == r.active && res.0.free == r.free
      && res.0.slots == r.slots[i := ch']
      && (!rxSide ==> ch' == ch.(txBuf := ch'.txBuf) && ch'.txBuf.pending == [] && ch'.txBuf.free == ch.txBuf.free + ch.txBuf.pending)
      && (rxSide ==> ch' == ch.(rxBuf := ch'.rxBuf, rx := ch.rx.(cur := ch.rx.cur.(flags := ch.rx.cur.flags.(clearRx := true))))
                     && ch'.rxBuf.pending == [] && ch'.rxBuf.free == ch.rxBuf.free + ch.rxBuf.pending)
  {
    if !r.initialised then (r, NoInit)
    else
      match Lookup(r, name)
      case None => (r, NameErr)
      case Some(i) =>
        var ch := r.slots[i];
        var ch' :=
          if !rxSide then ch.(txBuf := Clear(ch.txBuf, TXBUFFLEN))
          else ch.(rxBuf := Clear(ch.rxBuf, RXBUFFLEN), rx := ch.rx.(cur := ch.rx.cur.(flags := ch.rx.cur.flags.(clearRx := true))));
        var r' := r.(slots := r.slots[i := ch']);
        UpdateKeepsValid(r, i, r'.slots[i]);
        (r', Ok)
  }

  /** The blank message SWUARTadd queues so that receivers can synchronise. */
  const BlankMessage := Outgoing(0, false, true)

  /**
    SWUARTadd: FULLBUFF when no slot is free (before any name test), else
    NAMEERR or TXUSED for the first active channel whose name, or else whose
    TX pin, is already taken (RX pins may be shared). Otherwise the channel
    is enrolled.
   */
  function Add(r: Registry, txPin: int, rxPin: int, name: byte, rxLevel: Bit): (res: (Registry, Status, seq<PinOut>))
    requires Valid(r)
    ensures Valid(res.0)
    ensures res.1 in {Ok, NoInit, NameErr, TxUsed, FullBuff}
    ensures res.1 == NoInit <==> !r.initialised
    ensures res.1 != Ok ==> res.0 == r && res.2 == []
    ensures res.1 == Ok ==> (r.initialised && r.free != [] && ActiveInRange(r) &&
      FirstClash(r.slots, r.active, name, txPin, 0).None? &&
      (res.0, res.2) == Enrol(r, txPin, rxPin, name, rxLevel))
  {
    if !r.initialised then (r, NoInit, [])
    else if r.free == [] then (r, FullBuff, [])
    else
      ValidConserves(r);
      var clash := FirstClash(r.slots, r.active, name, txPin, 0);
      if clash.Some? then (r, clash.value, [])
      else
        var (r', ws) := Enrol(r, txPin, rxPin, name, rxLevel);
        (r', Ok, ws)
  }

  /** Which error SWUARTadd reports: FULLBUFF first, then the first clash in list order. */
  lemma AddStatus(r: Registry, txPin: int, rxPin: int, name: byte, rxLevel: Bit)
    requires Valid(r) && r.initialised
    ensures ActiveInRange(r)
    ensures var res := Add(r, txPin, rxPin, name, rxLevel);
      res.1 == FullBuff <==> r.free == []
    ensures var res := Add(r, txPin, rxPin, name, rxLevel);
      r.free != [] ==> (res.1 == NameErr <==> FirstClash(r.slots, r.active, name, txPin, 0) == Some(NameErr))
    ensures var res := Add(r, txPin, rxPin, name, rxLevel);
      r.free != [] ==> (res.1 == TxUsed <==> FirstClash(r.slots, r.active, name, txPin, 0) == Some(TxUsed))
  {
    if r.free != [] {
      var clash := FirstClash(r.slots, r.active, name, txPin, 0);
      assert Add(r, txPin, rxPin, name, rxLevel).1 == if clash.Some? then clash.value else Ok;
    }
  }

  /** With a slot free, SWUARTadd rejects the channel exactly when its name or its TX pin is taken. */
  lemma AddRejectsTaken(r: Registry, txPin: int, rxPin: int, name: byte, rxLevel: Bit)
    requires Valid(r) && r.initialised && r.free != []
    ensures ActiveInRange(r)
    ensures Add(r, txPin, rxPin, name, rxLevel).1 in {NameErr, TxUsed} <==>
      exists j :: 0 <= j < |r.active| && (r.slots[r.active[j]].name == name || r.slots[r.active[j]].txPin == txPin)
  {
    AddStatus(r, txPin, rxPin, name, rxLevel);
    ClashIffTaken(r.slots, r.active, name, txPin);
  }

  /** The duplicate check fails exactly when some active channel already has the name or the TX pin. */
  lemma ClashIffTaken(slots: seq<Channel>, active: seq<nat>, name: byte, txPin: int)
    requires forall j :: 0 <= j < |active| ==> active[j] < |slots|
    ensures FirstClash(slots, active, name, txPin, 0).Some? <==>
      exists j :: 0 <= j < |active| && (slots[active[j]].name == name || slots[active[j]].txPin == txPin)
  {
    if FirstClash(slots, active, name, txPin, 0).Some? {
      var p :| 0 <= p < |active| && (slots[active[p]].name == name || slots[active[p]].txPin == txPin);
    }
  }

  /**
    The first part of the success path of SWUARTadd: the first free slot is
    reset, named, wired and enabled, `rxLevel` (the RX pin as read) becomes
    its old line value, and it is appended to the active list.
   */
  function Admit(r: Registry, txPin: int, rxPin: int, name: byte, rxLevel: Bit): (r': Registry)
    requires Valid(r) && r.initialised && r.free != [] && ActiveInRange(r)
    requires FirstClash(r.slots, r.active, name, txPin, 0).None?
    ensures Valid(r') && r'.initialised
    ensures var i := r.free[0];
      var ch := r'.slots[i];
      && r'.active == r.active + [i] && r'.free == r.free[1..]
      && r'.slots == r.slots[i := ch]
      && Lookup(r', name) == Some(i)
      && ch.name == name && ch.txPin == txPin && ch.rxPin == rxPin && ch.txEnabled && ch.rxEnabled
      && ch.tx == TxMachine(0, 0, r.slots[i].tx.cur) && ch.rx == RxMachine(0, 0, r.slots[i].rx.cur, rxLevel)
      && ch.txBuf.pending == [] && ch.txBuf.free != [] && ch.rxBuf.pending == []
  {
    ValidConserves(r);
    var i := r.free[0];
    var reset := ResetChannel(r.slots[i]);
    var ch := reset.(name := name, txPin := txPin, rxPin := rxPin,
                     rx := reset.rx.(oldVal := rxLevel), txEnabled := true, rxEnabled := true);
    var r1 := r.(slots := r.slots[i := ch], active := r.active + [i], free := r.free[1..]);
    AddKeepsValid(r, r1, i, ch);
    LookupUnique(r1, name, |r.active|);
    r1
  }

  /**
    The success path of SWUARTadd: the channel is admitted, its TX pin is
    driven high and one blank message is queued, which cannot fail on a
    freshly reset channel.
   */
  function Enrol(r: Registry, txPin: int, rxPin: int, name: byte, rxLevel: Bit): (res: (Registry, seq<PinOut>))
    requires Valid(r) && r.initialised && r.free != [] && ActiveInRange(r)
    requires FirstClash(r.slots, r.active, name, txPin, 0).None?
    ensures Valid(res.0) && res.0.initialised
    ensures res.0.active == r.active + [r.free[0]] && res.0.free == r.free[1..]
    ensures res.1 == [PinOut(txPin, 1)]
  {
    var r1 := Admit(r, txPin, rxPin, name, rxLevel);
    var i := r.free[0];
    var ch := r1.slots[i];
    InvInRange(ch.txBuf, TXBUFFLEN);
    var ch' := ch.(txBuf := Enqueue(ch.txBuf, BlankMessage, TXBUFFLEN));
    UpdateKeepsValid(r1, i, ch');
    (r1.(slots := r1.slots[i := ch']), [PinOut(txPin, 1)])
  }

  /** The enrolled channel: wired and enabled as asked, with both machines reset; no other slot changes. */
  lemma EnrolSpec(r: Registry, txPin: int, rxPin: int, name: byte, rxLevel: Bit)
    requires Valid(r) && r.initialised && r.free != [] && ActiveInRange(r)
    requires FirstClash(r.slots, r.active, name, txPin, 0).None?
    ensures r.free[0] < |r.slots|
    ensures var r' := Enrol(r, txPin, rxPin, name, rxLevel).0;
      var i := r.free[0];
      var ch := r'.slots[i];
      && r'.slots == r.slots[i := ch]
      && ch.name == name && ch.txPin == txPin && ch.rxPin == rxPin && ch.txEnabled && ch.rxEnabled
      && ch.tx == TxMachine(0, 0, r.slots[i].tx.cur) && ch.rx == RxMachine(0, 0, r.slots[i].rx.cur, rxLevel)
  {
    var i := r.free[0];
    var r1 := Admit(r, txPin, rxPin, name, rxLevel);
    assert Enrol(r, txPin, rxPin, name, rxLevel).0.slots == r1.slots[i := r1.slots[i].(txBuf := Enrol(r, txPin, rxPin, name, rxLevel).0.slots[i].txBuf)];
  }

  /** The enrolled channel's queues: the one blank message to send, nothing received. */
  lemma EnrolQueues(r: Registry, txPin: int, rxPin: int, name: byte, rxLevel: Bit)
    requires Valid(r) && r.initialised && r.free != [] && ActiveInRange(r)
    requires FirstClash(r.slots, r.active, name, txPin, 0).None?
    ensures r.free[0] < |r.slots|
    ensures var ch := Enrol(r, txPin, rxPin, name, rxLevel).0.slots[r.free[0]];
      && NodesInRange(ch.txBuf) && Contents(ch.txBuf) == [BlankMessage]
      && NodesInRange(ch.rxBuf) && Contents(ch.rxBuf) == []
  {
    var i := r.free[0];
    var ch := Admit(r, txPin, rxPin, name, rxLevel).slots[i];
    InvInRange(ch.txBuf, TXBUFFLEN);
    InvInRange(ch.rxBuf, RXBUFFLEN);
    assert Enrol(r, txPin, rxPin, name, rxLevel).0.slots[i] == ch.(txBuf := Enqueue(ch.txBuf, BlankMessage, TXBUFFLEN));
  }

  /** After enrolment the new name finds the new channel. */
  lemma EnrolLookup(r: Registry, txPin: int, rxPin: int, name: byte, rxLevel: Bit)
    requires Valid(r) && r.initialised && r.free != [] && ActiveInRange(r)
    requires FirstClash(r.slots, r.active, name, txPin, 0).None?
    ensures var r' := Enrol(r, txPin, rxPin, name, rxLevel).0;
      ActiveInRange(r') && Lookup(r', name) == Some(r.free[0])
  {
    var r' := Enrol(r, txPin, rxPin, name, rxLevel).0;
    EnrolSpec(r, txPin, rxPin, name, rxLevel);
    assert r'.active[|r.active|] == r.free[0];
    LookupUnique(r', name, |r.active|);
  }

  /** The blank message of SWUARTadd is queued by SWUARTsend itself, which succeeds on the admitted channel. */
  lemma EnrolSendsBlank(r: Registry, txPin: int, rxPin: int, name: byte, rxLevel: Bit)
    requires Valid(r) && r.initialised && r.free != [] && ActiveInRange(r)
    requires FirstClash(r.slots, r.active, name, txPin, 0).None?
    ensures var r1 := Admit(r, txPin, rxPin, name, rxLevel);
      Send(r1, 0, name, false, true) == (Enrol(r, txPin, rxPin, name, rxLevel).0, Ok)
  {
  }

  lemma AddKeepsValid(r: Registry, r1: Registry, i: nat, ch: Channel)
    requires Valid(r) && r.initialised && r.free != [] && i == r.free[0]
    requires ActiveInRange(r)
    requires FirstClash(r.slots, r.active, ch.name, ch.txPin, 0).None?
    requires ChannelInv(ch)
    requires r1 == r.(slots := r.slots[i := ch], active := r.active + [i], free := r.free[1..])
    ensures Valid(r1)
  {
    PartitionShift(r.active, r.free, MAXUARTS);
    assert AllChannelsInv(r1.slots);
    assert FreeInRange(r1) by {
      forall j | 0 <= j < |r1.free| ensures r1.free[j] < |r1.slots| {
        assert r1.free[j] == r.free[j + 1];
      }
    }
    UnclashedAppend(r, r1, i, ch);
  }

  /** Appending a channel that clashes with no active one keeps the active channels unclashed. */
  lemma UnclashedAppend(r: Registry, r1: Registry, i: nat, ch: Channel)
    requires ActiveInRange(r) && Unclashed(r) && i < |r.slots| && i !in r.active
    requires FirstClash(r.slots, r.active, ch.name, ch.txPin, 0).None?
    requires r1.slots == r.slots[i := ch] && r1.active == r.active + [i]
    ensures ActiveInRange(r1) && Unclashed(r1)
  {
    forall j | 0 <= j < |r.active| ensures r1.slots[r1.active[j]] == r.slots[r.active[j]] {
      assert r.active[j] in r.active;
    }
    forall j, k | 0 <= j < k < |r1.active|
      ensures r1.slots[r1.active[j]].name != r1.slots[r1.active[k]].name
      ensures r1.slots[r1.active[j]].txPin != r1.slots[r1.active[k]].txPin
    {
      if k == |r.active| {
        assert r1.slots[r1.active[k]] == ch;
      }
    }
  }

  // ---------------------------------------------------------------- tick

  predicate AllInRange(act: seq<nat>, n: nat)
  {
    forall j :: 0 <= j < |act| ==> act[j] < n
  }

  ghost predicate AllChannelsInv(slots: seq<Channel>)
  {
    forall i :: 0 <= i < |slots| ==> ChannelInv(slots[i])
  }

  /** Two channel records with the same name and pins. */
  predicate SameIdentity(c: Channel, d: Channel)
  {
    c.name == d.name && c.txPin == d.txPin && c.rxPin == d.rxPin
  }

  /** The RX loop of SWUART_isr: every channel of `act` takes its RX step on the level its RX pin reads. */
  function RxPass(slots: seq<Channel>, act: seq<nat>, levels: int -> Bit): (s': seq<Channel>)
    requires AllChannelsInv(slots) && AllInRange(act, |slots|) && Distinct(act)
    ensures |s'| == |slots| && AllChannelsInv(s')
    ensures forall i :: 0 <= i < |slots| ==> SameIdentity(s'[i], slots[i])
    ensures forall i :: 0 <= i < |slots| ==> s'[i] == if i in act then ChannelRx(slots[i], levels(slots[i].rxPin)) else slots[i]
    decreases |act|
  {
    if act == [] then slots
    else
      var i := act[0];
      var s1 := slots[i := ChannelRx(slots[i], levels(slots[i].rxPin))];
      DistinctTail(act, |slots|);
      RxPass(s1, act[1..], levels)
  }

  /** Splitting a list of distinct channel slots into its head and the rest. */
  lemma DistinctTail(act: seq<nat>, n: nat)
    requires act != [] && Distinct(act) && AllInRange(act, n)
    ensures Distinct(act[1..]) && AllInRange(act[1..], n) && act[0] !in act[1..]
    ensures forall k :: k in act <==> k == act[0] || k in act[1..]
  {
    assert act == [act[0]] + act[1..];
    forall j | 0 <= j < |act[1..]| ensures act[1..][j] != act[0] {
      assert act[1..][j] == act[j + 1];
    }
  }

  /** The pin write one channel's TX step performs, as a list of at most one write. */
  function WriteOf(ch: Channel): (ws: seq<PinOut>)
    requires ChannelInv(ch)
    ensures |ws| <= 1 && (ws != [] <==> ChannelTx(ch).1.Some?)
    ensures ws != [] ==> ws[0] == PinOut(ch.txPin, ChannelTx(ch).1.value)
  {
    var w := ChannelTx(ch).1;
    if w.Some? then [PinOut(ch.txPin, w.value)] else []
  }

  /** Reference definition: the writes of the channels of `act`, in list order, each from its own TX step. */
  function TxWrites(slots: seq<Channel>, act: seq<nat>): seq<PinOut>
    requires AllChannelsInv(slots) && AllInRange(act, |slots|)
  {
    if act == [] then [] else WriteOf(slots[act[0]]) + TxWrites(slots, act[1..])
  }

  /** A pin is written exactly for the channels whose TX step produces a level, with that level. */
  lemma {:induction false} TxWritesMembers(slots: seq<Channel>, act: seq<nat>)
    requires AllChannelsInv(slots) && AllInRange(act, |slots|)
    ensures |TxWrites(slots, act)| <= |act|
    ensures forall w :: w in TxWrites(slots, act) <==> exists j :: 0 <= j < |act| && w in WriteOf(slots[act[j]])
  {
    if act != [] {
      var rest := act[1..];
      TxWritesMembers(slots, rest);
      assert TxWrites(slots, act) == WriteOf(slots[act[0]]) + TxWrites(slots, rest);
      forall w | w in TxWrites(slots, act)
        ensures exists j :: 0 <= j < |act| && w in WriteOf(slots[act[j]])
      {
        if w !in WriteOf(slots[act[0]]) {
          var j :| 0 <= j < |rest| && w in WriteOf(slots[rest[j]]);
          assert rest[j] == act[j + 1];
        }
      }
      forall w | exists j :: 0 <= j < |act| && w in WriteOf(slots[act[j]])
        ensures w in TxWrites(slots, act)
      {
        var j :| 0 <= j < |act| && w in WriteOf(slots[act[j]]);
        if j > 0 {
          assert rest[j - 1] == act[j];
        }
      }
    }
  }

  /** The writes depend only on the channels in `act`. */
  lemma {:induction false} TxWritesFrame(slots: seq<Channel>, slots': seq<Channel>, act: seq<nat>)
    requires AllChannelsInv(slots) && AllInRange(act, |slots|)
    requires AllChannelsInv(slots') && AllInRange(act, |slots'|)
    requires forall j :: 0 <= j < |act| ==> slots'[act[j]] == slots[act[j]]
    ensures TxWrites(slots', act) == TxWrites(slots, act)
  {
    if act != [] {
      TxWritesFrame(slots, slots', act[1..]);
    }
  }

  /** The TX loop of SWUART_isr: every channel of `act` takes its TX step; the writes come out in loop order. */
  function TxPass(slots: seq<Channel>, act: seq<nat>): (r: (seq<Channel>, seq<PinOut>))
    requires AllChannelsInv(slots) && AllInRange(act, |slots|) && Distinct(act)
    ensures |r.0| == |slots| && AllChannelsInv(r.0)
    ensures forall i :: 0 <= i < |slots| ==> SameIdentity(r.0[i], slots[i])
    decreases |act|
  {
    if act == [] then (slots, [])
    else
      var i := act[0];
      var (ch', w) := ChannelTx(slots[i]);
      DistinctTail(act, |slots|);
      var (s2, ws) := TxPass(slots[i := ch'], act[1..]);
      (s2, WriteOf(slots[i]) + ws)
  }

  /** Each channel of `act` has taken exactly its own TX step; the others are untouched. */
  lemma {:induction false} TxPassSlots(slots: seq<Channel>, act: seq<nat>)
    requires AllChannelsInv(slots) && AllInRange(act, |slots|) && Distinct(act)
    ensures forall i :: 0 <= i < |slots| ==> TxPass(slots, act).0[i] == if i in act then ChannelTx(slots[i]).0 else slots[i]
    decreases |act|
  {
    if act != [] {
      var i := act[0];
      var s1 := slots[i := ChannelTx(slots[i]).0];
      DistinctTail(act, |slots|);
      TxPassSlots(s1, act[1..]);
      assert TxPass(slots, act).0 == TxPass(s1, act[1..]).0;
    }
  }

  /** The writes of the loop are the writes each channel's own TX step performs, in list order. */
  lemma {:induction false} TxPassWrites(slots: seq<Channel>, act: seq<nat>)
    requires AllChannelsInv(slots) && AllInRange(act, |slots|) && Distinct(act)
    ensures TxPass(slots, act).1 == TxWrites(slots, act)
    decreases |act|
  {
    if act != [] {
      var i := act[0];
      var s1 := slots[i := ChannelTx(slots[i]).0];
      var rest := act[1..];
      DistinctTail(act, |slots|);
      TxPassWrites(s1, rest);
      assert forall j :: 0 <= j < |rest| ==> s1[rest[j]] == slots[rest[j]];
      TxWritesFrame(slots, s1, rest);
      assert TxPass(slots, act).1 == WriteOf(slots[i]) + TxPass(s1, rest).1;
    }
  }

  /**
    SWUART_isr: nothing happens while no channel is active. Otherwise every
    active channel's RX step runs on `levels` (the pins as read at the start
    of the tick), then every TX step; so no read of a tick sees a write of
    the same tick.
   */
  function Tick(r: Registry, levels: int -> Bit): (res: (Registry, seq<PinOut>))
    requires Valid(r)
    ensures Valid(res.0)
    ensures res.0.initialised == r.initialised && res.0.active == r.active && res.0.free == r.free
    ensures r.active == [] ==> res == (r, [])
    ensures |res.0.slots| == |r.slots| && forall i :: 0 <= i < |r.slots| ==> SameIdentity(res.0.slots[i], r.slots[i])
  {
    if r.active == [] then (r, [])
    else
      PartitionFacts(r.active, r.free, MAXUARTS);
      var s1 := RxPass(r.slots, r.active, levels);
      var (s2, ws) := TxPass(s1, r.active);
      SameIdentitiesKeepValid(r, s2);
      (r.(slots := s2), ws)
  }

  /** Each active channel takes its RX step and then its TX step; every other slot is left alone. */
  lemma TickSlots(r: Registry, levels: int -> Bit)
    requires Valid(r)
    ensures forall i :: 0 <= i < |r.slots| ==> (Tick(r, levels).0.slots[i] ==
      if i in r.active then ChannelTx(ChannelRx(r.slots[i], levels(r.slots[i].rxPin))).0 else r.slots[i])
  {
    if r.active != [] {
      PartitionFacts(r.active, r.free, MAXUARTS);
      PassSlots(r.slots, r.active, levels);
    }
  }

  lemma PassSlots(slots: seq<Channel>, act: seq<nat>, levels: int -> Bit)
    requires AllChannelsInv(slots) && AllInRange(act, |slots|) && Distinct(act)
    ensures forall i :: 0 <= i < |slots| ==> (TxPass(RxPass(slots, act, levels), act).0[i] ==
      if i in act then ChannelTx(ChannelRx(slots[i], levels(slots[i].rxPin))).0 else slots[i])
  {
    TxPassSlots(RxPass(slots, act, levels), act);
  }

  lemma TickWrites(r: Registry, levels: int -> Bit)
    requires Valid(r)
    ensures r.initialised ==> AllChannelsInv(r.slots) && ActiveInRange(r) && Distinct(r.active)
    ensures r.initialised ==> Tick(r, levels).1 == TxWrites(RxPass(r.slots, r.active, levels), r.active)
  {
    if r.initialised {
      PartitionFacts(r.active, r.free, MAXUARTS);
      TxPassWrites(RxPass(r.slots, r.active, levels), r.active);
    }
  }

  /** A tick writes only TX pins of active channels. */
  lemma TickWritesPins(r: Registry, levels: int -> Bit)
    requires Valid(r)
    ensures ActiveInRange(r)
    ensures forall w :: w in Tick(r, levels).1 ==> exists j :: 0 <= j < |r.active| && w.pin == r.slots[r.active[j]].txPin
  {
    TickWrites(r, levels);
    if r.initialised {
      PassWritesPins(r.slots, r.active, levels);
    }
  }

  lemma PassWritesPins(slots: seq<Channel>, act: seq<nat>, levels: int -> Bit)
    requires AllChannelsInv(slots) && AllInRange(act, |slots|) && Distinct(act)
    ensures forall w :: w in TxWrites(RxPass(slots, act, levels), act) ==> exists j :: 0 <= j < |act| && w.pin == slots[act[j]].txPin
  {
    var s1 := RxPass(slots, act, levels);
    TxWritesPins(s1, act);
    assert forall j :: 0 <= j < |act| ==> SameIdentity(s1[act[j]], slots[act[j]]);
  }

  /** Every write of the TX loop goes to the TX pin of a channel of `act`. */
  lemma TxWritesPins(slots: seq<Channel>, act: seq<nat>)
    requires AllChannelsInv(slots) && AllInRange(act, |slots|)
    ensures forall w :: w in TxWrites(slots, act) ==> exists j :: 0 <= j < |act| && w.pin == slots[act[j]].txPin
  {
    TxWritesMembers(slots, act);
  }

  /** Replacing the channels by ones with the same names and TX pins keeps the registry valid. */
  lemma SameIdentitiesKeepValid(r: Registry, s': seq<Channel>)
    requires Valid(r) && r.initialised && |s'| == |r.slots| && AllChannelsInv(s')
    requires forall i :: 0 <= i < |r.slots| ==> s'[i].name == r.slots[i].name && s'[i].txPin == r.slots[i].txPin
    ensures Valid(r.(slots := s'))
  {
    var r' := r.(slots := s');
    assert forall j :: 0 <= j < |r.active| ==>
      r'.slots[r.active[j]].name == r.slots[r.active[j]].name && r'.slots[r.active[j]].txPin == r.slots[r.active[j]].txPin;
  }

  /**
    SWUARTreceive_blocking with its busy-wait bounded: one SWUARTreceive
    attempt, then, while the queue is empty, one tick on the next pin levels
    of `ticks` and another attempt. None means the levels ran out while
    still waiting; any status it returns is never EMPTYBUFF.
   */
  function ReceiveBlocking(r: Registry, name: byte, ticks: seq<int -> Bit>): (res: (Registry, Option<Status>, Option<byte>, seq<PinOut>))
    requires Valid(r)
    ensures Valid(res.0)
    ensures res.1 != Some(EmptyBuff)
    ensures res.1.Some? ==> res.1.value in {Ok, NoInit, NameErr, ParErr, StopErr}
    ensures res.1 == Some(NoInit) <==> !r.initialised
    ensures r.initialised ==> ActiveInRange(r)
    ensures r.initialised ==> (res.1 == Some(NameErr) <==> Lookup(r, name).None?)
    ensures res.2.Some? <==> res.1.Some? && res.1.value in {Ok, ParErr, StopErr}
    ensures Receive(r, name).1 != EmptyBuff ==> res == (Receive(r, name).0, Some(Receive(r, name).1), Receive(r, name).2, [])
    decreases |ticks|
  {
    var (r1, st, d) := Receive(r, name);
    if st != EmptyBuff then (r1, Some(st), d, [])
    else if ticks == [] then (r1, None, None, [])
    else
      var (r2, ws) := Tick(r1, ticks[0]);
      TickKeepsLookup(r1, ticks[0], name);
      var (r3, st', d', ws') := ReceiveBlocking(r2, name, ticks[1..]);
      (r3, st', d', ws + ws')
  }

  /** A tick never adds, removes or renames a channel, so it does not change what Lookup finds. */
  lemma TickKeepsLookup(r: Registry, levels: int -> Bit, name: byte)
    requires Valid(r) && r.initialised
    ensures ActiveInRange(r) && ActiveInRange(Tick(r, levels).0)
    ensures Lookup(Tick(r, levels).0, name) == Lookup(r, name)
  {
    var r' := Tick(r, levels).0;
    assert forall j :: 0 <= j < |r.active| ==> r'.slots[r.active[j]].name == r.slots[r.active[j]].name;
    FindFromSameNames(r.slots, r'.slots, r.active, name, 0);
  }

  lemma {:induction false} FindFromSameNames(s: seq<Channel>, s': seq<Channel>, active: seq<nat>, name: byte, k: nat)
    requires k <= |active| && forall j :: 0 <= j < |active| ==> active[j] < |s| && active[j] < |s'|
    requires forall j :: 0 <= j < |active| ==> s'[active[j]].name == s[active[j]].name
    ensures FindFrom(s', active, name, k) == FindFrom(s, active, name, k)
    decreases |active| - k
  {
    if k < |active| {
      FindFromSameNames(s, s', active, name, k + 1);
    }
  }
}
