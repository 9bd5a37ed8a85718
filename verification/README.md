# SWUART in Dafny

A verified model of the core of SWUART, a software UART for microcontrollers.
Many slow serial channels are emulated with plain GPIO reads and writes, all
driven by one periodic interrupt routine. The model covers two layers.

- **The fixed-arena circular doubly linked list** of `myList.cpp` (the same
  eight functions appear without comments in `src/myList.cpp`, declared in
  `src/myList.h`). Module `CircularList` keeps the arena as `prev`/`next`/`data`
  sequences, with `NIL` (-1) for the null pointer. Every list function is a
  method that takes the represented sequence as a ghost argument. Its contract
  gives the sequence left behind: `s + [el]`, `[el] + s`, `s` with one position
  removed, `to + from`. It also frames the rest of the arena: nodes outside the
  lists involved keep their links. `IsList` is the well-formedness predicate, and
  `LinksInverse` derives the pointer discipline `next[prev[x]] == x` from it.
- **The software UART engine** of `SWUART.cpp`, configured by `src/SWUART.h`.
  - `SwuartConfig` holds the constants and the return codes.
  - `Parity` covers bytes and `computeParity`.
  - `Messages` covers messages and a buffer: a payload array plus its pending
    and free lists, kept as sequences of node indices.
  - `ListBuffer` proves that the arena methods realise exactly those sequence
    operations.
  - `BitMachines` holds the RX and TX bit machines of one `SWUART_isr` tick.
  - `Channels` holds one `UARTDS` record with its per-channel RX and TX halves.
  - `Swuart` holds the registry of channels, the public API and the whole tick.
  - `Iteration` holds a generic iteration of a step that emits values, and the
    lemma that splits such an iteration in two.
  - `Loopback` pairs one bare TX bit machine with one bare RX bit machine on
    a shared wire, the wiring of `laptop_test/main.c` where channel `'A'`
    transmits on the pin channel `'B'` receives on. It shows that one
    non-blank frame the transmitter starts on an idle line arrives intact 56
    ticks later. It covers the bit machines only, not the channels and
    registry around them.

Every API call and every tick is one atomic step on an immutable `Registry`
value. The C code achieves this by masking interrupts around the calls.

- Pin levels a call reads are parameters: `rxLevel` for `SWUARTadd`, and the
  `levels` function of a tick.
- Pin writes are returned in order as `PinOut` values.
- Inside a tick the RX loop reads every pin before the TX loop writes any. So a
  receiver wired to a transmitter sees each level one tick after it is driven.

Quirks of the C code that the model reproduces:

- `initUARTDS` initialises the pending heads twice. The free lists still end up
  full, because `resetUARTDS` merges into free heads that static storage left
  NULL (`InitBuffer`, `Build`).
- When `TXbit` wraps to 0, the TX `switch` computes an undefined level (a shift
  by -2). The idle branch always replaces it (`TxAdvance`, `TxTick`).
- `BLANK_F` stays in `currTX` after a blank frame. An idle transmitter with
  nothing queued then does not even drive the line high
  (`BlankKeepsIdleSilent`).
- A `CLEARRX_F` set on `currRX` while the receiver is idle is wiped by the next
  start detection (`StartWipesClearRx`).

`computeParity` sums `msg >> b` into a `char` for b = 0..7 and keeps the low
bit. Only bit b of `msg` reaches the low bit of `msg >> b`, whether the shift is
arithmetic or logical. So the model uses logical `bv8` shifts and a sum that
wraps modulo 256.

## Model

| member | source | states |
|---|---|---|
| SwuartConfig.Code | src/SWUART.h:37-43 | each status has a code in 0..7, 0 exactly for success, and the code reads back as that status |
| SwuartConfig.CodesDistinct | src/SWUART.h:37-43 | two statuses share a code only if they are the same status |
| CircularList.LinksInverse | src/myList.h:28-35 | in a well-formed list the prev and next of a member are members, and next of prev and prev of next lead back to it |
| CircularList.InitList | myList.cpp:13-42 | bufflen 0 gives an empty list (NULL head) and touches nothing; otherwise nodes 0..n-1 form the circular list 0,1,...,n-1, node o bound to payload o, and later nodes are untouched |
| CircularList.InitLinks | src/myList.cpp:11-28 | the prev/next values the initList loop writes link 0..n-1 into one circular list headed by node 0 |
| CircularList.AppendTail | myList.cpp:49-64 | the list becomes s + [el] (a self-linked singleton when empty), and only el, the old head and the old tail are relinked |
| CircularList.AppendTailLinks | src/myList.cpp:39-48 | the four pointer writes of a non-empty appendTail yield the circular list s + [el] |
| CircularList.AppendHead | myList.cpp:70-73 | the list becomes [el] + s with el as the new head |
| CircularList.RemoveElement | myList.cpp:82-103 | for a member, the list becomes s without it with the others in order; the head moves to its successor if removed, a singleton becomes empty, and the removed node's links become NULL |
| CircularList.SelfLinkedIffAlone | src/myList.cpp:62-63 | a member links to itself exactly when it is the only element, the case removeElement tests |
| CircularList.RemoveLinks | src/myList.cpp:56-77 | the pointer updates of removeElement leave exactly the list with that position removed |
| CircularList.RemoveAtMembers | src/myList.h:70-77 | removing a member of a duplicate-free list leaves a duplicate-free list whose members are the others |
| CircularList.RemoveElementSafe | myList.cpp:116-135 | returns 0 exactly when the element is in the list, and then it is removed with its links set to NULL, no other node outside the list relinked, and the head rules of removeElement; otherwise returns 1 with nothing changed |
| CircularList.RemoveHead | myList.cpp:143-150 | NULL and no change on an empty list; otherwise returns the first element, unlinked, and the list becomes the rest |
| CircularList.RemoveTail | myList.cpp:158-165 | NULL and no change on an empty list; otherwise returns the last element, unlinked, and the list becomes the others |
| CircularList.MergeList | myList.cpp:173-194 | to becomes to + from and from becomes empty; nothing changes when from is empty, and to takes over from's head when to is empty |
| CircularList.MergeLinks | src/myList.cpp:129-138 | the four pointer writes of a non-degenerate merge yield the circular list to + from |
| CircularList.PartitionShift | src/myList.h:11-13 | moving the head of one list of an arena partition to the other list keeps the partition |
| CircularList.MoveHead | SWUART.cpp:294-304 | removeHead on one list then appendTail on the other moves exactly its first node, keeps the two lists a partition of the arena, and leaves the payload bindings alone |
| CircularList.MergeAll | SWUART.cpp:392-395 | merging one list of an arena partition into the other empties it, keeps the partition, and leaves the payload bindings alone |
| Parity.SetBitSpec | SWUART.cpp:3-5 | SETFLAG/RESETFLAG on bit k make bit k read back as the value written and leave every other bit alone |
| Parity.ComputeParity | SWUART.cpp:153-160 | the parity is 1 exactly when the byte has an odd number of set bits |
| Parity.ShiftSumLowBit | SWUART.cpp:155-158 | after n rounds of the accumulation, the low bit of the sum is the parity of bits 0..n-1 |
| Parity.PopCountFlip | SWUART.cpp:155-158 | flipping one bit changes the set-bit count by one, up or down according to the old bit |
| Parity.FlipChangesParity | SWUART.cpp:342-343 | one corrupted data bit always changes the computed parity |
| Parity.DoubleFlipKeepsParity | SWUART.cpp:342-343 | two corrupted data bits never change the computed parity |
| Messages.Clear | SWUART.cpp:111-112 | mergeList(pending, free) empties the queue and appends its nodes to the free list, keeping the partition |
| Messages.Enqueue | SWUART.cpp:294-304 | the queue grows by exactly the new message at its tail and the free list loses its head |
| Messages.Dequeue | SWUART.cpp:336-345 | the oldest queued message comes out, the queue loses it, and its node joins the free tail |
| Messages.InitBuffer | SWUART.cpp:120-130 | initUARTDS on one direction leaves an empty queue and the full free list 0..cap-1 |
| Messages.EnqueueDequeueFifo | SWUART.cpp:294-345 | enqueueing behind a non-empty queue changes neither the next message out nor the order of the rest |
| Messages.EnqueueEmptyDequeue | SWUART.cpp:294-345 | a message enqueued into an empty queue is the next one out |
| ListBuffer.PutMessage | SWUART.cpp:294-304 | the arena list calls of a send leave the heads denoting exactly the enqueued buffer |
| ListBuffer.TakeMessage | SWUART.cpp:336-345 | the arena list calls of a receive yield the dequeued message and the dequeued buffer |
| ListBuffer.ClearAll | SWUART.cpp:392-395 | the arena merge of a clear leaves the heads denoting the cleared buffer |
| ListBuffer.Build | SWUART.cpp:120-127 | the initList calls and the reset merge leave the arena denoting the initial buffer |
| BitMachines.RxSample | SWUART.cpp:451-478 | at the sampling quantum: a high start sample aborts to idle; a data sample sets only bit RXbit-2; the parity sample is stored; a stop sample other than 1 sets STOPERR_F |
| BitMachines.RxStep | SWUART.cpp:416-495 | one RX tick keeps the machine in a reachable state, records the sample as the old line value, and completes a frame only as the current message |
| BitMachines.RxStepSpec | SWUART.cpp:419-491 | the RX machine leaves idle exactly on a falling edge with cleared flags, completes a frame exactly at the end of the stop period and then returns to idle (or to a new start bit on a falling edge in the same tick), keeps currRX while idle without an edge, advances a bit only every BITQUANTI ticks, changes data and parity only at SMPQUANTUM, and inside a frame changes the flags only at the stop sample or a same-tick restart |
| BitMachines.ClearRxKept | SWUART.cpp:419-487 | a CLEARRX_F on the frame in flight survives every tick until the frame completes carrying it, unless a failed start check abandons the frame |
| BitMachines.TxAdvance | SWUART.cpp:506-534 | the bit advances only at a quantum boundary, wrapping after stop; the new bit's level is chosen, and it is undefined exactly at the wrap |
| BitMachines.TxTick | SWUART.cpp:503-564 | a TX tick keeps the machine reachable and never drives the undefined level |
| BitMachines.TxTickSpec | SWUART.cpp:508-563 | a message is popped exactly when the machine is or just became idle with one queued, and the start bit 0 is driven; idle with nothing queued drives 1; each bit boundary drives the next bit's level; otherwise nothing is driven |
| Channels.ResetChannel | SWUART.cpp:94-113 | name, pins, enables, bit positions, quanta and old value are zeroed, and both queues are emptied into their free lists with all nodes free; the payload arrays are kept |
| Channels.InitChannel | SWUART.cpp:120-130 | both directions end with an empty queue and the full free list 0..cap-1 |
| Channels.ChannelRx | SWUART.cpp:416-492 | the RX half of a tick keeps the channel consistent and leaves its TX side, name, pins and enables unchanged |
| Channels.ChannelRxSpec | SWUART.cpp:429-447 | a completed frame is appended to the RX queue, dropped when no node is free, or clears the queue when it carries CLEARRX_F; otherwise the queue is unchanged |
| Channels.ChannelTx | SWUART.cpp:502-566 | the TX half of a tick keeps the channel consistent and leaves name, pins and enables unchanged |
| Channels.ChannelTxSpec | SWUART.cpp:540-566 | a popped message leaves the TX queue and becomes currTX; if it carries CLEARRX_F the RX queue is emptied and currRX is flagged, otherwise the RX side is untouched |
| Channels.ChannelConserves | SWUART.cpp:30-34 | a channel's pending and free node counts add up to TXBUFFLEN and RXBUFFLEN |
| Channels.BlankKeepsIdleSilent | SWUART.cpp:561-566 | an idle transmitter whose last frame was blank and that has nothing queued writes no pin and stays idle and blank |
| Channels.ClearedFrameNotStored | SWUART.cpp:429-444 | when a frame flagged CLEARRX_F completes, the RX queue is emptied instead of the frame being stored |
| Channels.StartWipesClearRx | SWUART.cpp:481-487 | a CLEARRX_F set on an idle receiver is cleared by the next start detection |
| Swuart.ValidConserves | SWUART.cpp:80-83 | the active and free channel lists share out MAXUARTS slots, and every buffer's node counts add up to its capacity |
| Swuart.FindFrom | SWUART.cpp:135-150 | the search finds the first channel from position k on with the name, or none exactly when no channel has it |
| Swuart.Lookup | SWUART.cpp:135-150 | searchUARTDSbyName finds none exactly when no active channel has the name, and otherwise an active slot that has it |
| Swuart.LookupUnique | SWUART.cpp:140-146 | with distinct names, the channel found is the one that carries the name |
| Swuart.FirstClash | SWUART.cpp:219-235 | the duplicate scan reports nothing exactly when no channel shares the name or TX pin, and otherwise NAMEERR or TXUSED for the first clashing channel in list order |
| Swuart.Init | SWUART.cpp:167-188 | the first call puts every channel on the free list with empty queues and full free lists; a repeated call changes nothing |
| Swuart.Outgoing | SWUART.cpp:296-302 | the queued message carries the byte, its parity, and only the requested BLANK_F and CLEARRX_F flags |
| Swuart.Send | SWUART.cpp:282-312 | returns only 0, NOINIT, NAMEERR or FULLBUFF; NOINIT before init, NAMEERR for an unknown name, FULLBUFF exactly when the TX free list is empty, otherwise the message is appended to that channel's TX queue and nothing else changes |
| Swuart.IntactFrameOk | SWUART.cpp:342-343 | a frame with its own parity and no stop error reads as status 0 |
| Swuart.CorruptedBitDetected | SWUART.cpp:342-343 | a frame with one data bit corrupted reads as PARERR |
| Swuart.CorruptedParityDetected | SWUART.cpp:342-343 | a frame with its parity bit corrupted reads as PARERR |
| Swuart.Receive | SWUART.cpp:324-352 | NOINIT, NAMEERR or EMPTYBUFF change nothing and deliver no data; otherwise the oldest received message is popped, its data delivered, and its status is that of the message |
| Swuart.ClearBuffer | SWUART.cpp:380-402 | NOINIT and NAMEERR change nothing; otherwise TX clears only the TX queue, and RX clears the RX queue and flags currRX so the frame in flight is not stored |
| Swuart.Add | SWUART.cpp:207-266 | returns only 0, NOINIT, NAMEERR, TXUSED or FULLBUFF; an error changes nothing and writes no pin; success happens exactly in the enrol case with no clash and a free slot |
| Swuart.AddStatus | SWUART.cpp:215-235 | FULLBUFF exactly when no slot is free, tested before the names; then NAMEERR or TXUSED exactly as the first clash in list order |
| Swuart.AddRejectsTaken | SWUART.cpp:219-235 | with a slot free, the channel is rejected exactly when an active channel already has its name or its TX pin |
| Swuart.ClashIffTaken | SWUART.cpp:224-233 | the duplicate scan fails exactly when some active channel has the name or the TX pin |
| Swuart.Admit | SWUART.cpp:237-258 | the first free slot is reset, named, wired, enabled, given the read RX level as old value and appended to the active list, and the name now finds it |
| Swuart.Enrol | SWUART.cpp:237-263 | success moves the first free slot to the end of the active list, drives the TX pin high, and keeps the registry valid |
| Swuart.EnrolSpec | SWUART.cpp:242-256 | the enrolled channel has the requested name, pins and enables with both machines reset, and no other slot changes |
| Swuart.EnrolQueues | SWUART.cpp:263 | the enrolled channel's TX queue holds exactly the one blank message and its RX queue is empty |
| Swuart.EnrolLookup | SWUART.cpp:258 | after enrolment the new name finds the new channel |
| Swuart.EnrolSendsBlank | SWUART.cpp:263 | the blank message is what SWUARTsend itself queues, and that send succeeds on the freshly admitted channel |
| Swuart.AddKeepsValid | SWUART.cpp:238-258 | admitting an unclashed channel in the first free slot keeps the registry invariant |
| Swuart.UnclashedAppend | SWUART.cpp:226-230 | appending a channel that clashes with no active one keeps names and TX pins pairwise distinct |
| Swuart.RxPass | SWUART.cpp:416-495 | the RX loop applies each active channel's RX step to its own pin level, touches no other slot, and keeps names and pins |
| Swuart.TxPass | SWUART.cpp:499-569 | the TX loop keeps every channel consistent and keeps names and pins |
| Swuart.TxPassSlots | SWUART.cpp:500-569 | after the TX loop each active channel has taken exactly its own TX step and the others are untouched |
| Swuart.TxPassWrites | SWUART.cpp:566-569 | the loop's pin writes are the writes of each channel's own TX step, in list order |
| Swuart.TxWritesMembers | SWUART.cpp:566-569 | a write occurs in the tick exactly when some active channel's TX step performs it |
| Swuart.TxWritesPins | SWUART.cpp:566 | every write of the TX loop goes to the TX pin of a channel in the loop |
| Swuart.Tick | SWUART.cpp:410-570 | a tick with no active channel does nothing; otherwise it keeps the registry valid and never adds, removes or renames a channel |
| Swuart.TickSlots | SWUART.cpp:413-569 | each active channel takes its RX step and then its TX step, and every other slot is left alone |
| Swuart.TickWrites | SWUART.cpp:499-569 | the tick's writes are the TX writes computed after every RX step |
| Swuart.TickWritesPins | SWUART.cpp:566 | a tick writes only TX pins of active channels |
| Swuart.TickKeepsLookup | SWUART.cpp:410-570 | a tick does not change which channel a name finds |
| Swuart.ReceiveBlocking | SWUART.cpp:363-369 | never returns EMPTYBUFF; returns the first non-empty attempt's result, with one tick between attempts |
| Loopback.RunSplit | laptop_test/main.c:85-90 | running a + b ticks is running a then b, and the received frames concatenate |
| Loopback.StartPeriod | SWUART.cpp:451-457 | from the start bit on an idle high line, after five ticks the receiver has checked the start bit and both machines are at data bit 0 |
| Loopback.SampleTicks | SWUART.cpp:451-476 | three ticks into a bit, the receiver has sampled exactly the level the transmitter drives for it |
| Loopback.LeaveTicks | SWUART.cpp:509-533 | the last two ticks of a bit move the transmitter to the next bit and drive its level |
| Loopback.BitPeriod | SWUART.cpp:424-533 | each five-tick bit period moves both machines on by one bit, keeps every bit received so far, and receives no frame |
| Loopback.BitThenRest | SWUART.cpp:424-533 | after one bit period the machines are in phase at the next bit, and the ticks that remain deliver exactly what the whole stretch delivers |
| Loopback.StopPeriod | SWUART.cpp:429-446 | the last six ticks complete exactly one frame, with the sent parity, bits equal to the sent ones, and no flags |
| Loopback.StopDelivers | SWUART.cpp:429-446 | the frame completed at the stop is exactly the sent data and parity with no flags |
| Loopback.FrameFrom | SWUART.cpp:416-569 | from bit position k on, the remaining 5(11-k)+6 ticks deliver exactly the sent frame |
| Loopback.Loopback | SWUART.cpp:416-569 | a non-blank frame started on an idle high line is received 56 ticks later, alone and intact |
| Loopback.LoopbackSendReceive | SWUART.cpp:296-352 | a byte queued by SWUARTsend and put on the wire is received as the same byte with status 0 |

## Left out

- The platform drivers (`setPinMode`, `writePin`, `readPin`, the timer and the interrupt masks) are not modelled. Reads become parameters and writes become returned `PinOut` values. Pin modes are not modelled, and pin levels are 0 or 1.
- Interrupt masking and ISR preemption are not modelled: every call and every tick is atomic. That includes the `SWUARTsend` of the blank message, which `SWUARTadd` makes after re-enabling interrupts.
- `SWUARTinit` starting the timer is not modelled (no observable state).
- The byte-offset pointer arithmetic of `initList` on `dataBuff`/`dataSize` is not modelled. Node i is bound to payload slot i as an index.
- The `char` overflow of `RXquantum`/`TXquantum` while idle is not modelled. The quantum is unbounded there and is never read in the idle state.
- The `char` value -1 for "no output" is not modelled as a number. It is the `NoWrite` constructor, and the shift by -2 at the TX wrap is `Undefined`.
- `searchUARTDSbyName` compares against the global `UARThead` rather than its argument. The model searches the active list, the only list it is ever given.
- The printf visualisation and the concrete timing of `laptop_test/main.c` are not modelled. Only its loopback wiring is.
- The full message sequence of `laptop_test/main.c` is not modelled: the blank frame each `SWUARTadd` queues first, `'B'` sending with clearRX set, and the buffer work of each tick. No lemma relates `Loopback.LinkStep` to `Swuart.Tick`; the loopback theorem is about the two bit machines alone.
- Swuart.ReceiveBlocking: the busy-wait is bounded by the sequence of pin-level snapshots it is given, one tick per empty attempt. It reports no status when they run out, where the C loop would keep waiting.
- Loopback.Loopback: the transmitter has nothing further queued while the frame is on the wire. The receiver is the only channel sampling the wire.
