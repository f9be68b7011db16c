# A verified model of the t7xx modem driver

The driver shares descriptor rings with a PCIe modem and runs two state machines
around them. This project models the rings, the reassembler, the port dispatch,
the modem state machine with its command engine, and suspend/resume, and proves
what they keep over whole runs. Ring sizes are parameters (2 up to 2^31), device
answers are arbitrary. Other threads interleave as follows: with the receive
buffer ring in every order of the protocol's steps; with a transmit burst, releases
and submissions of further packets between its locked sections; with a control
send, other senders, completions and clears before each turn and during each wait;
with control receive, port readers and other queues between turns; with the state
machine, appends, waits and timeouts between commands and wherever a handler waits.

Every ring index is tied to an unbounded position counter: an index is its
position modulo the ring size (`Ring`). Objects the driver updates in place are
classes over arrays with the driver's own loops and branches; their contracts
equate the new state with pure step functions or reference functions (an entry
stream, a descriptor stream, a run of protocol steps), and lemmas about these
state what the driver is for.

| file | what it holds |
|---|---|
| Ring.dfy, Bags.dfy, Errno.dfy | 32-bit ring arithmetic, occurrence counts, error numbers |
| BatProtocol.dfy, BatRing.dfy | receive buffers: interleaving protocol, and the object that refines it |
| Reassembly.dfy, PitRing.dfy | completion entries, packet reassembly, the completion ring, the NAPI poll |
| RxPath.dfy | buffer ring, queues and stack joined |
| DrbStream.dfy, DrbRelease.dfy, DrbRing.dfy | transmit descriptors: framing, release, the queue object |
| CldmaTx.dfy, CldmaRx.dfy | control rings with a hardware-own bit |
| PortProxy.dfy | port table, channel buckets, dispatch with back-pressure |
| Fsm.dfy | command engine and modem states |
| Pm.dfy | suspend, rollback, resume, reprobe cap |

Where the code does not do what one would expect, the model keeps the code and
the condition is exact:

- The refill error path unmaps slots counted from 0 rather than from the start
  index: `DoorbellFailureExact`; every refill past the end of the ring is hit
  (`DoorbellFailureWraps`), which every ring of more than 30 slots can reach and no
  smaller one can (`DoorbellFailureBreaks`, `SmallRingNeverRefills`).
- A completion entry announced before it is written passes the sequence check in
  the first turn of the ring if 251 divides its position, because zeroed memory
  carries number 0; later leftovers are refused in a ring of 16384: `StaleExact`,
  `StaleRefused`.
- `min_not_zero` with nothing to release yields the whole limit:
  `ZeroReleaseExact`, with an unread packet freed in `ZeroReleaseFreesUnread`.
  `TxRelease` covers both cases: with nothing to release the ring's invariant
  survives if and only if the limit is zero or the release index stands on a
  last-payload header whose buffer is gone.
- A flush does not restore the transmit budget. At every quiescent point the
  budget is N less the live descriptors less those discarded by flushes.
- A control send ignores the result of the DMA mapping: `SendExact`.
- A control send whose sleep lock times out returns an error although the buffer
  is queued: `SendSkb` reports the two separately.
- Giving completion entries back on a stopped queue reports success and forgets
  them: `PitReleaseAndAdd` keeps the counters in step if and only if the queue
  runs or too few entries have gathered.
- A second head buffer before the end of a packet overwrites the first:
  `NoLeakExact`.
- The first arm of the boot stage switch is never reached: `Boot`.
- Rollback of a suspend resumes entities that were never suspended if they have a
  resume callback only: `UndoExact`, `RollbackExact`.

## Model

| member | source | states |
|---|---|---|
| `Ring.CountExact` | src/t7xx_hif_dpmaif.c:42-56 | with 32-bit wrap-around and the sign test written out, the read count is the circular distance, the write count is the rest of the ring less one slot, and the two add up to size - 1, for all indices in range |
| `Ring.CountOfPositions` | src/t7xx_hif_dpmaif.c:42-56 | the same counts are the differences of the unbounded positions behind the indices |
| `Ring.NextIdxOfPosition` | src/t7xx_hif_dpmaif.c:35-40 | stepping an index is stepping its position by one, also at the wrap |
| `Ring.IdxIsMod` | src/t7xx_hif_dpmaif.c:35-40 | the index of a position is the position modulo the ring size |
| `BatProtocol.RunInv` | src/t7xx_hif_dpmaif_rx.c:446-554 | over every interleaving of takes (any reported id), marks, counts, releases (any reported read index), partial refills and publishes: a slot holds a buffer exactly when it lies in the window and nobody has taken it, set bits lie in the window only, and every allocated buffer is in one slot or was handed up once |
| `BatProtocol.HandedOnce` | src/t7xx_hif_dpmaif_rx.c:446-455 | from first start on, the buffers handed up are pairwise distinct, and one that was not handed up sits in a slot of the window whose bit is clear |
| `BatProtocol.RunInsideWindow` | src/t7xx_hif_dpmaif_rx.c:479-498 | a run of set bits from the release index never reaches past the write index |
| `BatProtocol.CountedRunSurvives` | src/t7xx_hif_dpmaif_rx.c:541-552 | between counting and releasing, polls of other threads may set any further bits; the counted run stays fully set and inside the window |
| `BatProtocol.ReleaseAcceptsExact` | src/t7xx_hif_dpmaif_rx.c:520-539 | the release comparisons accept a count 0 < c < N if and only if it is at most the circular distance to the hardware read index |
| `BatProtocol.WriteAcceptsExact` | src/t7xx_hif_dpmaif_rx.c:93-107 | the write-index comparisons accept a count if and only if it fits into the free space |
| `BatProtocol.RefillTargetEmpty` | src/t7xx_hif_dpmaif_rx.c:192-222 | the slot a refill writes is empty, outside the window, with its bit clear: no buffer is replaced |
| `BatProtocol.RefillHasRoom` | src/t7xx_hif_dpmaif_rx.c:571-591 | after an accepted release the refill of the same count passes the space test |
| `BatProtocol.DoorbellFailureExact` | src/t7xx_hif_dpmaif_rx.c:229-231 | the error path unmaps slots 0 .. i-1: ownership survives a failed doorbell if and only if each of these slots lies outside the window to be published or has its buffer taken, a condition on indices and bitmap |
| `BatProtocol.DoorbellFailureWraps` | src/t7xx_hif_dpmaif_rx.c:229-231 | every refill that runs past the end of the ring breaks ownership when its doorbell fails, unless the buffer just put into slot 0 was taken at once |
| `BatProtocol.DoorbellFailureBreaks` | src/t7xx_hif_dpmaif_rx.c:211-231 | in every ring of more than 30 slots a run of first fill, takes, release and refill reaches a later refill whose failed doorbell frees a buffer inside the published window |
| `BatProtocol.SmallRingNeverRefills` | src/t7xx_hif_dpmaif_rx.c:571-591 | in a ring of at most 30 slots no run ever comes to a refill after the first, which rings no doorbell |
| `BatRing.BatRequest.constructor` | src/t7xx_hif_dpmaif.c:327-329 | a fresh buffer ring is the protocol's initial state, with N - 1 slots to fill |
| `BatRing.BatRequest.GetRxPkt` | src/t7xx_hif_dpmaif_rx.c:623-678 | taking a reported id is the take-and-mark step; it succeeds exactly when the id is in range, its slot holds a buffer and the data fits, hands up that buffer, and otherwise changes nothing |
| `BatRing.BatRequest.AvailPktBatCnt` | src/t7xx_hif_dpmaif_rx.c:479-498 | the two bitmap scans yield the longest circular run of set bits from the release index, for any bitmap and start |
| `BatRing.BatRequest.FindNextZeroBit` | src/t7xx_hif_dpmaif_rx.c:479-498 | the first clear bit at or after a start, or the size |
| `BatRing.BatRequest.ClearBits` | src/t7xx_hif_dpmaif_rx.c:541-550 | the loop clears exactly the counted bits from the release index on, across the wrap |
| `BatRing.BatRequest.ReleaseBatEntry` | src/t7xx_hif_dpmaif_rx.c:500-554 | it succeeds exactly when the protocol's release does, has then cleared exactly the counted bits and moved the release position by the count, and otherwise changes nothing |
| `BatRing.BatRequest.UpdateBatWrIdx` | src/t7xx_hif_dpmaif_rx.c:81-112 | the write position advances by the count exactly when the queue runs and the count fits; otherwise nothing changes |
| `BatRing.BatRequest.UnmapBelow` | src/t7xx_hif_dpmaif_rx.c:138-148 | the error path empties exactly the slots numbered below the count |
| `BatRing.BatRequest.FillSlots` | src/t7xx_hif_dpmaif_rx.c:192-218 | the allocation loop performs refill steps up to the first failed allocation, and keeps ownership |
| `BatRing.BatRequest.RxBufAlloc` | src/t7xx_hif_dpmaif_rx.c:165-234 | which of its outcomes occurs (nothing filled, published, stopped queue, failed doorbell) and the protocol state each leaves |
| `BatRing.BatRequest.ReleaseAndAdd` | src/t7xx_hif_dpmaif_rx.c:571-591 | with the doorbell answered, the worker pass is one run of the protocol (count, release, refills, publish); with a failed doorbell it ends in the state the error path leaves; the result is 0 or which error, and never a lack of room |
| `BatRing.WorkerPassRun` | src/t7xx_hif_dpmaif_rx.c:571-591 | a worker pass in protocol steps is its parts one after the other |
| `Reassembly.MsgPitFields` | src/t7xx_hif_dpmaif_rx.h:63-96 | a message entry built from channel, checksum, drop flag, IP type and sequence number reads back as these |
| `Reassembly.PdPitFields` | src/t7xx_hif_dpmaif_rx.h:48-61 | a payload entry built from buffer type, CONT, a 16-bit buffer id and a sequence number reads back as these, the id re-joined from its two fields |
| `Reassembly.ReassemblyRoundTrip` | src/t7xx_hif_dpmaif_rx.c:611-621 | for any list of packets, reassembling the entries that describe them yields those packets in order, each with its own fragments and metadata |
| `Reassembly.EntriesNumbered` | src/t7xx_hif_dpmaif_rx.c:462-477 | the c-th entry of any list of packets carries c modulo 251, the number the driver expects there |
| `Reassembly.DeliveredExact` | src/t7xx_hif_dpmaif_rx.c:752-777 | over any entry stream, the packet end at an entry delivers a packet if and only if a head was taken since the previous end, no payload entry since then failed and the last message since then does not ask for a drop; the packet is then the last head with exactly the fragments taken after it and that message's metadata |
| `Reassembly.FeedMeans` | src/t7xx_hif_dpmaif_rx.c:730-788 | over any entry stream, what comes out at each entry and what rx_data_info holds in between, told from the entries and take outcomes alone: delivered, freed for a failed payload or a drop, overwritten, or nothing |
| `Reassembly.LastPayloadBadExact` | src/t7xx_hif_dpmaif_rx.c:751-763 | the error that stands is that the last payload entry's buffer could not be taken or that it was a fragment before any head |
| `Reassembly.NeverHandsUpNothing` | src/t7xx_hif_dpmaif_rx.c:694-716 | a packet that ends without an error has a buffer |
| `Reassembly.DeliveredAtMostEnds` | src/t7xx_hif_dpmaif_rx.c:763-771 | no more packets are delivered than packet ends were counted |
| `Reassembly.HeadsConserved` | src/t7xx_hif_dpmaif_rx.c:694-797 | every head buffer taken is delivered, freed, overwritten or still being built, each as often as it was taken |
| `Reassembly.FatesDistinct` | src/t7xx_hif_dpmaif_rx.c:694-797 | if no buffer is taken twice, no two outcomes concern the same buffer |
| `Reassembly.HeldExact` | src/t7xx_hif_dpmaif_rx.c:659-678 | a packet is being built if and only if a head buffer was taken and no end of packet came since |
| `Reassembly.NoLeakExact` | src/t7xx_hif_dpmaif_rx.c:659-678 | no head buffer is overwritten and lost if and only if an end of packet lies between any two head buffers taken |
| `PitRing.RxQueue.constructor` | src/t7xx_hif_dpmaif_rx.c:1007-1029 | a fresh queue: nothing received, all cursors in step |
| `PitRing.BatchingIndependent` | src/t7xx_hif_dpmaif_rx.c:718-797 | two queues that have consumed the same entries with the same take outcomes have delivered the same packets with the same metadata and hold the same rx_data_info, whatever the splits into calls, budgets, wrong numbers, retries and failed doorbells; one that is ahead has delivered an extension |
| `PitRing.RxQueue.HwComplete` | src/t7xx_hif_dpmaif_rx.c:462-477 | content that arrives after the index moved replaces the entry at its position and nothing consumed |
| `PitRing.RxQueue.StaleExact` | src/t7xx_hif_dpmaif_rx.c:462-477 | an announced but unwritten slot holds zeroes in the first turn of the ring and the entry of the turn before afterwards; its number is the expected one if and only if 251 divides the position, or from the second turn on the ring size |
| `PitRing.RxQueue.StaleRefused` | src/t7xx_hif_dpmaif_rx.c:54 | so in the ring of 16384 entries a leftover entry is never taken for a new one |
| `PitRing.RxQueue.CheckPitSeq` | src/t7xx_hif_dpmaif_rx.c:462-477 | an entry is accepted exactly when it carries its position modulo 251, and only then does the expectation move, to the next position's number |
| `PitRing.RxQueue.OutcomesOnly` | src/t7xx_hif_dpmaif_rx.c:730-788 | what a queue has handed out is, per entry consumed, exactly that: the packet, its buffer freed, an overwritten head, or nothing |
| `PitRing.RxQueue.ProcessPit` | src/t7xx_hif_dpmaif_rx.c:738-777 | one entry has exactly the effect of one reassembly step on rx_data_info and on the outcomes, which `DeliveredExact` and `FeedMeans` tell from the entries; it reports an error exactly when its payload could not be added |
| `PitRing.RxQueue.RxSkb` | src/t7xx_hif_dpmaif_rx.c:694-716 | a finished packet is delivered or, when marked for dropping, freed |
| `PitRing.RxQueue.ReleasePitEntry` | src/t7xx_hif_dpmaif_rx.c:236-265 | the release index moves to the consumed position, wrapped correctly by the two comparisons, exactly when the queue runs and the doorbell is answered |
| `PitRing.ReleaseWraps` | src/t7xx_hif_dpmaif_rx.c:247-258 | those comparisons wrap the release index exactly when it passes the end of the ring |
| `PitRing.RxQueue.PitReleaseAndAdd` | src/t7xx_hif_dpmaif_rx.c:556-569 | entries are given back when enough have gathered; a failed doorbell leaves every counter as it was; the counters stay in step if and only if the queue is running or too few entries have gathered |
| `PitRing.RxQueue.ConsumeOne` | src/t7xx_hif_dpmaif_rx.c:730-788 | one turn consumes exactly one correctly numbered entry or changes nothing, keeping all cursors equal to their positions |
| `PitRing.RxQueue.Turn` | src/t7xx_hif_dpmaif_rx.c:730-788 | one turn and its release notification, due every 128 entries: the error it leaves is that of the last payload, or of the notification |
| `PitRing.RxQueue.RxLoop` | src/t7xx_hif_dpmaif_rx.c:730-788 | a batch consumes correctly numbered entries only, stays within the budget, and stops early only for a wrong number, an error or the budget |
| `PitRing.RxQueue.RxStart` | src/t7xx_hif_dpmaif_rx.c:718-797 | the same after the final release; without a sequence stop the result is an error if and only if the last payload since the last notification failed or entries could not be given back, and otherwise the number of packet ends; in a long batch entries are given back while it runs |
| `PitRing.RxQueue.PollPit` | src/t7xx_hif_dpmaif_rx.c:799-811 | the poll finds exactly the entries written and not yet consumed |
| `PitRing.RxQueue.RxDataCollect` | src/t7xx_hif_dpmaif_rx.c:813-830 | one collection is within its budget, and a result of zero without a retry means the ring is drained |
| `PitRing.RxQueue.NapiRxPoll` | src/t7xx_hif_dpmaif_rx.c:832-888 | whatever the device does, work done and packets delivered are at most the budget; below the budget the work is the packet ends seen unless an error stands; less than the budget is reported only if the ring is drained or an error stands, the full budget, unless contents arrive late meanwhile, only if it was used or an entry has a wrong number; the loop ends |
| `RxPath.RunInv` | src/t7xx_hif_dpmaif_rx.c:623-797 | over any run of the buffer ring's threads and any entry streams of any number of queues on one ring, each buffer the ring gave away has exactly one fate: delivered, freed, overwritten or being built, in exactly one queue |
| `RxPath.OneFateEach` | src/t7xx_hif_dpmaif_rx.c:694-716 | no buffer is delivered, freed or overwritten twice, neither by one queue nor by two |
| `RxPath.NothingLost` | src/t7xx_hif_dpmaif_rx.c:623-797 | a buffer ever allocated is either recorded by a ring slot or has its one fate, never both and never neither |
| `RxPath.StepFate` | src/t7xx_hif_dpmaif_rx.c:738-771 | an entry gives the buffer it takes exactly one more fate and changes no other buffer's |
| `DrbStream.FrameShape` | src/t7xx_hif_dpmaif_tx.c:192-309 | field by field: a packet's frame is one message descriptor with its length, channel and checksum request, then one payload descriptor per part with its length and address; CONT is set on all but the last, which alone carries is_last |
| `DrbStream.StreamAt` | src/t7xx_hif_dpmaif_tx.c:265-309 | every position ever written is one descriptor of one packet's frame |
| `DrbStream.StreamWellMarked` | src/t7xx_hif_dpmaif_tx.c:98-117 | this agreement holds at every position of everything ever written |
| `DrbStream.StreamLastIds` | src/t7xx_hif_dpmaif_tx.c:225-240 | reading owners off the last-payload descriptors gives the packets in the order they were sent, one each |
| `DrbStream.FramingRoundTrip` | src/t7xx_hif_dpmaif_tx.c:192-240 | a reader of the hardware words alone recovers any list of packets in order, with lengths, interface and DMA addresses |
| `DrbStream.HeaderFields` | src/t7xx_hif_dpmaif_tx.h:45-49 | type, CONT and length read back from a descriptor header |
| `DrbRelease.ReleaseLive` | src/t7xx_hif_dpmaif_tx.c:80-132 | releasing k descriptors of a live window frees exactly the packets that end among them, in order, adds k to the budget, leaves the rest of the window alone and never meets the invalid-skb branch |
| `DrbRelease.ZeroReleaseExact` | src/t7xx_hif_dpmaif_tx.c:134-151 | min_not_zero with nothing releasable yields the whole limit; such a call is harmless if and only if the release index stands on a last-payload header whose buffer is gone |
| `DrbRelease.ZeroReleaseFreesUnread` | src/t7xx_hif_dpmaif_tx.c:146-148 | a live packet the hardware has not read that a release with a count of zero frees |
| `DrbRelease.FlushOwners` | src/t7xx_hif_dpmaif_tx.c:563-585 | scanning the table in index order meets the owners of exactly the live packets |
| `DrbRing.DrbRing.ExactlyOnce` | src/t7xx_hif_dpmaif_tx.c:80-132 | every accepted buffer is freed, owned by one live descriptor or pending, exactly as often as it was accepted |
| `DrbRing.DrbRing.FreedOnce` | src/t7xx_hif_dpmaif_tx.c:563-585 | if no buffer is submitted twice, none is freed twice and none is freed while the ring or the list still has it |
| `DrbRing.DrbRing.FreedInOrder` | src/t7xx_hif_dpmaif_tx.c:80-132 | until the first flush, buffers are freed in the order they were accepted |
| `DrbRing.DrbRing.ReadsOn` | src/t7xx_hif_dpmaif_tx.c:98-117 | on the ring memory itself, across any number of wraps and with the release index anywhere in a packet: a reader of the hardware words that has followed them up to there and reads on through the live slots finds exactly the packets sent, in order |
| `DrbRing.DrbRing.LiveSlot` | src/t7xx_hif_dpmaif_tx.c:192-240 | on the ring memory: the slot of any live position says, CONT bit included, what that descriptor of that packet should |
| `DrbRing.DrbRing.ReadsBack` | src/t7xx_hif_dpmaif_tx.c:242-332 | from a packet boundary on, the live slots alone read as exactly the packets not released |
| `DrbRing.DrbRing.constructor` | src/t7xx_hif_dpmaif_tx.c:607-631 | a fresh queue: budget N, nothing accepted, nothing freed |
| `DrbRing.DrbRing.UpdateDrbRdIdx` | src/t7xx_hif_dpmaif_tx.c:51-78 | the read position becomes the hardware's, the count is the advance, and an out-of-range report or a stopped queue changes nothing |
| `DrbRing.DrbRing.ReleaseTxBuffer` | src/t7xx_hif_dpmaif_tx.c:80-132 | on whatever memory it finds, the loop is k release steps |
| `DrbRing.DrbRing.ReleaseRead` | src/t7xx_hif_dpmaif_tx.c:80-132 | releasing descriptors the hardware has read keeps the ring's invariant and frees the packets ending there; slots being written are untouched |
| `DrbRing.DrbRing.TxRelease` | src/t7xx_hif_dpmaif_tx.c:134-151 | with something to release it frees what ends within the limit and asks for a retry exactly when something is left; with nothing to release it does what releasing the whole limit does, and the ring's invariant survives that if and only if it does nothing |
| `DrbRing.DrbRing.DrbWrAvailable` | src/t7xx_hif_dpmaif_tx.c:358-362 | the space a writer may use is N - 1 less the live descriptors |
| `DrbRing.DrbRing.Reserve` | src/t7xx_hif_dpmaif_tx.c:258-275 | a reservation moves the write index past the packet and changes no live slot |
| `DrbRing.DrbRing.WriteParts` | src/t7xx_hif_dpmaif_tx.c:277-316 | with releases in between, all parts are written and the frame enters the ring, or the first failed mapping stops it and the ring holds what it held |
| `DrbRing.DrbRing.RollBack` | src/t7xx_hif_dpmaif_tx.c:318-331 | giving the reservation back restores the write index and the invariant |
| `DrbRing.DrbRing.AddSkbToRing` | src/t7xx_hif_dpmaif_tx.c:242-332 | the packet goes in whole, with the addresses the DMA layer gave, exactly when the queue runs and every part maps; otherwise the ring's contents and write index are unchanged |
| `DrbRing.DrbRing.TxSendSkb` | src/t7xx_hif_dpmaif_tx.c:507-525 | a buffer is accepted at the tail of the list exactly when the budget, compared unsigned, exceeds its descriptor count |
| `DrbRing.DrbRing.SendHead` | src/t7xx_hif_dpmaif_tx.c:391-399 | the first pending packet moves from the list to the ring, or neither changes, with buffers of other threads arriving at the tail before it is unlinked |
| `DrbRing.DrbRing.BurstSendSkb` | src/t7xx_hif_dpmaif_tx.c:370-409 | the result counts the descriptors the ring really gained, even after a rollback mid-burst; with other threads submitting and the worker releasing meanwhile, the packets that moved are at most five and the first ones of the list; an admissible first packet is sent; no live slot is written |
| `DrbRing.DrbRing.HwPush` | src/t7xx_hif_dpmaif_tx.c:411-444 | a round announces exactly the descriptors it queued, unless the sleep lock is not obtained; and exactly when there is another round |
| `DrbRing.DrbRing.TxFreeDrbSkb` | src/t7xx_hif_dpmaif_tx.c:563-585 | the scan frees the owners in the table, each once, and clears only their slots |
| `DrbRing.DrbRing.TxqFlushRel` | src/t7xx_hif_dpmaif_tx.c:665-676 | a flush frees exactly what the live descriptors owned and empties the ring; the budget is not restored: it stays short of the discarded descriptors, and this debt is exact |
| `CldmaTx.ReachableRing` | src/t7xx_hif_cldma.c:469-518 | in every state reachable from a reset ring: tx_next is N - budget ahead of tr_done, exactly the requests between them hold buffers, the hardware owns no other, a free request at tx_next and budget > 0 are equivalent, and no buffer is lost or freed twice |
| `CldmaTx.RunInv` | src/t7xx_hif_cldma.c:257-296 | over every run of sends, hardware completions, collections and clears: tx_next is N - budget ahead of tr_done, exactly those requests hold buffers, the hardware owns no request without one, and each submitted buffer is freed or live as often as submitted |
| `CldmaTx.BudgetMeansFree` | src/t7xx_hif_cldma.c:946-952 | budget > 0 and "tx_next has no skb" are equivalent, and the hardware does not own that request |
| `CldmaTx.SendExact` | src/t7xx_hif_cldma.c:950-962 | with budget left, the ring invariant survives a send if and only if the DMA mapping, whose result is ignored, succeeded |
| `CldmaTx.CollectInv` | src/t7xx_hif_cldma.c:257-296 | a collection keeps the invariant; if it acts, the hardware had given the oldest request back and exactly that buffer is freed |
| `CldmaTx.CollectedAfterDone` | src/t7xx_hif_cldma.c:864-866 | over any run without a clear, a buffer sent while the queue is active is owned by the hardware and is collected only after the hardware gave its descriptor back, later than the send |
| `CldmaTx.OwnedStays` | src/t7xx_hif_cldma.c:257-296 | a request the hardware owns stays in the ring until the hardware gives that descriptor back |
| `CldmaTx.CompletionInOrder` | src/t7xx_hif_cldma.c:257-296 | without a clear, the buffers freed are a prefix of the buffers sent: first in, first out |
| `CldmaTx.TableCount` | src/t7xx_hif_cldma.c:758-776 | the table holds each buffer as often as the live part of the send order |
| `CldmaTx.ClearInv` | src/t7xx_hif_cldma.c:758-776 | a clear frees exactly the live buffers and restores the initial ring |
| `CldmaTx.TxQueue.constructor` | src/t7xx_hif_cldma.c:469-518 | a reset ring: budget N, both cursors at the first request |
| `CldmaTx.TxQueue.HandleTxRequest` | src/t7xx_hif_cldma.c:843-872 | the buffer and the own bit are set exactly when the mapping succeeded and, for the bit, the queue is active |
| `CldmaTx.TxQueue.TrySend` | src/t7xx_hif_cldma.c:946-977 | it queues exactly when there is budget; the buffer goes into the request at tx_next, on an active queue that descriptor and no other is handed to the hardware, and tx_next and the budget move by one |
| `CldmaTx.TxQueue.GpdTxCollect` | src/t7xx_hif_cldma.c:257-296 | the loop is a sequence of collect steps that ends at the first request still empty or owned, returning exactly as much budget |
| `CldmaTx.BudgetTaken` | src/t7xx_hif_cldma.c:950-954 | only a send takes budget away: if it is gone after other threads' activity, one of them sent |
| `CldmaTx.TxQueue.Others` | src/t7xx_hif_cldma.c:257-296 | any slice of other senders, completions, collections and clears is that run of steps, in place |
| `CldmaTx.TxQueue.WaitForBudget` | src/t7xx_hif_cldma.c:985 | a wait amid other threads ends with budget, or interrupted without |
| `CldmaTx.TxQueue.Race` | src/t7xx_hif_cldma.c:946-950 | between the wake-up and the ring lock others may act; if the budget is gone then, another send took it |
| `CldmaTx.TxQueue.SendSkb` | src/t7xx_hif_cldma.c:946-986 | among other senders: the final state is the run of what the others did, followed by this send if it was queued; a turn that finds budget queues; after the first two turns each further one means that another send took the request first; success is returned exactly when the buffer was queued and the sleep lock came in time |
| `CldmaTx.TxQueue.ClearTxq` | src/t7xx_hif_cldma.c:758-776 | the clear in place is the clear step: everything in the table freed once |
| `CldmaRx.ReachableRing` | src/t7xx_hif_cldma.c:110-194 | in every state reachable from a fresh ring with failing refills: the empty slots are exactly the circular range from rx_refill to tr_done, as many as refills failed, and every hardware-owned slot has a buffer |
| `CldmaRx.RunInv` | src/t7xx_hif_cldma.c:110-194 | over every run with failing refills: the empty slots are exactly the circular range from rx_refill to tr_done, every hardware-owned slot has a buffer, unread packets sit between, buffers are distinct |
| `CldmaRx.RefillTargetEmpty` | src/t7xx_hif_cldma.c:176-190 | a refill targets an empty slot the hardware does not own |
| `CldmaRx.BuffersMissing` | src/t7xx_hif_cldma.c:91-108 | the number of buffers in the ring is its length less the failed refills |
| `CldmaRx.TakeableExact` | src/t7xx_hif_cldma.c:131-148 | the readiness test succeeds exactly when the hardware has written a packet not yet consumed, and then the slot holds that packet |
| `CldmaRx.HwDone` | src/t7xx_hif_cldma.c:110-194 | the next descriptor belongs to the hardware exactly while filled packets stay below refills plus N |
| `CldmaRx.RxQueue.constructor` | src/t7xx_hif_cldma.c:419-450 | a fresh ring: every slot filled and owned by the hardware |
| `CldmaRx.RxQueue.RefillOne` | src/t7xx_hif_cldma.c:91-108 | a failed allocation changes nothing but the debt; a success fills the request at rx_refill and hands it over |
| `CldmaRx.RxQueue.Dispatch` | src/t7xx_hif_cldma.c:157-161 | the oldest unread packet is handed to the proxy, which logs exactly it or refuses it |
| `CldmaRx.RxQueue.TakeOver` | src/t7xx_hif_cldma.c:163-190 | past a consumed packet, the take and the attempted refill are the two ring steps |
| `CldmaRx.RxQueue.Deliver` | src/t7xx_hif_cldma.c:157-190 | a packet is consumed exactly when its port does not refuse it; a refusal leaves ring, packet, ports and log as they were |
| `CldmaRx.RxQueue.ControlPath` | src/t7xx_hif_cldma.c:157-172 | over whole runs: a control port fed by one queue has received exactly its share of the packets that queue consumed, and these are a prefix of what the hardware wrote, in order |
| `CldmaRx.RxQueue.GpdRxFromQ` | src/t7xx_hif_cldma.c:110-194 | with readers draining ports and other queues delivering between turns: the packets the proxy has logged from this queue stay, over all calls, exactly those it consumed, in hardware order; it stops only when drained, over budget, short of memory, refused or without link; a turn that finds nothing returns -ENODEV exactly if the link is down |
| `PortProxy.RoutableFromQueue` | src/t7xx_port_proxy.c:444-484 | a port fed by one queue gets its share of that queue's packets, whatever else is dispatched in between |
| `PortProxy.Proxy.Others` | src/t7xx_port_proxy.c:444-484 | readers, openers and other queues keep every port's claim and do not touch what a queue has delivered |
| `PortProxy.LinearScan` | src/t7xx_port_proxy.c:414-433 | the reference lookup: the first port of the table with that path and channel |
| `PortProxy.Bucket` | src/t7xx_port_proxy.c:355-379 | a bucket lists, in table order, exactly the ports with its channel id |
| `PortProxy.FirstInBucket` | src/t7xx_port_proxy.c:414-433 | the first match within a bucket is the first match of the whole table |
| `PortProxy.Proxy.SetupChMapping` | src/t7xx_port_proxy.c:355-379 | every bucket holds exactly the ports of its id, in table order |
| `PortProxy.Proxy.FindPort` | src/t7xx_port_proxy.c:414-433 | the bucket search finds what a scan of the whole port table finds |
| `PortProxy.Proxy.constructor` | src/t7xx_port_proxy.c:507-536 | ports start empty with an invalid sequence number |
| `PortProxy.PortRecv` | src/t7xx_port_proxy.c:239-254 | a control port refuses exactly at its limit and otherwise takes the packet at the tail; a verdict keeps configuration, limit and sequence number |
| `PortProxy.ControlTakes` | src/t7xx_port_proxy.c:239-254 | a control port that takes a packet has room, appends it at the tail and then expects the next number |
| `PortProxy.Dispatched` | src/t7xx_port_proxy.c:444-484 | after a dispatch each control port still has received exactly its routable packets, its queue is their unread end within the limit, and its sequence number follows the last of them |
| `PortProxy.StatusFields` | src/t7xx_port_proxy.c:163-164 | channel and sequence number read back from a status word, and the next number wraps at 0x7fff |
| `PortProxy.Proxy.RecvSkb` | src/t7xx_port_proxy.c:444-484 | dropped without a valid modem state or a port; otherwise a full control port and a trace port without channel refuse, leaving port, header and sequence state unchanged, and any other port gets the packet behind its 16-byte header and expects the number after it; logged once unless refused |
| `PortProxy.Proxy.Dequeue` | src/t7xx_port_ctrl_msg.c:216-242 | the reader takes the oldest packet; all port claims are kept |
| `Fsm.Life` | src/t7xx_state_monitor.c:437-481 | for every script, from init to uninit: in the recorded history of curr_state any two entries to READY are separated by STOPPED, EXCEPTION is left only by a stop command, READY is earned through PRE_START and STARTING in the LINUX stage; and every command was finished exactly once, with no reference but its base and a waiter left |
| `Fsm.LegalHistory` | src/t7xx_state_monitor.c:183-435 | these three follow for every history built of the handlers' transitions |
| `Fsm.ReadySeparated` | src/t7xx_state_monitor.c:318-326 | in a legal trace any two entries to READY are separated by STOPPED |
| `Fsm.ExceptionLeftByStop` | src/t7xx_state_monitor.c:276-305 | EXCEPTION is left only through a stop command, to STOPPING or STOPPED |
| `Fsm.ReadyOrigin` | src/t7xx_state_monitor.c:328-365 | READY is entered only through PRE_START and STARTING, while a START command with a flag is handled in the LINUX stage |
| `Fsm.AppendOk` | src/t7xx_state_monitor.c:483-507 | appending keeps each command in exactly one of queued, handled, finished, and each reference count equal to 1 + unfinished + waiter present |
| `Fsm.LeaveOk` | src/t7xx_state_monitor.c:508-520 | a waiter leaving, timed out or completed, keeps this and never drops the last reference |
| `Fsm.FinishCurrentOk` | src/t7xx_state_monitor.c:114-122 | finishing keeps this and never drops the last reference |
| `Fsm.FlushTurnOk` | src/t7xx_state_monitor.c:130-151 | so does each turn of the flush |
| `Fsm.TurnServes` | src/t7xx_state_monitor.c:437-481 | each turn of the main thread brings every older command one place forward or finishes it |
| `Fsm.FsmCtl.constructor` | src/t7xx_state_monitor.c:610-635 | the engine starts in INIT with no command |
| `Fsm.FsmCtl.AppendCmd` | src/t7xx_state_monitor.c:483-507 | the command joins the tail of the queue with its references counted, or, without memory, nothing changes |
| `Fsm.FsmCtl.WaiterLeaves` | src/t7xx_state_monitor.c:508-520 | a waiter gets the outcome exactly when the command was finished, else a timeout; the command stays referenced |
| `Fsm.FsmCtl.FinishCurrent` | src/t7xx_state_monitor.c:114-122 | the command in hand becomes finished with that result, exactly once |
| `Fsm.FsmCtl.FlushCmdQueue` | src/t7xx_state_monitor.c:130-151 | every queued command is finished with -EINVAL, every other one unchanged |
| `Fsm.FsmCtl.StoppedHandler` | src/t7xx_state_monitor.c:262-274 | STOPPED is entered, and outside fastboot every command queued before is finished and the stage reset, with other threads appending before and after the flush |
| `Fsm.FsmCtl.RoutineStopped` | src/t7xx_state_monitor.c:276-284 | ends in STOPPED with the command finished; an error if already stopped |
| `Fsm.FsmCtl.RoutineStopping` | src/t7xx_state_monitor.c:286-305 | STOPPING is not left standing: ends in STOPPED with the command finished |
| `Fsm.FsmCtl.RoutineException` | src/t7xx_state_monitor.c:183-221 | an exception command moves READY to EXCEPTION and leaves any other state, finishing with an error |
| `Fsm.FsmCtl.RoutineStarting` | src/t7xx_state_monitor.c:328-365 | STARTING is not left standing: READY exactly when both handshakes finish, else EXCEPTION and a timeout |
| `Fsm.FsmCtl.BootStage` | src/t7xx_state_monitor.c:394-428 | in the LINUX stage with a flag the handshake decides between READY and EXCEPTION, in any other stage PRE_START stays; the stage is remembered; the first arm would append exactly one further START, and is never reached because the poll accepts LK and LINUX only |
| `Fsm.FsmCtl.Boot` | src/t7xx_state_monitor.c:383-432 | the same from a state that may start, after the stage poll: the state, the remembered stage and the result for every device answer, with other threads active meanwhile |
| `Fsm.FsmCtl.RoutineStart` | src/t7xx_state_monitor.c:367-435 | from INIT, PRE_START or STOPPED: READY if and only if the device is in the LINUX stage, the command has a flag and both handshakes finish; EXCEPTION if and only if the first two hold and a handshake fails; PRE_START otherwise; a timeout unless the stage is LK or LINUX; from other states an error and no change |
| `Fsm.StateAfterExact` | src/t7xx_state_monitor.c:456-477 | the state each command leaves, by the state before and the device's answer alone |
| `Fsm.FsmCtl.HandleFirst` | src/t7xx_state_monitor.c:437-481 | the first queued command is finished when its handler returns, curr_state has taken exactly the expected values and is at a boundary, and every other queued command is finished or one place further |
| `Fsm.FsmCtl.MainThread` | src/t7xx_state_monitor.c:437-481 | over any script of other threads' appends, waits and timeouts and of device answers: the history of curr_state is extended, commands, reference counts and history stay legal, a finished command never changes its outcome, and the command at place k is finished within k + 1 turns |
| `Fsm.FsmCtl.Uninit` | src/t7xx_state_monitor.c:637-648 | at the end every command ever appended has been finished exactly once |
| `Pm.UndoExact` | src/t7xx_pci.c:471-477 | for unique ids, resuming a list resumes exactly the entities that were suspended, once each and in order, if and only if each entity has both callbacks or neither |
| `Pm.RollbackExact` | src/t7xx_pci.c:440-482 | the same for the prefix an aborted suspend rolls back |
| `Pm.RollbackAllExact` | src/t7xx_pci.c:453-477 | when the modem does not answer, the walk back resumes exactly what was suspended if and only if the entities before the first with the invalid id have both callbacks or neither and none from there on was suspended |
| `Pm.WithId` | src/t7xx_pci.c:471-473 | with unique ids the walk back for a failing entity stops at that entity |
| `Pm.CallsExact` | src/t7xx_pci.c:440-464 | a pass calls each entity that has the callback, after those before it in the list and before those behind it, and no other |
| `Pm.NobodyRefuses` | src/t7xx_pci.c:440-450 | a suspend pass reaches the end if and only if every suspend callback answers 0 |
| `Pm.FirstFailure` | src/t7xx_pci.c:440-450 | the point a suspend pass reaches: the first refusal, all before it having accepted |
| `Pm.CountCapped` | src/t7xx_pci.c:650-690 | over any run of resumes the reprobe counter never exceeds 3 |
| `Pm.OneOfFour` | src/t7xx_pci.c:650-690 | of any four consecutive resumes that reach the handshake, at least one does not end in a timeout-driven reprobe |
| `Pm.ReprobesCounted` | src/t7xx_pci.c:650-690 | m consecutive reprobing handshakes show as a counter of at least m |
| `Pm.PciDev.constructor` | src/t7xx_pci.c:227-253 | no entities, no callbacks made, no attempts |
| `Pm.PciDev.Register` | src/t7xx_pci.c:293-308 | an entity is added at the tail exactly when its id is new; ids stay unique |
| `Pm.PciDev.Unregister` | src/t7xx_pci.c:310-326 | exactly the given entity is removed and the order kept, or an error and no change |
| `Pm.PciDev.ResumeUntil` | src/t7xx_pci.c:471-477 | the abort loop resumes exactly the entities before the first with the given id |
| `Pm.PciDev.SuspendAll` | src/t7xx_pci.c:440-450 | the callbacks made are those up to and including the first refusal |
| `Pm.PciDev.Suspend` | src/t7xx_pci.c:415-483 | the callbacks made, state and result of each ending: after a refusal the entities before the failing one have been resumed in list order and the failing one has not; without an answer from the modem those before the first with the invalid id; on success all were suspended, then suspended late |
| `Pm.LastWith` | src/t7xx_pci.c:700-707 | the last entity that has a callback |
| `Pm.PciDev.ResumeAll` | src/t7xx_pci.c:700-707 | every resume callback in order; the answer of the last entity that has one is returned |
| `Pm.PciDev.Reprobe` | src/t7xx_pci.c:547-572 | the first error of stop, re-enable and start, and the state back to INIT once the device was re-enabled |
| `Pm.PciDev.Resume` | src/t7xx_pci.c:574-717 | by register value and answers: the resume requests are made for L1, for INIT with a good ATR and for L2 re-enabled, or without a state check; answered, every resume callback is made and the state is RESUMED; a timeout reprobes while the counter is below 3, an AP timeout only for INIT; L3 and INIT with a bad ATR reprobe, EXP and L2_EXP park, an unknown value stops and parks, each with its error; the counter stays within its cap |

## Left out

- Pm.PciDev.Unregister: assumes that a registered entity with the same id is the entity passed in; the code matches by id and then unlinks the argument, which for an entity that is in no list is outside what a list model can state.
- PitRing.RxQueue.RxLoop: a queue is not stopped in the middle of a batch; `PitReleaseAndAdd` says exactly what a stop there breaks.
- PitRing.RxQueue.RxStart: a queue is not stopped in the middle of a batch; the loop does not look at the flag again.
- BatRing.BatRequest.UnmapBelow: the DMA unmapping itself is not modelled, here and in every other ring; no claim is made about which DMA mappings a rollback or an error path undoes.
- DrbRing.DrbRing.WriteParts: releases between parts run only when something is releasable, which the driver does not check.
- DrbRing.DrbRing.BurstSendSkb: releases that slip in between run only when something is releasable, which the driver does not check; `TxRelease` says what happens otherwise.
- DrbRing.DrbRing.RollBack: restores write index and buffer ownership; the order of its unmap calls is not modelled.
- DrbRing.DrbRing.HwPush: one queue, as the driver uses; the emptiness test over all queues is the test of this one.
- CldmaTx.TxQueue.SendSkb: after a mapping error the ring's invariant is not claimed; `SendExact` shows that it is lost. The other senders' mappings succeed.
- CldmaTx.TxQueue.Others: the other senders' DMA mappings succeed.
- PortProxy.Proxy.Dequeue: what the reader does with a packet is not modelled.
- CldmaRx.RxQueue.GpdRxFromQ: the hardware's current descriptor address is an answer of the environment, and the descriptor poll waits are turns.
- Ownership of fragment pages: the fragment buffer ring appears only through the outcome of taking a page, and the fragment id check is not modelled.
- Buffer rings across stop and start, and the mutual exclusion of stop steps with running polls and releases.
- The check and the emptying of a slot by a poll are one step; two receive queues that share a buffer ring interleave between such steps.
- PitRing.RxQueue.NapiRxPoll: late contents arrive between batches, not within the delay of one sequence check.
- A poll's delays, runtime power references, interrupt masking and the sleep-disable count.
- Receive queue clearing of the control rings under allocation failure, ring freeing, and the zero-length or extended control queues' setup.
- The dedicated-queue receiver, port transmit paths, port removal, and the ports' modem-state callbacks.
- State broadcasts, notifiers, the event queue, the exception flag and the LK stage port setup of the state machine.
- Release of command memory: the code never drops a command's base reference, so the count never reaches zero in the model either.
- MMIO and register programming; doorbells, index reads and handshakes are answers with success, timeout or a value.
- Restoration of the RGU interrupt enable on an aborted suspend, and freshness of the AP handshake after a reset.
- netdev, WWAN, trace, sysfs, ACPI, interrupt and workqueue plumbing: thin wrappers over kernel services.
