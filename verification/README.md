# RirePE: verified models of the packet scheduler, the buffer pool and the bundled libraries

A Dafny project that models six parts of RirePE and proves what each of them keeps. `dafny verify dfyconfig.toml`
verifies the whole project within Dafny's default limits. Nothing here runs the original program.

1. **Packet scheduler** (`Packet/PacketSender.cpp`, fed by `Packet/PacketTCP.cpp`). TCP threads register queues and
   assemble packets into groups; a timer tick selects ready queues under a lock, injects outside the lock and commits
   under the lock again. `SchedulerModel` is the step machine: every critical section is one step, and steps of the
   TCP threads may fall between any two steps of a tick. `PacketSender` is the same code as a class whose methods change
   its maps in place; each method's contract says that it performs exactly one step of the machine. Times are true
   times; the code only ever sees their low 32 bits. A run is a sequence of steps that the code enables: that every
   state on the way satisfies the safety invariant is proved, and costs no run (`RunGoesOn`). `SchedulerReach` builds runs
   step by step, `SchedulerRegistration` uses them to say exactly what registering and unregistering promise,
   `SchedulerGroups` says when a group is complete, `SchedulerMessage` what a registration message promises in its own
   fields, and `SchedulerExamples` holds concrete runs.
2. **Buffer pool and asynchronous queue** (`Packet/PacketQueue.cpp`, clients in `Packet/PacketLogging.cpp`).
   `BufferPool` and `PacketQueue` are the classes, `QueueProtocol` the interleaving of any number of producers, the
   worker and Stop; `BatchRun`, `DrainRun`, `AddRun` and `GiveUpRun` say which steps the methods of the class amount to.
   `QueueShutdown` is about what comes after Stop.
3. **Fixed-buffer linked list** (`Share/Hook/Zycore/List.c`). `FixedList` keeps the pointers as slot numbers in one
   array of nodes, `ListLayout` proves what linking and unlinking do to the chains, and `BoundedSequence` is the
   sequence that the list refines.
4. **Decoder skeleton** (`Share/Hook/Zydis/Decoder.c`). Prefix collection (`DecoderPrefixes`, `DecoderContext`),
   the tree walk with its one saved fallback (`DecoderMarks`, `DecoderTree`, `DecoderLockstep`), ModRM/SIB/displacement
   (`DecoderAddressing`). The tree is an arbitrary finite one. The walk keeps one fallback; it is backtracking, for all
   handlers and inputs, if and only if a check that follows both walks side by side over the tree succeeds
   (`BacktracksIffFaithful`). On the table that ships with the decoder, `DecoderTables.inc`, it is backtracking: no row
   of FILTERS_MANDATORY_PREFIX has another mandatory-prefix node below any of its children (`mandatory_rows.py` counts
   them), so that tree is flat (`FlatIsTame`, `SingleSlotBacktracks`). The nested trees in `DecoderTree` say where
   other tables would go wrong.
5. **Vector, string search, number formatting** (`Share/Hook/Zycore/Vector.c`, `String.c`, `Format.c`).
6. **Length-framed stream** (`Share/Simple/SimpleTCP.cpp`).

`Words` holds machine words, little-endian words and the sequence vocabulary (distinctness, subsequences).

## Findings

Where the code, its comments or an expected property disagree, the model follows the code and a lemma says exactly when
the property holds.

* The comment at `Packet/PacketSender.cpp:79` says that the first injection after a registration waits for the full
  interval. `RegistrationWait` says over all runs exactly when it does (`ComesEarly` is the complement). It does not wait
  in three cases. A packet of the queue is in flight and simply goes out. The last packet of a group is being committed:
  the commit overwrites the registration time with its tick's older clock sample (438), and a later tick measures from
  that (`CommitForgetsRegistration`, a run with both). Or a tick has sampled its clock before (249) and takes the lock
  afterwards (258): the unsigned difference wraps (`RegistrationWaitIsSkipped`); a group that is waiting, unfinished or
  even yet to begin may be served that way. Otherwise it waits (`QuietRegistrationWaits`).
* The delay between two packets of a group is compared as `clock >= deadline` on 32-bit values (289). It is never cut
  short if and only if the 32-bit addition that made the deadline did not wrap (`DeadlineNeverEarly`). The interval
  between groups is a wrapped subtraction and has no such exception (`InjectionSpacing`). It is counted from the tick's
  clock sample: the calls themselves can be closer by the time from that sample to the first call (`CallSpacing`,
  `CallsComeCloser`).
* A complete group can be injected immediately, says `Packet/PacketTCP.cpp:256`. The same test is late when the counter
  wraps after the group's first packet came: it holds for the next 2^32 ms if and only if the counter has not wrapped
  since (`DeadlineSeen`, `FreshGroupReady`; `WrapHoldsGroupBack` is a run for every delay in between).
* The guard of a timestamp write (391) adds in 32 bits. An offset of 2^32 - 4 passes it whatever the message's length,
  and the next three once the length is at least the wrapped sum (`GuardWraps`), so no length keeps all writes inside
  the message (`NoLengthIsSafe`). On the 32-bit build such a store hits the length field itself: at 2^32 - 4 the length
  becomes the timestamp (`WrappedWriteSetsLength`), which then decides about the writes that follow
  (`TimestampDecides`) and is the size handed to the game. As long as no write touches that field, the received length
  decides about all of them (`LengthStays`); and below 2^32 - 4 every write then stays inside if and only if that length
  does not exceed what was received, or is below 4 (`LengthFieldDecides`).
* An unregistered or cleared queue should stay out until it is registered again. It does if and only if no tick has drawn
  and not committed it at that moment (`UnregisterHolds`, `ClearHolds`): otherwise the commit (425, 437) re-creates it
  with zeroed settings, and it accepts packets again (`UnregisteredQueueRevives`). The safety invariant and the FIFO
  result hold on those runs too.
* Once the worker has ended, an entry queued after Stop has drained the queue is never freed (`LatePushIsLost`). From
  the drained queue on, all buffers come back if and only if the worker itself pops every late push, which it does once
  at most, when Stop's wait ran out between its test of the flag and its pop (`LatePushesLeak`, `LatePushIsServed`).
* `ShutdownPacketQueue` deletes the pool without waiting for them: no buffer is given back to the deleted pool if and
  only if no call is under way and the worker holds no entry (`NoFreeAfterShutdown`, `WorkerOutlivesPool`).
* In 64-bit mode with 32-bit addresses, a SIB base of R13D with mod 0 is decoded as base R13D without displacement,
  although four displacement bytes are read (the test at `Share/Hook/Zydis/Decoder.c:1514` looks for EBP only; the 64-bit
  case tests both). `DecodeOperandMemory` is right if and only if the encoding is not of that family.
* `TCPServerThread::Send` accepts messages that `Recv` refuses: the round trip holds if and only if the message has
  1 byte to 1 MiB (`UnframeFrame`). From 2^31 - 8 bytes on, `Send` reports success and sends nothing (`Send`).
* `ZyanStringLPosEx` searches a needle only up to its first zero: it reports "a", zero, "b" at position 0 of "axxx"
  (`EmbeddedZeroMisleads`). Its answer is right for every haystack and range if and only if the needle has no embedded
  zero (`RightIffNoEmbeddedZero`). `ZyanStringRPosEx` has no such exception (`RPosEx`).

## Model

| member | source | states |
|---|---|---|
| SchedulerSafety.ReceiveSafe | Packet/PacketTCP.cpp:219-274 | accepting a packet keeps the scheduler invariant: incomplete groups hold at most 254 packets, completed ones 1 to 255, index 0 |
| SchedulerSafety.SelectSafe | Packet/PacketSender.cpp:260-368 | selecting pops no empty queue and draws at most one ticket per queue, and keeps the invariant |
| SchedulerSafety.InjectSafe | Packet/PacketSender.cpp:373-422 | injecting the indexed packet is in range and keeps the invariant, even if the queue was dropped or re-registered since |
| SchedulerSafety.CommitSafe | Packet/PacketSender.cpp:423-446 | committing keeps the invariant also when it re-creates a configuration |
| SchedulerSafety.StepSafe | Packet/PacketSender.cpp:66-447 | every step of every thread keeps the invariant |
| SchedulerSafety.RunSafe | Packet/PacketSender.cpp:66-447 | the invariant holds after every interleaved run |
| SchedulerSafety.RunGoesOn | Packet/PacketSender.cpp:66-447 | a run goes on by exactly the events the code enables: the invariant that steps ask for excludes no interleaving |
| SchedulerSafety.ByteIndexNeverWraps | Packet/PacketSender.cpp:381-415 | in every reachable state the packet to inject exists and incrementing the one-byte index does not wrap |
| SchedulerFifo.ReceiveBacklog | Packet/PacketTCP.cpp:231-266 | an accepted packet goes to the very end of what its queue holds, also when it completes a group |
| SchedulerFifo.SelectBacklog | Packet/PacketSender.cpp:339-366 | selecting moves packets in flight without changing any queue's order of held packets |
| SchedulerFifo.InjectBacklog | Packet/PacketSender.cpp:380-421 | an injection takes exactly the head of what its queue holds |
| SchedulerFifo.CommitBacklog | Packet/PacketSender.cpp:414-440 | a commit changes no queue's held packets, even for a queue dropped meanwhile |
| SchedulerFifo.DropBacklog | Packet/PacketSender.cpp:94-102 | registering, unregistering and clearing only delete held packets, and only of the queues they name |
| SchedulerFifo.StepRefinesFifo | Packet/PacketSender.cpp:263-447 | each step simulates a FIFO: injected ++ held after equals held before ++ accepted, or a subsequence of it on an epoch-ending step |
| SchedulerFifo.FifoWithinEpoch | Packet/PacketSender.cpp:263-447 | over every run of a registration epoch, injected packets ++ held packets equal the held ones before ++ all accepted ones in arrival order |
| SchedulerFifo.FifoOnEveryRun | Packet/PacketSender.cpp:94-171 | over every run whatever, injected ++ held is a subsequence of what was held and accepted: no duplicate, no reordering, nothing invented |
| SchedulerFifo.LogRefinesFifo | Packet/PacketTCP.cpp:219-274 | from the start, the injection log of a queue and its held packets are a subsequence of its accepted packets |
| SchedulerTiming.TickServesShortestIntervals | Packet/PacketSender.cpp:327-366 | a tick draws min(ready, 10) distinct ready queues and passes over none with a shorter interval than a drawn one |
| SchedulerFairness.FewAreAllDrawn | Packet/PacketSender.cpp:333-337 | with at most ten ready queues a tick passes over none |
| SchedulerFairness.LongIntervalStarves | Packet/PacketSender.cpp:327-337 | as long as every tick finds ten ready queues with shorter intervals, a queue's packets never go out |
| SchedulerTiming.TickServesEachDrawnOnce | Packet/PacketSender.cpp:373-447 | each drawn queue gets exactly one packet out in drawing order, whatever registrations change meanwhile |
| SchedulerTiming.DeadlineNeverEarly | Packet/PacketSender.cpp:289-298 | the deadline test never fires early if and only if the 32-bit addition did not wrap |
| SchedulerTiming.DeadlineSeen | Packet/PacketSender.cpp:289-298 | for 2^32 ms from a deadline the test holds exactly while the counter has not wrapped since |
| SchedulerTiming.FreshGroupReady | Packet/PacketTCP.cpp:231-257 | a one-packet group that arrives at an empty queue is ready exactly when its interval has passed by the code's count and the counter has not wrapped since |
| SchedulerExamples.WrapHoldsGroupBack | Packet/PacketTCP.cpp:250-257 | a run from the start, for every delay up to 2^32 - 1: a group accepted just before the wrap is not ready |
| SchedulerRegistration.RegistrationWait | Packet/PacketSender.cpp:79-80 | after a registration the first injection of the queue waits for the full interval in every run of the epoch, if and only if no packet of it is in flight, no commit under way puts an older time on record that a later tick passes, and no tick sampled before passes |
| SchedulerRegistration.FirstCallFrom | Packet/PacketSender.cpp:263-447 | for a queue without an active group, the first injection comes no earlier than a given time in every run, if and only if nothing is in flight and no tick, sampled or later, can find its next group ready before |
| SchedulerRegistration.BarredRun | Packet/PacketSender.cpp:263-447 | the half over every run: nothing that other threads do within the epoch brings the first injection forward |
| SchedulerRegistration.EarlyCall | Packet/PacketSender.cpp:263-447 | the other half: whenever an early injection is not ruled out, some run makes it |
| SchedulerRegistration.QuietRegistrationWaits | Packet/PacketSender.cpp:79-80 | a queue that no tick has drawn waits, unless a tick has sampled its clock before |
| SchedulerRegistration.LaterTickClosed | Packet/PacketSender.cpp:286-298 | with no group begun, a commit makes the injection early if and only if its clock sample shows another time than the registration |
| SchedulerRegistration.SampledTickClosed | Packet/PacketSender.cpp:286-298 | with a group waiting whose deadline has passed, a tick sampled before is early if and only if the interval does not exceed the wrapped difference |
| SchedulerRegistration.BegunInTime | Packet/PacketTCP.cpp:231-250 | with no group begun, one can begin in time for that tick if and only if the registration shows no later than the sample or the counter wraps within the interval |
| SchedulerExamples.CommitForgetsRegistration | Packet/PacketSender.cpp:433-439 | a run from the start: registered again at 1900 with interval 1000, and packets go out at 1900 and at 2000, the second from a tick sampled at 2000 |
| SchedulerRegistration.UnregisterHolds | Packet/PacketSender.cpp:123-151 | an unregistered queue stays unregistered in every run without a registration if and only if no tick has drawn and not committed it |
| SchedulerRegistration.ClearHolds | Packet/PacketSender.cpp:154-171 | the same for every queue when all are cleared |
| SchedulerExamples.UnregisteredQueueRevives | Packet/PacketSender.cpp:433-439 | a run from the start in which the commit re-creates the queue with packet count and interval zero, and it accepts a packet |
| SchedulerExamples.RegistrationWaitIsSkipped | Packet/PacketSender.cpp:249-299 | a run from the start: a registration between clock sample and lock, and an injection in the same millisecond although the interval is 1000 |
| SchedulerSpacing.DueElapsed | Packet/PacketSender.cpp:286-299 | the 32-bit readiness test implies the true waiting time since the queue's last committed injection |
| SchedulerSpacing.StepTimed | Packet/PacketSender.cpp:371-438 | every step keeps the link between a queue's stored times and its last injection, and a new injection follows it in order and time |
| SchedulerSpacing.InjectionSpacing | Packet/PacketSender.cpp:286-299 | in every run of an epoch, each injection of a queue is the accepted packet with the timestamps of its slot written, byte for byte, where the configuration asks for them and otherwise as it came, and consecutive ones are successive packets at least the configured interval or packet delay apart (for the delay: unless the deadline wrapped) |
| SchedulerSpacing.CallSpacing | Packet/PacketSender.cpp:371-438 | between two calls of different groups the interval passes, less the time from the first tick's clock sample to its call |
| SchedulerSpacing.StampsAreSamples | Packet/PacketSender.cpp:371-409 | over every run that starts before a tick's second clock sample, every call carries a sample taken during the run and no later than the call |
| SchedulerExamples.CallsComeCloser | Packet/PacketSender.cpp:371-438 | a run from the start where a slow tick brings two calls 100 apart at an interval of 1000 |
| SchedulerGroups.AcceptedPacket | Packet/PacketTCP.cpp:226-266 | an accepted packet leaves the waiting groups alone if and only if the unfinished group stays below the packet count; otherwise exactly one group, of all its packets, goes to the end |
| SchedulerGroups.GroupsStayWhole | Packet/PacketTCP.cpp:226-266 | over every run of an epoch whose groups are whole, they stay so, wherever they are, and a call ends its group exactly when it is for the last packet |
| SchedulerGroups.EpochGroupsAreWhole | Packet/PacketTCP.cpp:226-266 | an epoch that starts with nothing held or in flight forms groups of exactly max(1, packet_count) packets, and a call is the last of its group if and only if its index is one less |
| SchedulerGroups.DropsExactly | Packet/PacketSender.cpp:123-171 | unregistering and clearing leave a queue nothing but a packet in flight |
| SchedulerGroups.RegisterKeeps | Packet/PacketSender.cpp:66-120 | registering again drops the rest of the active group and nothing else |
| SchedulerMessage.RegisteredFields | Packet/PacketSender.cpp:79-97 | the configuration registered, field by field of the message: at most 8 slots, at most 8 offsets each |
| SchedulerMessage.RegisteredPackets | Packet/PacketSender.cpp:384-397 | over every run of the epoch a message registers, each call hands over its packet with the timestamps the message asks for in place, or unchanged when the flag is off, the header is another one or there is no such slot |
| SchedulerMessage.RegisteredTimestamp | Packet/PacketSender.cpp:384-397 | for offsets that keep away from the length field: every write that lies inside the message, and that no later one overlaps, reads back as the tick's sample, byte by byte |
| SchedulerMessage.RegisteredSpacing | Packet/PacketSender.cpp:286-299 | over every run of that epoch successive calls follow each other in index, and in time by the intervals in the message |
| SchedulerMessage.StoredGroupReady | Packet/PacketSender.cpp:286-301 | a group under way is ready if and only if the clock shows its next time or more |
| SchedulerMessage.GroupIsStored | Packet/PacketSender.cpp:410-440 | with no tick running and the last call not the last of its group, the group is stored with the next index and the deadline of the message's delay |
| SchedulerMessage.NextPacketComes | Packet/PacketSender.cpp:286-301 | the later packets of a group do come: at any time from the deadline on, the counter not wrapped since, some run of the epoch makes the next call, with the next index, at that time |
| PacketSender.Scheduler.RegisterQueue | Packet/PacketSender.cpp:66-120 | performs the register step: new configuration without active group, waiting groups kept |
| PacketSender.Scheduler.ReadName | Packet/PacketSender.cpp:76-76 | the queue name is the field up to its first zero |
| PacketSender.Scheduler.UnregisterQueue | Packet/PacketSender.cpp:123-151 | performs the unregister step and says whether the queue was known |
| PacketSender.Scheduler.ClearAllQueues | Packet/PacketSender.cpp:154-171 | performs the clear step |
| PacketSender.Scheduler.ReceivePacket | Packet/PacketTCP.cpp:219-274 | performs the receive step: the packet joins the unfinished group, and a group goes to the end of the queue exactly when that makes the packet count or more |
| PacketSender.Scheduler.IsReady | Packet/PacketSender.cpp:264-301 | decides readiness: a group under way is ready exactly from its next time on, a waiting one when the interval has passed too |
| PacketSender.Scheduler.ReadyQueues | Packet/PacketSender.cpp:260-315 | collects exactly the ready queues, each once |
| PacketSender.Scheduler.SortByInterval | Packet/PacketSender.cpp:327-331 | sorts the names by interval: the same names, each once, in non-decreasing interval order |
| PacketSender.Scheduler.SelectReadyQueues | Packet/PacketSender.cpp:258-368 | performs the select step for an order that std::sort may return |
| PacketSender.Scheduler.ActivateQueues | Packet/PacketSender.cpp:337-366 | draws the tickets and updates both maps as the select step says |
| PacketSender.Scheduler.WriteTimestamps | Packet/PacketSender.cpp:389-395 | the write loop, which reads the length field anew for each write, produces the patched message of the model |
| PacketSender.Scheduler.UpdateTimestamps | Packet/PacketSender.cpp:384-397 | the slot's timestamps are written if it asks for them and the packet is one that is sent; otherwise nothing changes |
| PacketSender.Scheduler.InjectNext | Packet/PacketSender.cpp:373-422 | performs the inject step: logs the indexed packet with the timestamps of its slot written, or as it came, and advances index and deadline |
| PacketSender.Scheduler.CommitNext | Packet/PacketSender.cpp:423-440 | performs the commit step |
| PacketPatching.CoversPlainly | Packet/PacketSender.cpp:392-392 | at an offset below 2^32 - 24 a write covers exactly the four bytes from its place in the packet data on |
| PacketPatching.PatchLeavesOthers | Packet/PacketSender.cpp:389-395 | bytes of the message, header and length field included, that no write touches keep their value; which writes happen is judged by the length field at their turn |
| PacketPatching.PatchWritesByte | Packet/PacketSender.cpp:389-395 | a byte that a write covers, and no later one, becomes that byte of the timestamp, also when the write leaves the message or begins before its data |
| PacketPatching.PatchWritesTimestamp | Packet/PacketSender.cpp:389-395 | reading the four bytes back where a write inside the message happened that no later one touches returns the tick's timestamp |
| PacketPatching.PatchDone | Packet/PacketSender.cpp:389-395 | after the loop every write that happens inside the message and is not written over reads back as the timestamp, and every byte that none touches is as before |
| PacketPatching.GuardWraps | Packet/PacketSender.cpp:391-391 | the guard lets a write at 2^32 - 4 + d through if and only if d is at most the length |
| PacketPatching.NoLengthIsSafe | Packet/PacketSender.cpp:391-391 | for no length does the guard keep every write inside the message |
| PacketPatching.LengthFieldDecides | Packet/PacketSender.cpp:391-391 | below 2^32 - 4 the guard keeps every write inside if and only if the length field does not exceed the received size or is below 4 |
| PacketPatching.HitsLengthExactly | Packet/PacketDefs.h:67-80 | the writes that touch the length field are those at 2^32 - 7 and above |
| PacketPatching.LengthStays | Packet/PacketSender.cpp:390-391 | as long as no write touches the length field, the received length decides about every write |
| PacketPatching.WrappedWriteSetsLength | Packet/PacketSender.cpp:391-392 | a write at 2^32 - 4 always happens, makes the length field the timestamp and changes nothing else |
| PacketPatching.TimestampDecides | Packet/PacketSender.cpp:390-392 | after it the next write happens if and only if the timestamp allows it, whatever length was received |
| PacketPatching.WrappedWriteReachesStart | Packet/PacketSender.cpp:391-392 | an allowed write at 2^32 - 2 changes the upper half of the length field and the first two bytes of the data, and no others |
| BufferPool.FirstFree | Packet/PacketQueue.cpp:38-46 | the lowest free slot, none exactly when all are in use |
| BufferPool.HeapFallback | Packet/PacketQueue.cpp:26-56 | the heap is used if and only if the request is over 8192 bytes or every slot is in use |
| BufferPool.PacketBufferPool.Allocate | Packet/PacketQueue.cpp:26-56 | marks exactly the handed-out slot and records its size |
| BufferPool.PacketBufferPool.Free | Packet/PacketQueue.cpp:58-70 | unmarks exactly that slot; heap blocks and bad indices change nothing |
| QueueProtocol.StepHolders | Packet/PacketQueue.cpp:132-273 | a step changes a buffer's holder count by the buffer it takes and the one it frees |
| QueueProtocol.StepTakesFree | Packet/PacketQueue.cpp:37-46 | an allocation never hands out a buffer that somebody holds |
| QueueProtocol.StepKeepsOwnership | Packet/PacketQueue.cpp:132-273 | every buffer in use keeps exactly one holder among producers, queue and worker, every free one none |
| QueueProtocol.StepKeepsDelivery | Packet/PacketQueue.cpp:197-273 | pops follow push order, and the worker's sends and Stop's drains are what each of them popped, in order |
| QueueProtocol.RunKeepsInv | Packet/PacketQueue.cpp:99-273 | every interleaving of producers, worker and shutdown keeps ownership, delivery order and uniqueness |
| QueueProtocol.Reachable | Packet/PacketQueue.cpp:76-273 | ownership, delivery order and uniqueness hold in every state reachable from Start |
| QueueProtocol.FallbackMeansHeld | Packet/PacketQueue.cpp:26-56 | in every reachable state Allocate uses the heap if and only if the request is over 8192 bytes or all 256 slots have a holder |
| QueueProtocol.BatchesAreBounded | Packet/PacketQueue.cpp:198-205 | over every run the worker is back in the outer loop after sixteen entries at the latest |
| QueueProtocol.SentInOrder | Packet/PacketQueue.cpp:205-225 | in every run from Start, entries reach SendPacketData in queueing order, each at most once |
| QueueProtocol.AllBackIffNothingHeld | Packet/PacketQueue.cpp:58-70 | once the worker has ended, every slot is free and every heap block deleted if and only if no producer and no queue entry holds a buffer |
| QueueProtocol.QueuedSplit | Packet/PacketQueue.cpp:197-273 | every queued entry is sent, drained, still queued or in the worker's hands, exactly one of these |
| QueueProtocol.CleanShutdown | Packet/PacketQueue.cpp:99-130 | in every run, with the worker ended and producers quiet, every queued entry was sent, drained or is still queued exactly once, and all buffers are back if and only if the queue is empty |
| QueueShutdown.LatePushesLeak | Packet/PacketQueue.cpp:113-140 | after the drain, with the worker ended and producers quiet, all buffers are back if and only if the worker popped every late push, at most one and only if Stop found it before its pop |
| QueueShutdown.LatePushes | Packet/PacketQueue.cpp:113-223 | over every run after Stop, late pushes are queued or popped by the worker, which pops once at most |
| QueueShutdown.LatePushIsLost | Packet/PacketQueue.cpp:113-140 | a run from Start in which a late push is never freed |
| QueueShutdown.LatePushIsServed | Packet/PacketQueue.cpp:201-273 | a run from Start in which the worker, past its test of the flag, serves the late push |
| QueueShutdown.StopClearsFlag | Packet/PacketQueue.cpp:99-105 | in every reachable state after Stop the flag is cleared |
| QueueShutdown.NoFreeAfterShutdown | Packet/PacketQueue.cpp:290-300 | no buffer is given back to the deleted pool if and only if no call is under way and the worker holds no entry |
| QueueShutdown.WorkerOutlivesPool | Packet/PacketQueue.cpp:108-111 | a run from Start in which Stop's wait runs out and a buffer is freed into the deleted pool |
| QueueProtocol.WorkerWindsDown | Packet/PacketQueue.cpp:201-207 | after Stop clears the flag the worker takes at most five more steps and pops at most one more entry |
| QueueProtocol.DrainRun | Packet/PacketQueue.cpp:114-129 | draining frees every queued buffer in queue order and empties the queue |
| QueueProtocol.BatchRun | Packet/PacketQueue.cpp:204-271 | a batch of n entries is 4n worker steps: they leave the front, are sent in order, and their buffers go back |
| QueueProtocol.AddRun | Packet/PacketLogging.cpp:155-206 | an uninterrupted allocate-and-queue call is the two producer steps |
| QueueProtocol.GiveUpRun | Packet/PacketQueue.cpp:168-175 | a blocking call whose event cannot be created leaves queue, pool and heap as they were |
| PacketQueue.AsyncPacketQueue.AddPacket | Packet/PacketLogging.cpp:59-94 | allocates by the pool's rule and queues the buffer it got, or gives it back when a blocking call gets no event |
| PacketQueue.AsyncPacketQueue.AddSendPacket | Packet/PacketLogging.cpp:155-206 | the packet's tracked items are queued before the packet, each with its own buffer, in blocking mode or not |
| PacketQueue.AsyncPacketQueue.QueuePacketBlocking | Packet/PacketQueue.cpp:159-189 | queues the entry, or frees its buffer and reports failure when the event cannot be created |
| PacketQueue.AsyncPacketQueue.AddExtraAll | Packet/PacketLogging.cpp:131-153 | the tracked items of a packet are queued in tracking order, each with its own buffer, and exactly those buffers are in use afterwards besides the earlier ones |
| PacketQueue.AllocatesFreeSlots | Packet/PacketQueue.cpp:37-46 | successive allocations take different slots, each free before, and change no other |
| PacketQueue.AsyncPacketQueue.ProcessBatch | Packet/PacketQueue.cpp:204-271 | sends the first 16 entries at most, fewer when the queue runs out or Stop clears the flag meanwhile, in order, and frees exactly their buffers |
| PacketQueue.AsyncPacketQueue.Drain | Packet/PacketQueue.cpp:113-129 | empties the queue and frees exactly the queued buffers |
| PacketQueue.FreeAllFrees | Packet/PacketQueue.cpp:115-124 | the freed slots are exactly those of the drained entries |
| ListLayout.NewSlotUnused | Share/Hook/Zycore/List.c:74-91 | the slot that bump or free-list allocation picks is in the buffer and in neither chain, and using it keeps the layout |
| ListLayout.LayoutIsExact | Share/Hook/Zycore/List.c:82-90 | live and recycled slots together are exactly slots 0 to size + recycled - 1 |
| ListLayout.LinkedBackOk | Share/Hook/Zycore/List.c:347-360 | linking behind the tail keeps prev and next mutually inverse, leaves recycled nodes alone and appends the element |
| ListLayout.LinkedFrontOk | Share/Hook/Zycore/List.c:375-388 | the same before the head |
| ListLayout.UnlinkedBackOk | Share/Hook/Zycore/List.c:473-491 | unhooking the tail keeps both chains acyclic and disjoint and removes the last element |
| ListLayout.UnlinkedFrontOk | Share/Hook/Zycore/List.c:505-523 | the same for the head |
| BoundedSequence.RunBounded | Share/Hook/Zycore/List.c:338-653 | no sequence of operations holds more elements than slots |
| BoundedSequence.PushSucceedsIffRoom | Share/Hook/Zycore/List.c:82-87 | after any operations a push or emplace succeeds if and only if the size is below capacity / node stride |
| BoundedSequence.StepConserves | Share/Hook/Zycore/List.c:462-653 | with a destructor, an operation changes the count of any element value in list and destructor log together by exactly what it brought in |
| BoundedSequence.DestroyedExactlyOnce | Share/Hook/Zycore/List.c:462-653 | with a destructor, over any run, each element that came in is either still in the list or was destroyed, exactly once |
| BoundedSequence.QueueOrder | Share/Hook/Zycore/List.c:338-523 | pushing at the back and popping at the front is a FIFO queue over every run |
| BoundedSequence.PopUndoesPush | Share/Hook/Zycore/List.c:338-523 | at either end a pop takes back exactly what the push before it added |
| FixedList.FitsIff | Share/Hook/Zycore/List.c:82-84 | the byte comparison asks exactly whether size is below capacity / stride |
| FixedList.FixedBufferList.constructor | Share/Hook/Zycore/List.c:161-180 | a new list is empty and valid |
| FixedList.FixedBufferList.AllocateNode | Share/Hook/Zycore/List.c:60-90 | succeeds if and only if a slot is left and yields an unused slot |
| FixedList.FixedBufferList.DeallocateNode | Share/Hook/Zycore/List.c:100-118 | puts the node at the front of the free list |
| FixedList.FixedBufferList.PushBack | Share/Hook/Zycore/List.c:338-364 | refines append on the bounded sequence, layout and links kept |
| FixedList.FixedBufferList.PushFront | Share/Hook/Zycore/List.c:366-392 | refines prepend |
| FixedList.FixedBufferList.EmplaceBack | Share/Hook/Zycore/List.c:394-424 | refines append of the constructed element, or of the slot's old bytes without a constructor; the returned pointer is the tail |
| FixedList.FixedBufferList.EmplaceFront | Share/Hook/Zycore/List.c:426-456 | the same at the head |
| FixedList.FixedBufferList.PopBack | Share/Hook/Zycore/List.c:462-492 | refines removal of the last element, destroying it if a destructor is set; invalid on the empty list |
| FixedList.FixedBufferList.PopFront | Share/Hook/Zycore/List.c:494-524 | refines removal of the first element |
| FixedList.FixedBufferList.ResizeEx | Share/Hook/Zycore/List.c:561-653 | refines truncation and filling, including stopping half way in a full buffer and resetting at 0; destruction order is front first at 0, back first otherwise |
| FixedList.FixedBufferList.Clear | Share/Hook/Zycore/List.c:541-544 | refines resize to 0 |
| FixedList.FixedBufferList.Execute | Share/Hook/Zycore/List.c:338-653 | any sequence of operations is a run of the bounded sequence that ends in what the list holds |
| DecoderPrefixes.PrefixCount | Share/Hook/Zydis/Decoder.c:3151-3220 | the length of the maximal run of prefix bytes |
| DecoderPrefixes.LastIn | Share/Hook/Zydis/Decoder.c:3151-3209 | a position holding a byte of the group, or -1 |
| DecoderPrefixes.SearchesAreExact | Share/Hook/Zydis/Decoder.c:3151-3209 | no byte of the group lies behind the last position or before the first one found |
| DecoderPrefixes.PrefixBytes | Share/Hook/Zydis/Decoder.c:3143-3208 | the prefix bytes, by value |
| DecoderPrefixes.GroupsInBytes | Share/Hook/Zydis/Decoder.c:3151-3209 | lock, the last byte of each group and the size overrides as recorded, in the bytes themselves |
| DecoderPrefixes.SegmentInBytes | Share/Hook/Zydis/Decoder.c:3163-3186 | the effective segment is FS or GS in 64-bit mode if there is one, else the last override of any kind |
| DecoderPrefixes.OffsetsInBytes | Share/Hook/Zydis/Decoder.c:3151-3209 | the recorded positions are those of the last such bytes |
| DecoderPrefixes.KindInBytes | Share/Hook/Zydis/Decoder.c:3222-3236 | effective are the last 66, the last 67, and a REX byte in the last place in 64-bit mode; no other prefix |
| DecoderPrefixes.CandidateSnoc | Share/Hook/Zydis/Decoder.c:3157-3190 | the mandatory candidate (last F2/F3, else first 66) after one more byte |
| DecoderPrefixes.SegmentSnoc | Share/Hook/Zydis/Decoder.c:3165-3180 | the effective segment (FS/GS beat the others in 64-bit mode, else the last wins) after one more byte |
| DecoderPrefixes.ReadingSnoc | Share/Hook/Zydis/Decoder.c:3148-3209 | the byte-by-byte switch keeps the record equal to the declarative reading of all bytes so far |
| DecoderContext.Context.InputPeek | Share/Hook/Zydis/Decoder.c:292-311 | too long at 15 bytes, else no data at the end of input, else the next input byte |
| DecoderContext.Context.InputSkip | Share/Hook/Zydis/Decoder.c:323-333 | read bytes and remaining bytes stay a split of the input, at most 15 read |
| DecoderContext.Context.InputNext | Share/Hook/Zydis/Decoder.c:346-367 | takes the next byte or, failing, nothing |
| DecoderContext.Context.InputNextBytes | Share/Hook/Zydis/Decoder.c:383-406 | takes exactly the next bytes or, failing, none |
| DecoderContext.Context.SwitchByte | Share/Hook/Zydis/Decoder.c:3151-3209 | classifies one byte and updates the record as the model of one byte says |
| DecoderContext.Context.TrackRex | Share/Hook/Zydis/Decoder.c:3199-3215 | a later prefix invalidates REX, a later REX replaces it |
| DecoderContext.Context.DecodeRex | Share/Hook/Zydis/Decoder.c:420-439 | the four bits W, R, X, B together are the low nibble |
| DecoderContext.Context.CollectBytes | Share/Hook/Zydis/Decoder.c:3145-3220 | takes exactly the prefix run, or stops at 15 bytes or the end of input; REX counts only as the last prefix in 64-bit mode |
| DecoderContext.Context.CollectOptionalPrefixes | Share/Hook/Zydis/Decoder.c:3128-3239 | for every input, the record, flags, REX bits and per-prefix marks equal the declarative reading of the prefix bytes; the length never exceeds 15 |
| DecoderContext.Context.MandatoryPrefixHandler | Share/Hook/Zydis/Decoder.c:3979-4011 | picks child 2, 3 or 4 for the candidates 66, F3 and F2, child 1 without one, and marks the candidate prefix |
| DecoderContext.Context.ReleaseMandatory | Share/Hook/Zydis/Decoder.c:4622-4640 | the re-marking done when the fallback is taken |
| DecoderContext.Context.OperandSizeHandler | Share/Hook/Zydis/Decoder.c:4013-4047 | picks the child of mode, operand-size attribute and wide bit (SizeByPrefix says which) and re-marks at most the operand-size prefix |
| DecoderMarks.MandatoryIndex | Share/Hook/Zydis/Decoder.c:3986-4007 | the tried child is 2, 3 or 4 exactly for the candidates 66, F3 and F2, else 1, and never the fallback child 0 |
| DecoderMarks.ChoiceByPrefix | Share/Hook/Zydis/Decoder.c:3986-4007 | for all prefix bytes the child tried is 4 if the last F2 or F3 is F2, 3 if it is F3, 2 if there is neither and a 66 occurs, else 1 |
| DecoderMarks.MarkedByPrefix | Share/Hook/Zydis/Decoder.c:3986-4007 | the prefix marked as mandatory is the last F2 or F3, without one the first 66, and no other |
| DecoderMarks.SizeAfterChoice | Share/Hook/Zydis/Decoder.c:3986-4007 | the operand-size attribute holds before when there is a 66, and after when an F2 or F3 was used up instead of it |
| DecoderMarks.CollectingGivesMarks | Share/Hook/Zydis/Decoder.c:3222-3236 | collecting leaves marks from which the fallback can be undone |
| DecoderMarks.FallbackUndoes | Share/Hook/Zydis/Decoder.c:4622-4640 | taking the fallback restores exactly the marks and the operand-size attribute from before the mandatory-prefix handler |
| DecoderMarks.OperandSizeLeavesNoTrace | Share/Hook/Zydis/Decoder.c:4023-4029 | the operand-size handler changes no mark, before or after the mandatory-prefix handler |
| DecoderTree.SavedAndTriedShrink | Share/Hook/Zydis/Decoder.c:4677-4679 | tried child and saved child 0 together are smaller than their node: the walk's termination measure |
| DecoderTree.SlotUntilDeadEnd | Share/Hook/Zydis/Decoder.c:4609-4643 | below a tried child the loop follows backtracking up to the dead end and then resumes at the saved node with restored marks |
| DecoderTree.NoFallbackNeeded | Share/Hook/Zydis/Decoder.c:4609-4813 | on every tree, a walk that needs no fallback answers as backtracking does |
| DecoderTree.BarrenBacktracks | Share/Hook/Zydis/Decoder.c:4609-4643 | when no mandatory-prefix node has anything in its fallback child, the loop equals backtracking however they are nested |
| DecoderTree.SingleSlotBacktracks | Share/Hook/Zydis/Decoder.c:4609-4813 | the one-fallback loop equals backtracking, marks included, on every tree in which nested mandatory-prefix nodes have empty fallbacks |
| DecoderTree.FlatIsTame | Share/Hook/Zydis/Decoder.c:4677-4683 | that includes every tree without a mandatory-prefix node below a tried child of another |
| DecoderTree.TriesByPrefix | Share/Hook/Zydis/Decoder.c:3979-4011 | at every mandatory-prefix node the loop goes on with the child that the prefix bytes select, child 0 saved |
| DecoderTree.SizeByPrefix | Share/Hook/Zydis/Decoder.c:4013-4047 | the child of an operand-size node, from the mode, the occurrence of 66 and the wide bit |
| DecoderTree.OneMandatoryNode | Share/Hook/Zydis/Decoder.c:3979-4011 | one mandatory-prefix node over definitions: the selected child with its prefix marked, or, when nothing is there, child 0 with no prefix marked |
| DecoderTree.NestedNodeLosesAlternative | Share/Hook/Zydis/Decoder.c:4677-4683 | with nesting the outer alternative can be lost: a concrete tree |
| DecoderTree.NestedFallbackReleasesOuterMark | Share/Hook/Zydis/Decoder.c:4622-4640 | with nesting the inner alternative can be found with the outer node's prefix released: a concrete tree |
| DecoderTree.DecodeInstruction | Share/Hook/Zydis/Decoder.c:4603-4815 | the walk ends on every finite tree and answers what the one-fallback semantics, and where that is backtracking, backtracking answers |
| DecoderTree.Decode | Share/Hook/Zydis/Decoder.c:3128-3239 | prefix collection followed by the walk: on every tree the answer is a function of the input bytes; at the root the child that the prefix bytes select is taken, and which prefix is marked as mandatory is stated in the bytes too |
| DecoderLockstep.WalkIsSingleSlot | Share/Hook/Zydis/Decoder.c:4609-4813 | the walk by single moves, keeping one alternative, is the loop |
| DecoderLockstep.WalkIsBacktrack | Share/Hook/Zydis/Decoder.c:4609-4813 | the same walk, keeping all alternatives with their marks, is backtracking |
| DecoderLockstep.FaithfulBacktracks | Share/Hook/Zydis/Decoder.c:4609-4813 | if the side-by-side check succeeds, the loop equals backtracking on every input and for handlers of every kind |
| DecoderLockstep.OutOfStepParts | Share/Hook/Zydis/Decoder.c:4609-4813 | two walks out of step give different answers on some script of handler replies |
| DecoderLockstep.BacktracksIffFaithful | Share/Hook/Zydis/Decoder.c:4609-4813 | the loop equals backtracking for all scripts of handler replies if and only if the check of tree, prefixes, mode and marks succeeds |
| DecoderLockstep.TameIsFaithful | Share/Hook/Zydis/Decoder.c:4677-4683 | the check succeeds on every tree in which nested mandatory-prefix nodes have empty fallbacks |
| DecoderLockstep.NestedNodeFailsCheck | Share/Hook/Zydis/Decoder.c:4677-4683 | the check fails on the tree that loses the outer alternative |
| DecoderAddressing.PhysicalIsTabled | Share/Hook/Zydis/Decoder.c:3273-3333 | the displacement size read is that of the SDM tables for every ModRM, SIB, width and mode |
| DecoderAddressing.DecodeOptionalParts | Share/Hook/Zydis/Decoder.c:3251-3341 | reads exactly the ModRM, SIB and displacement bytes the tables call for, and fails if and only if they do not fit in input or length limit; the fields add up to the bytes read, there is a SIB byte exactly for rm 4 in 32 and 64-bit memory forms, and the displacement is the signed value of the last bytes read |
| DecoderAddressing.ReadDisplacement | Share/Hook/Zydis/Decoder.c:748-791 | the sign-extended little-endian value of the next bytes |
| DecoderAddressing.SignedByValue | Share/Hook/Zydis/Decoder.c:748-791 | the sign-extended value of 1, 2, 4 and 8 bytes, in the bytes themselves |
| DecoderAddressing.ReadHead | Share/Hook/Zydis/Decoder.c:705-740 | the ModRM byte is 64 mod + 8 reg + rm, the SIB byte 64 scale + 8 index + base |
| DecoderAddressing.ScaleByValue | Share/Hook/Zydis/Decoder.c:1500-1513 | the index counts 1, 2, 4 or 8 times, once in 16-bit forms, and not at all when there is none |
| DecoderAddressing.RegistersByValue | Share/Hook/Zydis/Decoder.c:1470-1512 | base and index register numbers of 32 and 64-bit forms, the extension bits adding 8 and 16 in 64-bit mode only |
| DecoderAddressing.DecodeOperandMemory | Share/Hook/Zydis/Decoder.c:1418-1595 | operand and displacement size equal the SDM tables if and only if the encoding is not R13D as 32-bit SIB base with mod 0 in 64-bit mode; and what it yields there |
| VectorGrowth.StepPaysTwo | Share/Hook/Zycore/Vector.c:42-55 | a push or pop raises moves plus potential by at most two and keeps size within capacity |
| VectorGrowth.MovesAmortised | Share/Hook/Zycore/Vector.c:425-447 | over every run of pushes and pops from any capacity, reallocation moves at most two elements per operation, and 1 <= capacity, size <= capacity |
| VectorGrowth.PolicyByValue | Share/Hook/Zycore/Vector.c:42-55 | a full vector grows to twice the new size, one below a quarter shrinks to twice what is left, at least 1; nothing else reallocates |
| VectorGrowth.CalmAfterReallocation | Share/Hook/Zycore/Vector.c:42-55 | after a reallocation that leaves n elements, no run of n / 2 operations reallocates |
| ZyanVector.Vector.constructor | Share/Hook/Zycore/Vector.c:194-217 | an empty vector of at least the minimum capacity |
| ZyanVector.Vector.CustomBuffer | Share/Hook/Zycore/Vector.c:219-237 | an empty vector over a caller's buffer |
| ZyanVector.Vector.Reallocate | Share/Hook/Zycore/Vector.c:84-119 | contents survive; a fixed buffer refuses more than it has |
| ZyanVector.Vector.ShiftLeft | Share/Hook/Zycore/Vector.c:131-145 | the overlapping move left keeps prefix and moved part |
| ZyanVector.Vector.ShiftRight | Share/Hook/Zycore/Vector.c:157-171 | the overlapping move right keeps prefix and moved part |
| ZyanVector.Vector.PushBack | Share/Hook/Zycore/Vector.c:425-447 | appends, and follows the capacity policy exactly; a full fixed buffer leaves the vector as it was |
| ZyanVector.Vector.PopBack | Share/Hook/Zycore/Vector.c:610-634 | drops the last element, and follows the capacity policy exactly |
| ZyanVector.Vector.InsertRange | Share/Hook/Zycore/Vector.c:454-485 | contents become prefix ++ elements ++ suffix, the capacity follows the growth policy; each error leaves them unchanged |
| ZyanVector.Vector.DeleteRange | Share/Hook/Zycore/Vector.c:576-608 | contents become prefix ++ suffix, the capacity follows the shrink policy |
| ZyanVector.Vector.ResizeEx | Share/Hook/Zycore/Vector.c:755-791 | keeps the common prefix, fills with the initializer if given, and follows the capacity policy exactly; a fixed buffer that is too small leaves all unchanged |
| ZyanVector.Vector.BinarySearchEx | Share/Hook/Zycore/Vector.c:701-744 | the least position in range whose element is not below the key; found if and only if that element equals the key |
| ZyanVector.SortedIsMonotone | Share/Hook/Zycore/Vector.c:724-740 | a range sorted under a total preorder can be searched for any key |
| ZyanVector.InsertKeepsSorted | Share/Hook/Zycore/Vector.c:701-744 | inserting the key where the search points keeps the vector sorted |
| StringSearch.BeforeZero | Share/Hook/Zycore/String.c:599-603 | the part of a needle up to its first zero |
| StringSearch.WholeNeedle | Share/Hook/Zycore/String.c:599-603 | a needle without embedded zeros is that part |
| StringSearch.MatchForward | Share/Hook/Zycore/String.c:592-608 | decides whether the needle matches here within the range, every read in bounds |
| StringSearch.LPosEx | Share/Hook/Zycore/String.c:566-618 | the least position in range where the needle matches up to its first zero, not found if and only if there is none or the needle is longer than the haystack; for every needle |
| StringSearch.WholeNeedleIsCorrect | Share/Hook/Zycore/String.c:566-618 | without an embedded zero that is the least match of the needle within [index, index + count], not found if and only if there is none |
| StringSearch.EmbeddedZeroMisleads | Share/Hook/Zycore/String.c:599-603 | a needle with an embedded zero is reported where it does not occur: a concrete input |
| StringSearch.EmbeddedZeroFails | Share/Hook/Zycore/String.c:599-603 | every needle with an embedded zero has a haystack with a wrong answer |
| StringSearch.RightIffNoEmbeddedZero | Share/Hook/Zycore/String.c:566-618 | right for every haystack and range if and only if the needle has no embedded zero |
| StringSearch.MatchBackward | Share/Hook/Zycore/String.c:735-751 | the same comparison from the right |
| StringSearch.RPosEx | Share/Hook/Zycore/String.c:703-756 | the greatest match within [index - count, index], not found if and only if there is none |
| Numerals.ParseNumeral | Share/Hook/Zycore/Format.c:133-176 | parsing the canonical numeral returns the value |
| Numerals.PrintParse | Share/Hook/Zycore/Format.c:133-176 | parsing the padded numeral returns the value, for both bases and any padding |
| Numerals.NumeralLength | Share/Hook/Zycore/Format.c:34-37 | a value below base^n has at most n digits, exactly n if not below base^(n-1) |
| Numerals.PaddedInCase | Share/Hook/Zycore/Format.c:254-323 | decimal numerals have decimal digits only, hexadecimal ones letters of the case asked for |
| Numerals.NumeralAt | Share/Hook/Zycore/Format.c:288-290 | the digit at a position is the value shifted and masked |
| ZyanFormat.StringResize | Share/Hook/Zycore/String.c:1021-1032 | keeps the common prefix and zero-terminates; on failure nothing changes |
| ZyanFormat.DecimalScratch | Share/Hook/Zycore/Format.c:140-152 | for every 64-bit value the 20-character scratch buffer is never underrun and ends with the canonical decimal numeral |
| ZyanFormat.AppendDecU64 | Share/Hook/Zycore/Format.c:133-176 | appends exactly the padded decimal numeral, keeps the old text, zero-terminates; a full fixed buffer leaves the string unchanged |
| ZyanFormat.HighestNibble | Share/Hook/Zycore/Format.c:286-296 | the skipping loop stops at the highest nonzero nibble |
| ZyanFormat.WriteHex | Share/Hook/Zycore/Format.c:288-318 | the writing loop produces the canonical hexadecimal numeral |
| ZyanFormat.AppendHexU64 | Share/Hook/Zycore/Format.c:254-323 | appends exactly the padded hexadecimal numeral in either case; a full fixed buffer leaves the string unchanged |
| FramedStream.UnframeFrame | Share/Simple/SimpleTCP.cpp:64-123 | a framed message is read back, whatever follows, if and only if it has 1 byte to 1 MiB |
| FramedStream.FrameInBytes | Share/Simple/SimpleTCP.cpp:64-96 | a frame byte by byte: magic number, length, message, low byte first |
| FramedStream.StreamRoundTrip | Share/Simple/SimpleTCP.cpp:98-123 | repeated Recv on the stream of sendable messages delivers exactly those messages |
| FramedStream.CutStream | Share/Simple/SimpleTCP.cpp:98-123 | a stream cut at any byte delivers a prefix of the messages, each whole |
| FramedStream.Socket.Send | Share/Simple/SimpleTCP.cpp:64-96 | for any pattern of partial sends the whole frame goes out, a part of it on failure; and the signed-count limit |
| FramedStream.Socket.RecvExact | Share/Simple/SimpleTCP.cpp:28-39 | for any pattern of partial receives, takes exactly the next bytes |
| FramedStream.Socket.Recv | Share/Simple/SimpleTCP.cpp:98-123 | without faults succeeds if and only if the stream starts with a whole well-sized message, and takes exactly that one |
| FramedStream.Exchange | Share/Simple/SimpleTCP.cpp:64-123 | what one side sends is what the other receives, whatever the fragmentation on either side |

## Left out

- Sockets, threads, Windows events, timers, DLL entry, configuration files and debug logging: steps, an abstract clock and abstract byte streams stand for them.
- Hooking, process memory, GUI, pipes and the Python clients: raw memory, foreign calls, or duplicates of the framing. InjectSinglePacket is a log entry.
- Two overlapping ticks: the timer callback runs on one thread, so one tick ends before the next begins.
- Parsing of the TCP messages before a packet is accepted (`Packet/PacketTCP.cpp:70-204`), and the second, shorter declaration of the queue configuration there, of which only the packet count is read.
- PatchWritesByte: bytes outside the received message are not part of the model, so of a write that leaves it only the part inside is stated; addresses are 32 bits wide, while on a 64-bit build a write at an offset close to 2^32 lands 4 GiB further on.
- InjectionSpacing: times are measured from the tick's second clock sample, which is what the code records; CallSpacing speaks of the calls. A group's first packet is compared with the group before it, so a run starts when no packet of the queue is in flight.
- QueuePacketBlocking's answer and the waiters still blocked at shutdown: the answer is always the default. Start after Stop is not modelled.
- packet_id counters and the tracking map of `Packet/PacketLogging.cpp`, apart from the order in which tracked items are queued.
- FixedBufferList: the dynamic-allocator branch, null arguments and the unimplemented Remove and RemoveRange; sizes are unbounded integers, so the byte product in the fit test does not wrap.
- Vector: allocation is taken to succeed; growth factor 2 and threshold 1/4 in exact arithmetic, where the source multiplies floats; element destructors, Emplace, Swap, Reserve and ShrinkToFit.
- DecodeInstruction: handlers other than mandatory prefix, operand size and the fallback are arbitrary functions on the remaining state; what follows a found definition (operands, attributes, error conditions, 3DNow) and the contents of the generated tables are not part of the model.
- SingleSlotBacktracks: sufficient, not necessary; BacktracksIffFaithful is the exact condition.
- DecodeOptionalParts: immediates and direct displacements from the definition.
- DecimalScratch: the 200-character lookup table is the function that yields two digits.
- Case-insensitive search, Compare, AppendFormat, ArgParse and Bitset: no clean meaning, unused, or only easy members.
- TCPServerThread.Send: messages of 2^32 - 8 bytes or more are excluded, because the 32-bit total wraps and the copy leaves its buffer.
