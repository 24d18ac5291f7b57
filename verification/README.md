# An OpenNIC driver model

A Dafny model of the hard parts of an OpenNIC network driver with SR-IOV virtual functions (VFs): the
descriptor rings a driver shares with a DMA engine, the mailbox over which a VF asks the physical
function (PF) to set up its queues, the PF's bookkeeping of who owns which queue, the life cycle of a
VF interface, and the XGQ queue in shared memory. `dafny verify dfyconfig.toml` checks everything.

| file | what it models |
|---|---|
| `Arith.dfy`, `Wrappers.dfy` | 32-bit wrap-around, ring indices, powers of two and masks; options and results |
| `XgqRing.dfy` | one XGQ ring: two peers, shared counters that wrap at 2^32, cached copies, deferred publication; its refinement of a bounded FIFO |
| `XgqLayout.dfy` | choosing slot counts, laying out a buffer, initializing a header and attaching to it |
| `VfTxRing.dfy`, `TxInterleaving.dfy` | the VF transmit ring: as sequential calls under arbitrary writeback values, and with transmitter, cleaner and hardware interleaved |
| `PfTxRing.dfy` | the PF transmit ring with batched doorbells |
| `VfRxRing.dfy`, `VfRxHistory.dfy` | the VF receive ring: the code, and its runs against hardware that posts completions |
| `QueueContexts.dfy` | setting up and tearing down a hardware queue, with rollback |
| `Messages.dfy` | mailbox messages, the requests the VF builds, the checks it makes of an answer |
| `PfDriver.dfy`, `QueueOwnership.dfy` | the PF's VF table, request checks and SR-IOV calls; what every run of them keeps |
| `MailboxProtocol.dfy` | the VF's two threads, the two channels and the PF's worker, interleaved |
| `VfMailbox.dfy` | the VF's side of it as code, with everyone else acting in between |
| `Lifecycle.dfy` | bringing a VF interface up and down |
| `RegisterFields.dfy` | bit fields of registers and descriptors |

Code that changes state step by step is a class or a method with its loops, proved against a
specification function; the functions are then reasoned about over whole runs. Protocols between
concurrent parties are state machines over their atomic steps.

What the environment decides is a parameter: memory allocation, page allocation, DMA mapping, which
context command times out and whether it took effect, what the PCI core reports, in
`Lifecycle.dfy` which mailbox command returns 0 and what it did, the value of a writeback word, random
addresses and the first sequence number.

Assumptions:

* One worker at a time handles the PF's mailbox. `onic_lib.c` has two callers without a lock between them.
* Checking the answer in `mbox_resp` is one step, and so is copying a message out of or into the
  mailbox registers. The inbox register keeps showing the last message delivered.
* The pending bit of an outbox stays set until the receiver acknowledges; the channel of a VF starts
  empty, and the VF driver is loaded once.
* The PF has its QDMA handle. Context invalidation and clearing a function-map entry succeed; the
  source ignores their results.
* In `TxInterleaving.dfy`, `PfTxRing.dfy` and `VfRxHistory.dfy` the hardware is well behaved: it consumes
  no more than the doorbell announced, writes back positions it has reached, and posts completions in
  order into slots it has credit for. `VfTxRing.dfy` assumes nothing about the writeback value.
* The page pool returns only pages nobody owns.

Where the code does not keep what one might expect, the model follows the code and gives the exact
condition; named beside it is an input or a run that shows it:

* The 32-bit length accumulator of the slot-count search can wrap: `XgqLayout.NumSlotsExact` says when it
  misleads, `HugeSlotsMislead` is an input.
* A `max_slots` that cuts a group to a count that is not a power of two, although a comment calls it an
  optimization limit only, makes slots share their places and every attach fail: `XgqLayout.GroupSlotsDistinct`
  and `GroupAttach`, with `ThreeSlotGroup` as the input.
* VF queue ranges can run into the next PF's: `QueueOwnership.ReachesNextPf`, with `FullPfOverlapsNext`.
* A failed open can leave queue contexts set up whose rings it has freed: those set up before the failure
  whose clear was not carried out, and that of the queue that failed if its command returned an error and was
  carried out all the same. `Lifecycle.VfNetdev.Open` gives the contexts in every case, `LeftByFailedOpen` which
  are left over, `NothingLeftByFailedOpen` when none is, and `FailedOpenLeavesContext` a run. That a command can
  return an error and be carried out is `MailboxProtocol.TimedOutYetCarriedOut` and `UnheardSetupStands`.
* Rings retained by a failed stop are lost when the next open allocates into their slots: `Lifecycle.AllocationLeaks`,
  with `RetainedRingIsLost`.
* `VfRxRing.AllocRxRing` returns 0 without a ring, exactly when every page was found and the
  completion ring cannot be allocated.

## Model

| member | source | states |
|---|---|---|
| XgqRing.RingSide.Produce | hwmon/xgq_impl.h:544-557 | the producer's new counters and the granted slot address are those of the wrapped, cached test |
| XgqRing.RingSide.Consume | hwmon/xgq_impl.h:559-586 | the same for the consumer |
| XgqRing.RingSide.NotifyProduced | hwmon/xgq_impl.h:588-596 | publishes the producer's counter and touches nothing else |
| XgqRing.RingSide.NotifyConsumed | hwmon/xgq_impl.h:598-605 | publishes the consumer's counter and touches nothing else |
| XgqRing.RingSide.FastForward | hwmon/xgq_impl.h:344-352 | a peer that attaches continues from the shared words |
| XgqRing.RingSide.SoftReset | hwmon/xgq_impl.h:354-359 | both private and shared counters end at the published producer counter |
| XgqRing.StepRefines | hwmon/xgq_impl.h:242-339 | every operation, cached counters and reattachments included, is the bounded FIFO's operation and shows the same result |
| XgqRing.RunRefines | hwmon/xgq_impl.h:242-339 | any interleaving of the two peers, over any number of counter wraps, looks like a bounded FIFO |
| XgqRing.IdleRefinesNewFifo | hwmon/xgq_impl.h:354-359 | after a reset, whatever the counters then are, the ring is an empty FIFO |
| XgqRing.GrantedSlotIsFree | hwmon/xgq_impl.h:313-325 | a granted slot is none the consumer has not released and no other unpublished one |
| XgqRing.StaleCachesAreInvisible | hwmon/xgq_impl.h:313-339 | an operation fails exactly when the ring is really full or empty, whatever the caches say |
| XgqRing.DeliveredOnceInOrder | hwmon/xgq_impl.h:559-605 | published entries are taken once each in publication order |
| XgqRing.OnlyPublishedIsDelivered | hwmon/xgq_impl.h:559-586 | with either side reattaching at any point, what is taken at a position is what was published there |
| XgqRing.NothingIsSkipped | hwmon/xgq_impl.h:559-586 | every position below the consumer's was delivered |
| XgqRing.TakenInPublicationOrder | hwmon/xgq_impl.h:559-605 | on the 32-bit ring itself, over every run, the values got from the slots are the published ones, once each and in publication order |
| XgqRing.GotWasPublished | hwmon/xgq_impl.h:559-586 | with reattachments, what is got from a slot is what was published at the position the slot stands for |
| XgqRing.EveryPositionWasGot | hwmon/xgq_impl.h:559-586 | and every position below the consumer's final one was got from its slot |
| XgqLayout.TotalLength32 | hwmon/xgq_impl.h:416-422 | the accumulated length is the true one modulo 2^32 |
| XgqLayout.AllocNumSlots | hwmon/xgq_impl.h:412-426 | the power of two the doubling loop stops at |
| XgqLayout.TotalDoubles | hwmon/xgq_impl.h:206-209 | doubling the slots at most doubles the length |
| XgqLayout.LargestFitExists | hwmon/xgq_impl.h:412-426 | for every buffer length and size list there is a largest power of two that fits, at most 2^30 |
| XgqLayout.NumSlotsExact | hwmon/xgq_impl.h:412-426 | the result is the largest slot count that fits if and only if the first layout too long still looks too long in 32 bits; otherwise it does not fit |
| XgqLayout.NumSlotsBelow2G | hwmon/xgq_impl.h:412-426 | below 2 GiB, with a two-slot layout below 4 GiB, it always is the largest that fits |
| XgqLayout.NumSlotsIsLargest | hwmon/xgq_impl.h:412-426 | so under those bounds the result itself is that count, with no further hypothesis |
| XgqLayout.HugeSlotsMislead | hwmon/xgq_impl.h:412-426 | an input on which the accumulator misleads: 2^30 slots for a 100-byte buffer |
| XgqLayout.PartsInsideRegion | hwmon/xgq_impl.h:361-410 | every header, SQ slot and CQ slot of a group is inside the group's length |
| XgqLayout.PartsDisjoint | hwmon/xgq_impl.h:361-410 | no two of them overlap |
| XgqLayout.SlotAddressIsPart | hwmon/xgq_impl.h:291-311 | the 32-bit slot offset product never overflows in a ring below 4 GiB, so slot pointers are where the layout says |
| XgqLayout.Device.CopyToRing | hwmon/xgq_impl.h:211-218 | word by word, exactly these words change |
| XgqLayout.Device.CopyFromRing | hwmon/xgq_impl.h:220-227 | the words read are those in memory |
| XgqLayout.Init | hwmon/xgq_impl.h:361-410 | its fourteen writes in order; header contents; the whole queue returned: flags, address, both geometries, and counters equal to the shared words, both rings empty; nothing outside written |
| XgqLayout.Attach | hwmon/xgq_impl.h:497-542 | the three refusals in their order and the queue found, as a function of memory that the next three rows characterize |
| XgqLayout.AttachRefusals | hwmon/xgq_impl.h:503-515 | exactly when each of the three errors is returned, on the first three words in memory |
| XgqLayout.AttachFollowsHeader | hwmon/xgq_impl.h:517-541 | a queue attached to has the places, sizes, flags and counters the words in memory say |
| XgqLayout.UnfinishedRingIsRefused | hwmon/xgq_impl.h:391-410 | the handshake: every attach between the first and the last write of an initialization is told to try again, and none after the last |
| XgqLayout.AttachAfterInit | hwmon/xgq_impl.h:497-542 | attaching after initializing succeeds exactly for power-of-two slot counts, is refused with EPROTO otherwise, and then finds the allocator's queue: geometries, counters, and flags but for the double-read one |
| XgqLayout.Alloc | hwmon/xgq_impl.h:443-463 | errors exactly as in the source, memory untouched on error; on success the whole queue and the memory as `Init` leaves them |
| XgqLayout.GroupAlloc | hwmon/xgq_impl.h:465-495 | errors as in the source, memory untouched then; on success all headers in place, every queue with its flags, geometry and counters, the rings consecutive, nothing outside written |
| XgqLayout.GroupAttach | hwmon/xgq_impl.h:465-542 | every member of a group can be attached to exactly when the slot count is a power of two, else EPROTO; the queue found is the one allocated |
| XgqLayout.AttachedQueueIsFifo | hwmon/xgq_impl.h:443-542 | after allocating and attaching, both rings of the queue, whichever peer produces, behave over every run as new bounded FIFOs |
| XgqLayout.GroupFits | hwmon/xgq_impl.h:465-495 | a successful group allocation fits its buffer (below 2 GiB) |
| XgqLayout.SlotsDistinctIffPowerOfTwo | hwmon/xgq_impl.h:291-311 | masking gives slots distinct places if and only if their number is a power of two |
| XgqLayout.GroupSlotsDistinct | hwmon/xgq_impl.h:485-486 | the slots of a group have distinct places if and only if `max_slots` is 0, does not cut, or is a power of two |
| XgqLayout.ThreeSlotGroup | hwmon/xgq_impl.h:465-542 | a group allocated with `max_slots` 3 whose slots 0 and 1 are one place and whose attach is refused |
| VfTxRing.TxQueue.Clean | onic_vf_qdma.c:275-331 | for every writeback value a prefix of the pending packets is freed, oldest first; where next_to_clean ends and how many are freed |
| VfTxRing.CleanLeavesTheRest | onic_vf_qdma.c:289-326 | what a clean leaves pending are the packets at or after the index it read, or none if that is outside the window or the ring |
| VfTxRing.TxQueue.Xmit | onic_vf_netdev.c:264-348 | when a packet is sent, dropped or refused, from the two writeback values; the exact ring, doorbell and queue afterwards; the descriptor announced has this packet's address and length, and no other descriptor changes |
| VfTxRing.TxQueue.PendingIsDescribed | onic_vf_netdev.c:317-329 | at every moment each pending packet lies in its slot before next_to_use, and the descriptor there has its address and length |
| VfTxRing.TxQueue.ReleasePending | onic_vf_qdma.c:333-356 | at teardown every packet queued has been freed exactly as often as it was queued |
| VfTxRing.CleanStep | onic_vf_qdma.c:296-326 | one cleaning step meets the oldest pending packet or an empty slot, and keeps occupied slots inside the window |
| VfTxRing.PutStep | onic_vf_netdev.c:196-212 | a ring that is not full has an empty slot at the head, so no packet is overwritten |
| VfTxRing.CollectIsPending | onic_vf_qdma.c:338-355 | what the teardown loop finds is exactly what is pending |
| TxInterleaving.StepKeepsInv | onic_vf_qdma.c:275-331 | every step of transmitter, cleaner and hardware keeps cleaned <= target <= written back <= consumed <= announced <= stored < cleaned + ring |
| TxInterleaving.FreedOnceInOrderAfterUse | onic_vf_netdev.c:302-348 | in every interleaving packets are freed once, in order, only after the hardware consumed them |
| TxInterleaving.CleaningPassCompletes | onic_vf_qdma.c:289-330 | a pass left alone frees everything up to the position it read and releases the ring |
| TxInterleaving.PassFreesWhatWasWritten | onic_vf_qdma.c:275-331 | a pass begun and left alone frees everything that had been written back when it began |
| TxInterleaving.TransmitCompletes | onic_vf_netdev.c:302-348 | a transmit that finds room stores and announces the next packet; otherwise nothing changes |
| PfTxRing.PfTxQueue.Clean | onic_netdev.c:65-131 | unless another thread is cleaning, frees exactly what was written back, oldest first |
| PfTxRing.PfTxQueue.Xmit | onic_netdev.c:1036-1106 | outcome, queue contents, the descriptor with this packet's address and length, and the doorbell rung exactly when the ring became full or no packet follows |
| PfTxRing.PfTxQueue.FullRingIsAnnounced | onic_netdev.c:1090-1103 | a full ring is always completely announced, so batching cannot leave hardware ignorant of a full ring |
| PfTxRing.CleanWorkIsDistance | onic_netdev.c:65-90 | the work count computed from two ring indices is the distance of the positions |
| VfRxRing.RxQueue.Poll | onic_vf_qdma.c:376-467 | a poll delivers what the polling function says, stops where it says, and rearms exactly when it did less than its budget |
| VfRxRing.RxQueue.Take | onic_vf_qdma.c:416-455 | one accepted completion: page swapped, descriptor rewritten, both rings and the colour advanced, and when credit runs low both next_to_use and the doorbell moved on |
| VfRxRing.RxQueue.FreePages | onic_vf_qdma.c:852-874 | teardown returns the page of every slot that has one, in slot order, and empties the slots |
| VfRxRing.RxQueue.Start | onic_vf_qdma.c:807-813 | the first batch of credit and the armed completion tail |
| VfRxRing.AllocRxRing | onic_vf_qdma.c:901-996 | pages are in slots or returned; 0 without a ring exactly when the completion ring is missing |
| VfRxHistory.ColorTellsPosted | onic_vf_qdma.c:396-409 | the colour bit alone tells whether the next completion has been written |
| VfRxHistory.StaleEntryRejected | onic_vf_qdma.c:396-409 | a stale entry or initial zeros change nothing, whatever index was published |
| VfRxHistory.PublishedEntryTaken | onic_vf_qdma.c:391-421 | with a published index the modular test is exact and every good entry is taken |
| VfRxHistory.DeliveredOnceInOrder | onic_vf_qdma.c:376-467 | over any polls, budgets and breaks each completion is delivered once, in order, in its own page; indices equal; colour is the parity of wraps |
| VfRxHistory.CreditsBounded | onic_vf_qdma.c:358-374 | advertised minus cleaned stays in 128..383, below the ring size |
| VfRxHistory.CreditIsAnnounced | onic_vf_qdma.c:358-374 | at every moment the doorbell shows the whole credit: from it and the descriptors it has used the hardware finds how many are left |
| VfRxHistory.PagesOwned | onic_vf_qdma.c:416-444 | slot pages are distinct, none is inside a packet, and descriptors match their pages |
| VfRxHistory.PollIsItsRounds | onic_vf_qdma.c:391-456 | a whole poll is the run of its rounds, so the run results hold of polls |
| VfRxHistory.PollTakesWhatIsPublished | onic_vf_qdma.c:391-459 | a poll delivers the next completions until its budget is used up, it has caught up with the published index, or it meets a bad completion or an empty pool, and stops nowhere else |
| VfRxHistory.AllocatedQueueOpens | onic_vf_qdma.c:940-977 | a queue as allocated and started satisfies what the run results need |
| VfRxHistory.TeardownReturnsEach | onic_vf_qdma.c:852-874 | after any run, what teardown returns is one page for each slot, none twice, none inside a packet |
| QueueContexts.QdmaHw.InitTxQueue | onic_hardware.c:360-409 | all contexts installed or, whichever command timed out, all gone; no other context touched |
| QueueContexts.QdmaHw.InitRxQueue | onic_hardware.c:411-493 | the same for a receive queue with prefetch and completion contexts |
| QueueContexts.QdmaHw.ClearTxQueue | onic_hardware.c:495-506 | exactly the queue's transmit contexts are gone |
| QueueContexts.QdmaHw.ClearRxQueue | onic_hardware.c:508-521 | exactly the queue's receive contexts are gone |
| QueueContexts.OthersUntouched | onic_hardware.c:360-521 | setting up or tearing down one queue leaves every other queue's contexts as they were |
| Messages.DmaAddrRoundTrip | onic_mbox.c:93-96 | an address sent as two halves is rebuilt exactly |
| Messages.CfgRoundTrip | onic_mbox.h:38-51 | a configuration request is read back from the message as it was written |
| Messages.AcceptedEchoes | onic_vf_mbox.c:210-228 | the VF accepts a message exactly when it is the reply to its request, with its number, success, and the queue and direction asked for, or 1 to 64 queues |
| PfDriver.PfDevice.FindVfResource | onic_mbox.c:38-51 | the search loop finds the first enabled entry of the function among the active VFs |
| PfDriver.PfDevice.ConfigQueue | onic_mbox.c:125-202 | answer and new contexts for every request, rejected or not; which are rejected: `QueueOwnership.AdmittedExactly` |
| PfDriver.PfDevice.ClearQueue | onic_mbox.c:204-239 | answer and new contexts for every request; which are rejected: `QueueOwnership.AdmittedExactly` |
| PfDriver.PfDevice.ProcessRequest | onic_mbox.c:273-300 | the same over all opcodes |
| PfDriver.PfDevice.FreeVfResources | onic_sriov.c:114-152 | table, function map and contexts after freeing |
| PfDriver.PfDevice.ConfigVfResources | onic_sriov.c:57-111 | table and function map after enabling, or after the rollback of a failed write |
| PfDriver.PfDevice.Configure | onic_sriov.c:14-54 | the whole call, every refusal and rollback included |
| QueueOwnership.StepKeepsInv | onic_sriov.c:57-152 | every request and SR-IOV call keeps each table entry blank or its own fixed range, and the function map within the table |
| QueueOwnership.OwnersAreUnique | onic_sriov.c:67-105 | no queue belongs to two functions, and none of the PF's to a VF |
| QueueOwnership.ReachesNextPf | onic_hardware.c:251-258 | VF ranges run into the next PF's range if and only if its own queues and theirs exceed the stride of 64 |
| QueueOwnership.FullPfOverlapsNext | onic_sriov.c:67-105 | a PF with 64 queues of its own gives the first VF it enables the next PF's first queue |
| QueueOwnership.RequestStaysInRange | onic_mbox.c:98-239 | whatever a request says, it changes only contexts of queues its sender owns, and nothing else of the PF |
| QueueOwnership.AdmittedExactly | onic_mbox.c:98-239 | exactly which of all messages pass, on their words: those of an enabled VF, of a known kind and its length, with every word in its range |
| QueueOwnership.EveryRequestIsAnswered | onic_mbox.c:241-300 | every message is answered with its number and its reply opcode, echoing queue and direction, with success exactly when it was admitted and carried out; one not admitted changes nothing |
| QueueOwnership.TxInstalledAsAsked | onic_mbox.c:125-162 | the transmit contexts set up, word by word of the request |
| QueueOwnership.RxInstalledAsAsked | onic_mbox.c:125-193 | the receive, prefetch and completion contexts set up, word by word of the request |
| QueueOwnership.FailedSetupLeavesNone | onic_hardware.c:360-493 | a setup one of whose context commands timed out leaves the queue without contexts and all others as they were |
| QueueOwnership.ClearRequestPasses | onic_mbox.c:204-239 | a VF's clear passes if and only if the queue is one of its own, and is about that queue in its direction |
| QueueOwnership.ClearTakesEffect | onic_mbox.c:204-239 | then exactly that queue's contexts are gone and the VF accepts the answer |
| QueueOwnership.CheckedTarget | onic_mbox.c:98-123 | a request that passes the checks works on the sender's queue of that number and direction |
| QueueOwnership.AcceptedMeansDone | onic_mbox.c:125-239 | the VF accepts the answer if and only if the request passed the checks and was carried out; otherwise nothing changed or the queue is torn down |
| QueueOwnership.ResourcesReported | onic_mbox.c:53-78 | a resource request is answered with the sender's own entry, and accepted |
| QueueOwnership.TxRequestPasses | onic_vf_qdma.c:570-591 | every transmit request of an active queue passes all checks exactly when its address is non-zero and aligned, and arrives intact |
| QueueOwnership.RxRequestPasses | onic_vf_qdma.c:656-680 | the same for receive requests with their two addresses |
| QueueOwnership.TxSetupInstalls | onic_vf_qdma.c:570-591 | so after a VF's transmit setup the queue's context has the VF's function, ring address and vector |
| QueueOwnership.RxSetupInstalls | onic_vf_qdma.c:656-680 | and after its receive setup both addresses, the vector, and the driver's fixed settings |
| QueueOwnership.DisableReleasesExactly | onic_sriov.c:114-152 | disabling takes away exactly the freed VFs' contexts, table and map entries, and makes all others unreachable |
| QueueOwnership.EnableAllOrNothing | onic_sriov.c:14-111 | from a state without VFs, enabling either enables exactly what was asked or leaves table and map unchanged; both directions of when it fails |
| QueueOwnership.EnableOverwrites | onic_sriov.c:57-111 | enabling over enabled VFs rewrites the first entries and leaves the others and all contexts |
| QueueOwnership.RefusedCallChangesNothing | onic_sriov.c:19-36 | disabling while a VF is assigned, and enabling by no master or with no valid number, fails and changes nothing |
| QueueOwnership.QueuePersists | onic_mbox.c:125-239 | over any run without the owner's own command on a queue and without a release, the queue's contexts stay |
| QueueOwnership.AcknowledgedStatePersists | onic_mbox.c:125-239 | an acknowledged setup or clear stays in effect until the VF's next command on that queue or a release |
| MailboxProtocol.StepKeepsInv | onic_vf_mbox.c:152-228 | every step of both VF threads, the PF worker and everyone else keeps the protocol invariant |
| MailboxProtocol.AcceptedIsOwnAnswer | onic_vf_mbox.c:210-223 | an accepted answer is the PF's answer to this very command; late answers are refused, across the wrap of the sequence number |
| MailboxProtocol.VerdictIsExact | onic_vf_mbox.c:210-228 | looking at an answer, the VF returns 0 if and only if the PF carried out this command; on its own answer a queue command fails only with -EIO |
| MailboxProtocol.OnlyTheNewestTakesEffect | onic_mbox.c:280-306 | whatever the PF executes is the VF's newest command, so no earlier, timed-out one can take effect after it was sent |
| MailboxProtocol.ExactlyOnceInOrder | onic_mbox.c:241-306 | in every run requests are executed once each in the order sent, all but possibly the newest, and 0 is returned only for one carried out |
| MailboxProtocol.CommandCompletes | onic_vf_mbox.c:164-228 | with free channels and an answering PF a command goes through, by interrupt or by the fallback after the timeout, and returns 0 if and only if the PF carried it out |
| MailboxProtocol.StaleAnswerDoesNotBlock | onic_vf_mbox.c:129-228 | an answer left in the inbox is dropped, and the command goes through as with free channels |
| MailboxProtocol.CallAfterTimeoutCompletes | onic_vf_mbox.c:129-228 | so a call after a timed-out one whose answer came too late goes through |
| MailboxProtocol.NeverFlooded | onic_vf_mbox.c:129-150 | in every run, no drain drops more than two answers, so the limit of sixteen and its -EIO are never reached |
| MailboxProtocol.AcknowledgedQueuesPersist | onic_vf_mbox.c:152-259 | in every run, a queue whose command returned 0 is in the state asked for as long as no further command on it was sent and no VF was released |
| MailboxProtocol.TimedOutYetCarriedOut | onic_vf_mbox.c:184-208 | for every command there are runs in which the call returns -ETIMEDOUT and the PF carries the request out, before the timeout or after the return |
| MailboxProtocol.UnheardSetupStands | onic_vf_mbox.c:184-208 | then the queue is in the state the command asked for although the call did not return 0 |
| VfMailbox.CommandThread.DropStale | onic_vf_mbox.c:129-150 | for every behaviour of the others, gives up with -EIO if and only if a message was there at all sixteen looks, which happens in no run of the protocol; otherwise ends at the look at the outbox; sends nothing |
| VfMailbox.CommandThread.ProcessOne | onic_vf_mbox.c:40-57 | with the interrupt thread and the PF acting between its accesses it is a run of the protocol; finds a message or gives up |
| VfMailbox.CommandThread.AwaitAnswer | onic_vf_mbox.c:184-208 | completion, timeout and the look into the inbox after it |
| VfMailbox.CommandThread.SendCommand | onic_vf_mbox.c:152-228 | whatever the others do, a call is a run of the protocol and releases the lock; it never fails for stale answers; a number is used exactly when the request was sent; 0 means that the PF carried out this very command |
| VfMailbox.OthersUndisturbed | onic_vf_mbox.c:164-228 | no one else moves the command thread, its numbering, or fills its outbox |
| Lifecycle.VfNetdev.Open | onic_vf_netdev.c:61-107 | 0 if and only if all steps succeed; then every queue has a ring, a context and NAPI; otherwise no queue object is left; exactly when rings leak; in every case exactly which contexts are acknowledged and which are really there |
| Lifecycle.LeftByFailedOpen | onic_vf_netdev.c:61-107 | a queue has a context after a failed open if and only if it was set up before the failure and its clear did not take effect, or it is the one that failed and its command took effect unheard |
| Lifecycle.NothingLeftByFailedOpen | onic_vf_qdma.c:549-633 | a failed open leaves no context if and only if every rollback clear was carried out and the failing command was not |
| Lifecycle.FailedOpenLeavesContext | onic_vf_netdev.c:61-107 | a run of open that fails, frees its ring and leaves the queue's context set up, unacknowledged |
| Lifecycle.RetainedRingIsLost | onic_vf_netdev.c:61-143 | open, a stop with one clear not acknowledged, and open again: all as specified, and a ring is lost |
| Lifecycle.VfNetdev.Stop | onic_vf_netdev.c:112-143 | rings are freed only after every attempted clear was acknowledged; otherwise no ring is freed and exactly the unacknowledged bits among those attempted stay set; in every case exactly which contexts are gone |
| Lifecycle.VfNetdev.RingsInit | onic_vf_qdma.c:998-1026 | allocation with rollback, and what it does to rings already there |
| Lifecycle.VfNetdev.RingsClear | onic_vf_qdma.c:1028-1041 | all slots empty, exactly the rings in them freed |
| Lifecycle.VfNetdev.ContextsInit | onic_vf_qdma.c:617-633 | succeeds if and only if every queue is configurable and acknowledged; after success or failure exactly which contexts are acknowledged and which are really there |
| Lifecycle.VfNetdev.ContextsClear | onic_vf_qdma.c:602-615 | one clear for each configured queue, in order, and the bits of the acknowledged ones cleared |
| Lifecycle.VfNetdev.DatapathInit | onic_vf_qdma.c:790-825 | NAPI on everywhere if every queue is configured, else off everywhere |
| Lifecycle.ClearCallsRevoke | onic_vf_qdma.c:549-568 | clearing takes away exactly the contexts of configured queues whose clear was acknowledged, or, for what is really there, carried out |
| Lifecycle.RetryAsksTheRest | onic_vf_qdma.c:549-568 | clearing again asks for exactly the queues not acknowledged the first time |
| Lifecycle.AllocationLeaks | onic_vf_qdma.c:507-540 | opening leaks a ring if and only if a slot it fills still held one or one was lost before |
| RegisterFields.GetTrailingZeros | onic_common.h:30-60 | the halving steps find the number of times 2 divides the mask, for every 64-bit mask; 63 for zero |
| RegisterFields.TrailingZerosExact | onic_common.h:23-29 | that number is the position of the lowest set bit, and no other is |
| RegisterFields.FieldsRecovered | onic_common.h:62-64 | for any disjoint masks, reading a field gives what of its value the field has room for |
| RegisterFields.PartsRecovered | onic_common.h:62-64 | for contiguous fields that do not overlap, the value comes back if and only if it is narrow enough |
| RegisterFields.ReadIsDivMod | onic_common.h:62-64 | reading bits hi down to lo of any word is dividing by 2^lo and taking the remainder |
| RegisterFields.CompletionIndexRead | onic_hardware.c:573-594 | the completion-index register fits 32 bits and shows the tail, and each setting exactly when it fits |
| RegisterFields.CompletionTailWord | onic_vf_qdma.c:242-262 | the number written to the completion-index register for a tail and an arm bit |
| RegisterFields.QueueMapRead | onic_hardware.c:266-269 | the shell's function map register shows base and count as written |
| RegisterFields.QueueMapWord | onic_hardware.c:266-269 | the number written: base in the upper half, count in the lower |
| RegisterFields.WbStatRoundTrip | qdma_access/qdma_export.c:48-59 | the writeback status is read as hardware wrote it, whatever the unused bits hold |
| RegisterFields.WbStatPlaces | qdma_access/qdma_export.c:48-59 | where in any writeback word the two indices are |
| RegisterFields.CompletionRoundTrip | qdma_access/qdma_export.c:61-74 | the same for a completion entry |
| RegisterFields.CompletionPlaces | qdma_access/qdma_export.c:61-74 | where in any completion entry its parts are |
| RegisterFields.CompletionStatRoundTrip | qdma_access/qdma_export.c:76-90 | the same for the completion ring's status |
| RegisterFields.CompletionStatPlaces | qdma_access/qdma_export.c:76-90 | where in any completion status its parts are |
| RegisterFields.DescriptorPacked | qdma_access/qdma_export.c:20-34 | the first quadword of a transmit descriptor: length above metadata, nothing else |

## Left out

- The PF worker's and the interrupt thread's steps are functions of the protocol state; only the VF's command thread and the PF's request handling are also written as code.
- QueueOwnership.DisableReleasesExactly: contexts of VFs beyond the number the PCI core reports are not released, as in the source.
- VfRxHistory.CreditsBounded: needs a ring of at least 384 descriptors; the source uses 1023.
- XgqLayout.GroupFits: only for buffers below 2 GiB whose two-slot layout is below 4 GiB; beyond that `NumSlotsExact` says when the length is right.
- PfTxRing.PfTxQueue.Xmit: without padding, whose failure the source only logs before it goes on.
- Liveness: nothing says that an answer ever comes or that a ring ever drains without its parties taking steps.
- Loading the VF driver again while an answer of the previous load is under way, and dropping stale requests when the PF's interrupt is set up.
- Racing SR-IOV calls and mailbox requests inside one call: each is one step.
- The PF's receive poll, XDP, and transmit buffers of other types than packets.
- XGQ access through I/O handles, out-of-order write spinning, and the double-read workaround; addresses are unbounded instead of 64-bit.
- Statistics counters, log messages, carrier and queue start/stop, delayed work scheduling, interrupt registration, and probing.
- The global CSR setup, CMAC bring-up, indirection table, and the packing of the indirect context commands; `qdma_access` register tables are not part of this model.
- The sensor controller and debug trace under `hwmon/`, apart from the XGQ queue: reference counts and tables.
