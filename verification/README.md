# A verified model of sandbox-ipc

The project models the parts of sandbox-ipc in which several processes meet, and proves what they promise.

- **The shared-memory ring queue.** Any number of producers and consumers act on four counters, a poison flag and
  the slots. `SharedQueue` is a transition system whose steps are the single atomic operations of the code: an agent
  (one call and the guard it may return) claims an index, tests it, gives it back or gets a guard, writes its slot
  byte by byte, drops the guard, stores poison, and commits. Loads and compare-exchanges are separate steps, so an
  agent acts on stale values; compare-exchanges may fail spuriously. Tests and increments are in wrapping 64-bit
  arithmetic. `try_push` and `try_pop` mirror each other, so each step serves both roles. `SharedQueueInvariant`,
  `SharedQueueRuns`, `SharedQueueProgress` and `SharedQueueRounds` prove, for every interleaving: exact ownership of indices, slot
  exclusion, refinement of a bounded FIFO, what consumers see, the meaning of the poison verdict, and progress: under
  fair scheduling effective steps, and calls that come to an end, are bounded from below whatever new calls arrive, and
  once calls stop every agent leaves. `QueueMemory` is the code as classes over the bytes of a mapping; the state that
  each method leads to is proved to be the one that steps of the transition system lead to.
- **The thin lock of Windows with the poison layer.** `ThinLock` is again a transition system over any number of
  threads, with a class whose methods are its atomic operations. A token invariant gives mutual exclusion, no lost
  wakeup and no error branch; every step of a thread uses up a measure, so once arrivals stop every schedule ends, with all
  threads served.
- **Datagrams and handle passing.** `Datagram` has the sink and stream class over its buffers and proves exactly-once,
  ordered delivery over whole runs. `HandleTable`, `ControlMessage` and `UnixGuards` cover descriptors on Unix from one
  end of a channel to the other, where they arrive under other numbers; `HandleGuards` covers nested guards on Windows and conserves every handle.
- **Layout and attaching.** `Layout` proves the mask arithmetic equal to rounding up and the slots disjoint; `Attach`
  says when a handle can be resolved in another mapping.

Seven properties that one might expect do not hold of the code as it is, and the project says exactly when they do, or
what holds instead:

- a claiming loop does not make progress in every fair round: a round can go by idle iff all agents are waiting calls
  of one side and one more call of that side can begin (`SharedQueueRounds.FairRoundCanFailIff`, with
  `SharedQueueProgress.NewcomerUndoesRound` as an instance); over more rounds than agents could still join it does make
  progress (`SharedQueueProgress.ContendedProgress`);
- an attach to a mutex that races with a panicking drop leaves the lock poisoned by a drop older than the attach
  (`ThinLock.AttachRace`, `ThinLock.VerdictAsDocumented`);
- a transport that takes a message in part makes the sink send a datagram too many (`Datagram.ShortWriteSendsTwice`,
  `Datagram.SendingExactIff`);
- a message with an empty encoding is accepted and sent, and then read as the end of the stream
  (`Datagram.DeliveredIffNonEmpty`);
- reads between preparing a message and writing it change the descriptors that the write transmits
  (`ControlMessage.FailedReadSendsStale`, `ControlMessage.WriteAfterReads`);
- a message that brings no descriptors is read with those that an earlier message left behind
  (`ControlMessage.StaleDescriptorFound`, `ControlMessage.ReadFindsArrived`, `ControlMessage.RefusalExactIff`);
- the containment test for attaching a queue compares the starting offset the wrong way round
  (`Attach.QueueTestWrong`, `Attach.QueueTestRightIff`).

What the environment decides is a parameter: which events happen, which compare-exchange fails, what a transport, a
duplication of a handle or a message codec answers.

## Model

| member | source | states |
|---|---|---|
| `SharedQueue.InitialInv` | src/shm/queue.rs:71-77 | the state that new_with_memory sets up, with counters at -1 stored as usize::MAX, satisfies the ownership invariant |
| `SharedQueue.ClaimsBounded` | src/shm/queue.rs:136-170 | next_send_index runs at most item_count + agents ahead of the receive count, next_recv_index at most agents ahead |
| `SharedQueue.TestsExact` | src/shm/queue.rs:146 | in every state that satisfies the invariant the wrapping fullness and emptiness tests and the expected values of all compare-exchanges decide the comparison of unbounded indices they stand for, sentinels included |
| `SharedQueue.SendTestExact` | src/shm/queue.rs:144-148 | the fullness test in wrapping arithmetic equals the plain comparison while the distance fits a signed word |
| `SharedQueue.RecvTestExact` | src/shm/queue.rs:193-195 | the same for the emptiness test |
| `SharedQueue.ExecConcat` | src/shm/queue.rs:134-297 | runs compose |
| `SharedQueueInvariant.ClaimKeepsInv` | src/shm/queue.rs:136 | a fetch-add hands out an index nobody owns |
| `SharedQueueInvariant.GiveBackKeepsInv` | src/shm/queue.rs:150-151 | a give-back that succeeds removes the caller's own top index and leaves no hole, even when indices are issued again |
| `SharedQueueInvariant.CommitKeepsInv` | src/shm/queue.rs:261-269 | a commit that succeeds finishes exactly the lowest unfinished index of its role |
| `SharedQueueInvariant.StepKeepsInv` | src/shm/queue.rs:134-297 | every step keeps: R <= S <= R + N, owned indices are exactly [S, next_send) and [R, next_recv), one owner each, cleared indices below their limit |
| `SharedQueueInvariant.RunKeepsInv` | src/shm/queue.rs:134-297 | the invariant holds in every reachable state, for any number of agents and any interleaving |
| `SharedQueueInvariant.SlotExclusion` | src/shm/queue.rs:172-180 | no two live guards, of whatever roles, refer to the same slot |
| `SharedQueueInvariant.LiveWindow` | src/shm/queue.rs:141-148 | live push guards lie in [S, R + N), live pop guards in [R, S) |
| `SharedQueueInvariant.OwnershipExact` | src/shm/queue.rs:153-163 | the agents of a role number exactly its claimed, unfinished indices |
| `SharedQueueRuns.StepRefinesFifo` | src/shm/queue.rs:254-297 | every step is invisible, an enqueue at the tail or a dequeue at the head of a queue of at most item_count items |
| `SharedQueueRuns.HeldSlotNotPending` | src/shm/queue.rs:172-180 | whatever a producer does to its slot, no committed and unread item changes |
| `SharedQueueRuns.RunRefinesFifo` | src/shm/queue.rs:134-297 | over any run between reachable states: pending before, then enqueued, equals dequeued, then pending after |
| `SharedQueueRuns.FinishedCounts` | src/shm/queue.rs:260-269 | the number of items finished in a run is the movement of the last counter |
| `SharedQueueRuns.FifoFromStart` | src/shm/queue.rs:134-297 | from the start, what was popped is a prefix of what was pushed, at most item_count items behind |
| `SharedQueueRuns.ConsumerSeesCommitted` | src/shm/queue.rs:220-228 | a consumer that holds index k sees the item that producer k committed, at every point until it gives the slot up |
| `SharedQueueRuns.GuardOwnsSlot` | src/shm/queue.rs:172-180 | while a guard lives, its slot changes by its own writes only, in any interleaving |
| `SharedQueueRuns.PoisonSticks` | src/shm/queue.rs:257-259 | the poison flag never goes back |
| `SharedQueueRuns.PanicsPublished` | src/shm/queue.rs:257-269 | a panicking drop has set the flag, or is still about to and has not committed |
| `SharedQueueRuns.PoisonHasCause` | src/shm/queue.rs:257-259 | the flag is set only if some guard was dropped while panicking |
| `SharedQueueRuns.PoisonVerdict` | src/shm/queue.rs:230-234 | Ok with index k means every producer up to k dropped its guard without panicking; Err means some guard was dropped while panicking |
| `SharedQueueRuns.ProgramOrder` | src/shm/queue.rs:134-297 | in every run every agent goes through the steps of its call and of its guard's drop in the order of the code, and skips none; try_pop never returns a guard without loading the flag |
| `SharedQueueRuns.GuardVerdict` | src/shm/queue.rs:220-234 | for a pop guard that is held: its call loaded the flag, and what it found then says what the verdict says |
| `SharedQueueProgress.EffectiveStepsBounded` | src/shm/queue.rs:153-163 | in any run every call, begun before or during it, brings at most five effective steps |
| `SharedQueueProgress.AgentsBalance` | src/shm/queue.rs:134-297 | over any run, agents now plus calls ended are agents before plus calls begun, and calls end by effective steps |
| `SharedQueueProgress.LeaderExists` | src/shm/queue.rs:153-159 | a role with agents has one that needs nobody else: the holder of the lowest index or one about to be cleared, where free indices are left, or the holder of the top index; if some call has not returned, there is such an agent among those calls |
| `SharedQueueProgress.LeaderNotStuck` | src/shm/queue.rs:161-163 | until somebody makes progress the leader retries once at most, unless it holds the top index and a call begins above it |
| `SharedQueueProgress.RoundMakesProgress` | src/shm/queue.rs:161-163 | whatever the interleaving, if every agent takes two steps and no compare-exchange fails spuriously, someone progresses unless a new call begins in the round; the same if only the agents whose call has not returned go on, and no guard is ever dropped |
| `SharedQueueProgress.NewcomerUndoesRound` | src/shm/queue.rs:153-159 | an instance of a round without progress: a call that begins above the one agent about, which is blocked, makes both its steps retries |
| `SharedQueueRounds.FairRoundCanFailIff` | src/shm/queue.rs:153-163 | from a state with agents, some fair round goes by without progress iff every agent is a call of one side that finds its index not clear, an agent may still join, and the next index of that side is not the last |
| `SharedQueueRounds.IdleRoundIff` | src/shm/queue.rs:153-163 | the same for rounds about all agents and for rounds about calls that have not returned, where both sides may wait at once and each needs a newcomer of its own |
| `SharedQueueRounds.IdleRunKeepsAll` | src/shm/queue.rs:141-170 | a run without progress keeps the last counters and every agent with its index, and the next counters move by the claims alone |
| `SharedQueueProgress.ContendedProgress` | src/shm/queue.rs:153-163 | however many calls begin in between, the rounds with agents about (with calls not returned, if guards are kept) number at most twice the effective steps plus the agents that could still join; so in more rounds than that somebody progresses |
| `SharedQueueProgress.ContendedCalls` | src/shm/queue.rs:153-163 | such rounds also number at most six times the calls that come to an end plus five times the agents allowed at a time, so calls keep ending |
| `SharedQueueProgress.FairRoundsDrain` | src/shm/queue.rs:153-169 | once no new call begins, five such rounds per agent let every agent leave |
| `SharedQueueProgress.CanDrain` | src/shm/queue.rs:153-169 | from every reachable state a schedule of bounded length lets every agent leave |
| `SharedQueueProgress.SpuriousFailuresSpin` | src/shm/queue.rs:161-163 | a blocked agent whose weak compare-exchange keeps failing spuriously changes nothing, however long it goes on |
| `SharedQueueProgress.OutOfTurnSpins` | src/shm/queue.rs:260-269 | a dropped guard that is not the oldest of its role, or whose compare-exchange fails spuriously, changes nothing, however often it tries |
| `QueueMemory.GrantIsRun` | src/shm/queue.rs:134-181 | what a successful call of the class does is a run of the transition system |
| `QueueMemory.RefusedIsRun` | src/shm/queue.rs:141-170 | a refused call, with any number of spurious failures, is a run that leads back to where it began |
| `QueueMemory.GrantAlone` | src/shm/queue.rs:134-181 | it keeps the invariant and what is pending |
| `QueueMemory.ClaimAlone` | src/shm/queue.rs:136-148 | with nobody else running, a claim is cleared exactly when its index is below the limit |
| `QueueMemory.DropAlone` | src/shm/queue.rs:254-297 | dropping the oldest guard of a role enqueues, or dequeues, exactly its slot |
| `QueueMemory.DropIsRun` | src/shm/queue.rs:254-297 | what a drop of the class does, with any number of spurious failures, is a run of the transition system |
| `QueueMemory.WriteIsRun` | src/shm/queue.rs:313-325 | what a write of the class does is a run of the transition system, byte by byte |
| `QueueMemory.NoGuardsAlive` | src/shm/queue.rs:141-148 | with no guard alive, a push finds room iff fewer than item_count items wait, and a pop an item iff any waits |
| `QueueMemory.WritesAreStream` | src/shm/queue.rs:311-330 | any sequence of partial writes stores the prefix of the byte stream that fits, and nothing else changes |
| `QueueMemory.ReadsAreStream` | src/shm/queue.rs:346-361 | any sequence of partial reads returns a prefix of the slot, in order |
| `QueueMemory.StreamRoundTrip` | src/shm/queue.rs:311-361 | partial writes then partial reads give back the written bytes |
| `QueueMemory.Queue.Place` | src/shm/queue.rs:66-92 | the new queue lies in the mapping and is in the initial state |
| `QueueMemory.Queue.SlotPlace` | src/shm/queue.rs:172-180 | slot k is the item_size bytes at k times the rounded item size from the start of the queue |
| `QueueMemory.Queue.NewWithMemory` | src/shm/queue.rs:58-93 | succeeds iff the mapping is long enough and the address aligned, with the right error otherwise; the queue then lies at the offset and has the sizes asked for |
| `QueueMemory.Queue.ClaimSend` | src/shm/queue.rs:136-170 | the claiming loop ends, and a refused claim restores the counter |
| `QueueMemory.Queue.ClaimRecv` | src/shm/queue.rs:185-218 | the same for try_pop |
| `QueueMemory.Queue.TryPush` | src/shm/queue.rs:134-181 | a guard iff there is room, which with no guard alive means fewer than item_count items; the contents stay, and the new state is the old one, or the old one after the steps of a grant |
| `QueueMemory.Queue.TryPop` | src/shm/queue.rs:183-235 | the same for an item to take, with the poison verdict |
| `QueueMemory.PushGuard.Write` | src/shm/queue.rs:313-325 | all bytes are taken, or the slot is then full; it holds them after what was written before, and no other slot and no pending item changes |
| `QueueMemory.PopGuard.Read` | src/shm/queue.rs:348-360 | the buffer is filled with the next bytes of the slot, or all that are left are read |
| `QueueMemory.PushGuard.Drop` | src/shm/queue.rs:254-271 | the contents grow by the slot at the tail; a panicking drop poisons, another leaves the flag |
| `QueueMemory.PopGuard.Drop` | src/shm/queue.rs:280-297 | the contents lose the slot at the head; the flag as for a push guard |
| `ThinLock.StepKeepsInv` | src/windows/sync.rs:70-95 | owners + semaphore + pending releases is 1 while the counter is positive and 0 otherwise, the counter is owners + waiters, and no error branch is taken |
| `ThinLock.FetchSubKeepsInv` | src/windows/sync.rs:117-133 | unlocking finds the counter positive and the semaphore empty |
| `ThinLock.PostKeepsInv` | src/windows/sync.rs:124-133 | releasing the semaphore finds it below its maximum |
| `ThinLock.RunKeepsInv` | src/windows/sync.rs:70-136 | the invariant holds in every reachable state, for any number of threads |
| `ThinLock.CountFits` | src/windows/sync.rs:75 | the counter never wraps |
| `ThinLock.MutualExclusion` | src/windows/sync.rs:27-33 | two threads never own the lock, or pass it on, at once, and the semaphore is then empty |
| `ThinLock.NoLostWakeup` | src/windows/sync.rs:79-90 | while threads wait and nobody owns the lock, the token is in the semaphore or about to be posted, never both |
| `ThinLock.StepUsesRank` | src/windows/sync.rs:70-136 | every step but an arrival or an attach brings its thread closer to leaving |
| `ThinLock.SomeoneCanMove` | src/windows/sync.rs:70-136 | while threads are about, one of them can move |
| `ThinLock.StepsBounded` | src/windows/sync.rs:70-136 | any schedule is bounded by six steps per thread about, seven per arrival and one per attach |
| `ThinLock.RunsEnd` | src/windows/sync.rs:70-136 | once no thread arrives, every schedule has at most six steps per thread, and one for each attach |
| `ThinLock.MaximalRunsServeAll` | src/windows/sync.rs:70-136 | any schedule after which no thread can take a step, with arrivals and attaches in it or not, has let every thread through and left the lock free |
| `ThinLock.PoisonRecord` | src/sync.rs:108-115 | the flag, counting a store that is due, records the panicking drops since the last attach and those under way at it |
| `ThinLock.LockVerdict` | src/sync.rs:82-95 | at its poison load, lock finds poison iff a guard was dropped while panicking since the last attach, or such a drop was under way at it |
| `ThinLock.LastEventStands` | src/windows/sync.rs:70-136 | the last event of a thread in a run says where in lock or in the drop of its guard it stands |
| `ThinLock.ProgramOrder` | src/sync.rs:82-115 | in every run every thread goes through lock and the two drops in the order of the code, and skips no step |
| `ThinLock.GuardLoaded` | src/sync.rs:82-95 | a thread with a guard loaded the flag after it last arrived, whether it had to wait or not |
| `ThinLock.GuardVerdict` | src/sync.rs:82-95 | for a guard that is held: what its thread found reported poison iff a guard had been dropped while panicking since the last attach, or such a drop was under way at it |
| `ThinLock.VerdictAsDocumented` | src/sync.rs:71-73 | the plain reading (a guard was dropped while panicking since the last attach) is right iff it says poisoned or no such drop was under way at that attach |
| `ThinLock.AttachRace` | src/sync.rs:71-73 | a run in which it is wrong |
| `ThinLock.Mutex.NewWithMemory` | src/windows/sync.rs:35-55 | the new mutex is in the initial state |
| `ThinLock.Mutex.FetchAdd` | src/windows/sync.rs:75-79 | adds one to the counter, and owns the lock iff that was zero; the step of an arrival |
| `ThinLock.Mutex.Wait` | src/windows/sync.rs:80-89 | takes the one token of the semaphore, and has the poison load ahead of it; the step of an acquisition |
| `ThinLock.Mutex.LoadFlag` | src/sync.rs:90-94 | takes the step of the poison load and returns the flag |
| `ThinLock.Mutex.BeginDrop` | src/sync.rs:109-110 | takes the step that begins a drop |
| `ThinLock.Mutex.StoreFlag` | src/sync.rs:110-113 | takes the step that stores poison, before the inner unlock |
| `ThinLock.Mutex.FetchSub` | src/windows/sync.rs:117-124 | takes the step of the unlock; the branch for an invalid state is unreachable |
| `ThinLock.Mutex.Release` | src/windows/sync.rs:124-133 | takes the step of the release, which cannot fail |
| `Datagram.BincodeDatagram.PollComplete` | src/ser.rs:116-130 | a message that the transport does not take, or fails on, stays buffered and nothing is sent; one that it takes whole is sent and gone; one taken in part stays, with an error |
| `Datagram.BincodeDatagram.StartSend` | src/ser.rs:94-114 | with a message still to be written the item is returned, or the error passed on, and the buffer stays; otherwise the item is taken iff it can be encoded within the buffer, and a failed serialisation leaves nothing buffered |
| `Datagram.BincodeDatagram.Poll` | src/ser.rs:66-82 | nothing to read is not the end; an empty datagram is the end, one that fits is decoded; the message buffered for sending stays |
| `Datagram.StepConserves` | src/ser.rs:94-130 | one call moves the buffered message out whole before it takes another in |
| `Datagram.AcceptedAreSent` | src/ser.rs:94-130 | over every run on a transport that takes messages whole, however often it is not ready or fails, the accepted messages are the datagrams sent, in order, and then the buffered one |
| `Datagram.ShortWritesCount` | src/ser.rs:120-122 | every short write puts one datagram too many on the wire |
| `Datagram.SendingExactIff` | src/ser.rs:117-127 | sending is exact iff there is no short write |
| `Datagram.ShortWriteSendsTwice` | src/ser.rs:117-127 | a run in which it is not: one message accepted, two datagrams sent |
| `Datagram.DeliveredIffNonEmpty` | src/ser.rs:69-71 | a message that fits is delivered iff its encoding is not empty; an empty one reads as the end of the stream |
| `Datagram.AcceptedFit` | src/ser.rs:102-113 | over any run, whatever was accepted could be encoded within the send buffer |
| `Datagram.AcceptedDeliverable` | src/ser.rs:42-82 | with a receive buffer no smaller than the send buffer, and a decoder that inverts the encoder, an accepted message can be delivered iff its encoding is not empty |
| `Datagram.ReceivedIsPrefix` | src/ser.rs:66-130 | end to end, what is received is a prefix of what was accepted and the rest is under way or buffered |
| `HandleTable.HandleSender.Send` | src/unix/mod.rs:209-229 | puts the duplicate at the next position and returns it, or fails and leaves the table |
| `HandleTable.HandleSender.Serialize` | src/unix/mod.rs:33-48 | serialising a message takes its leaves in order through the table, as specified |
| `HandleTable.SerializesIff` | src/unix/mod.rs:210-228 | serialising works iff the descriptors fit the table and can all be duplicated |
| `HandleTable.TableIsDuplicates` | src/unix/mod.rs:225-227 | the table holds the duplicates position by position |
| `HandleTable.PositionsInOrder` | src/unix/mod.rs:33-48 | the encoded message carries the positions one after the other, in the order of its descriptors |
| `HandleTable.PlainRoundTrip` | src/unix/mod.rs:33-78 | a message without descriptors goes through unchanged, whatever the tables are |
| `HandleTable.DeserializesIff` | src/unix/mod.rs:231-246 | the encoded message can be read back with a table iff that has, at each of its positions, an open descriptor whose flag can be set |
| `HandleTable.RoundTrip` | src/unix/mod.rs:231-246 | what is read back has the descriptors of the receiver's table in place, position by position, whatever their numbers |
| `HandleTable.PlacedMeansSame` | src/unix/mod.rs:209-246 | if they stand for the files that were sent, the message read back has at every leaf the file that was there |
| `HandleTable.MessageRoundTrip` | src/unix/mod.rs:209-246 | for a whole message: 32 descriptors go through, a 33rd is refused, and what is read back has the first descriptors of the receiver's table in order |
| `ControlMessage.CmsgSizes` | src/unix/mod.rs:280-298 | the space holds the length, is word-aligned and wastes less than a word |
| `ControlMessage.FdsLenIsCmsgLen` | src/unix/mod.rs:347-348 | the lengths that are stored are CMSG_LEN of the payload |
| `ControlMessage.Cmsg.SetFds` | src/unix/mod.rs:343-353 | the payload, header and control length after committing a table |
| `ControlMessage.Cmsg.ResetFdCount` | src/unix/mod.rs:355-360 | the lengths claim the whole payload again |
| `ControlMessage.Cmsg.CurrentFds` | src/unix/mod.rs:362-373 | returns the words the header claims |
| `ControlMessage.CommitThenRead` | src/unix/mod.rs:343-373 | committing a table and reading it back gives the committed table, and that is what a write transmits |
| `ControlMessage.DescriptorsArrive` | src/unix/mod.rs:143-180 | from one end of a channel to the other: the message can be read back iff every number that arrived is usable, and then has at every leaf a descriptor for the file that the sender had there |
| `ControlMessage.ReadFindsArrived` | src/unix/channel.rs:154-159 | a read finds exactly the descriptors that came with the message iff there were any |
| `ControlMessage.RefusalExactIff` | src/unix/mod.rs:231-235 | an index is refused exactly when it is beyond what came, iff something came or the index is beyond the whole buffer |
| `ControlMessage.StaleDescriptorFound` | src/unix/mod.rs:143-148 | a message without descriptors that gets one of an earlier message |
| `ControlMessage.TransmittedAfterReads` | src/unix/channel.rs:118-175 | what a write transmits after any sequence of reads: the committed table, the whole payload or the last table received, by the last read that got as far as recvmsg |
| `ControlMessage.WriteAfterReads` | src/unix/channel.rs:118-175 | a write transmits the committed table, whatever reads fall in between, iff none of them got as far as recvmsg, or the last that did brought the same table, or failed with a payload that is the table |
| `ControlMessage.FailedReadSendsStale` | src/unix/channel.rs:159-168 | a case in which it does not |
| `UnixGuards.Thread.BeforeSerialize` | src/unix/mod.rs:127-141 | installs a fresh sender with an empty table and returns the one it replaces |
| `UnixGuards.Thread.Commit` | src/unix/mod.rs:172-180 | the control message carries exactly the sender's table, and the thread-local is restored |
| `UnixGuards.Thread.SerializeMessage` | src/ser.rs:103-109 | the thread-local returns to its prior value; a failed serialisation leaves the control message alone, a successful one leaves its table there |
| `HandleGuards.Thread.BeforeSerialize` | src/windows/mod.rs:286-299 | installs a fresh sender and keeps the old one in the guard |
| `HandleGuards.Thread.Send` | src/windows/mod.rs:384-403 | records the duplicate, or fails and records nothing |
| `HandleGuards.Thread.DropSender` | src/windows/mod.rs:355-379 | closes each handle still held, once, in order |
| `HandleGuards.Thread.DropGuard` | src/windows/mod.rs:315-322 | restores the thread-local and closes what the dropped sender holds |
| `HandleGuards.Thread.Commit` | src/windows/mod.rs:324-331 | restores the thread-local and closes nothing |
| `HandleGuards.Thread.Serialize` | src/windows/mod.rs:286-331 | for any tree of nested scopes the thread-local returns to its prior value, and what is delivered and closed is as specified |
| `HandleGuards.HandlesConserved` | src/windows/mod.rs:286-403 | every duplicate made in a tree of scopes is delivered or closed, exactly once |
| `HandleGuards.GuardOutcome` | src/windows/mod.rs:315-379 | a scope commits iff nothing it depends on fails; a commit delivers the handles its own actions duplicated, a failure closes them, and those of scopes inside are left as these settled them |
| `HandleGuards.AllCommittedClosesNothing` | src/windows/mod.rs:324-331 | if every scope commits, nothing is closed |
| `Layout.AndComplement` | src/lib.rs:118-124 | the modelled bit operations fit together: a word and its complement share no digit |
| `Layout.AndMask` | src/lib.rs:118-124 | masking with ones above digit k clears exactly the low k digits |
| `Layout.MaskIsArithmetic` | src/lib.rs:118-124 | for every power of two the mask form equals the arithmetic form |
| `Layout.AlignIsLeast` | src/lib.rs:118-124 | without overflow align gives the least multiple that is large enough |
| `Layout.AlignCoversIffNoOverflow` | src/lib.rs:118-124 | the result is large enough iff the addition does not overflow |
| `Layout.SizesFit` | src/shm/queue.rs:48-54 | a size that passes the checks holds all slots and the control block |
| `Layout.SizesAcceptedIff` | src/shm/queue.rs:48-54 | sizes are accepted iff both are positive, the count is below isize::MAX and nothing overflows, and then the size is the count times the rounded item size plus the control block |
| `Layout.SlotsDisjoint` | src/shm/queue.rs:68-70 | slots do not overlap and end before the control block, which ends with the queue |
| `Layout.ControlAligned` | src/shm/queue.rs:63-70 | the control block is word-aligned whenever the queue is |
| `Attach.MutexAttaches` | src/sync.rs:47-80 | a mutex can be attached in another mapping iff that maps all of it, aligned and writable, and then both refer to the same bytes; otherwise the error says whether the memory or its range is wrong |
| `Attach.QueueOfOtherMemory` | src/shm/queue.rs:96-98 | a queue is refused as one of other memory iff the tokens differ |
| `Attach.QueueTestRightIff` | src/shm/queue.rs:99-103 | the tests for a queue agree with its lying in the mapping of its own memory iff the memory is another, the mapping starts where the queue does, or it ends before the queue |
| `Attach.QueueAttaches` | src/shm/queue.rs:104 | an accepted queue has a position in the mapping iff the two start together |
| `Attach.QueueTestWrong` | src/shm/queue.rs:99-103 | a mapping that is wrongly refused and one that is wrongly accepted |
| `Words.SignedWrap` | src/shm/queue.rs:146 | a wrapped difference read as signed is the difference, while that fits |
| `Words.DistinctSlots` | src/shm/queue.rs:176 | indices less than item_count apart have different slots |

## Left out

- Index wrap-around at usize::MAX, where the code stops with `unimplemented!()`: a claim in the model needs a next
  index below it.
- More agents at a time than keep item_count + agents below 2^63: each agent is a live call, and the bound is a
  parameter of every run.
- `SharedQueueProgress.FairRoundsDrain`: a live guard is taken to be dropped when its agent is scheduled, and two guards
  that one thread drops out of order are two agents; a single thread that does so waits for itself
  (`SharedQueueProgress.OutOfTurnSpins`).
- `QueueMemory.PushGuard.Drop`: requires that older guards of the role were dropped, because otherwise the loop does not
  end with nobody else running; `QueueMemory.PopGuard.Drop` likewise.
- `QueueMemory.Queue.TryPush`: runs with nobody else running; interleavings are the matter of `SharedQueue`.
- The bytes of the control block: counters are fields of the classes, and only the place of the block is modelled.
- Sizes whose computation overflows: `RequiredSize` has no result then, as in a build with overflow checks.
- Weak memory orderings: every atomic operation in the source is sequentially consistent.
- Agents that do not follow the protocol or scribble on shared memory.
- The pthread mutex and its reference count on Unix, page rounding of mappings and the range passed to `map`.
- Failures of WaitForSingleObject, and the wake-up order among waiters.
- bincode and serde: encoding and decoding are parameters; the size limit is modelled.
- Sockets, pipes, reactors, process spawning, the duplication calls themselves and the close-on-exec flags beyond whether
  setting them works; recvmsg is taken to set the lengths to what it received,
  the kernel to pass on the files it was given, under numbers of the receiver.
- The layout of cmsghdr inside its buffer: payload words and the two lengths are separate fields.
- Closing of duplicated descriptors on Unix, which the code does not do.
- Scopes nested inside one another on Unix, which swap the thread-local as those modelled for Windows, and the guard for
  deserialising, which swaps in the received table in the same way.
- Sockets sent on Windows through WSADuplicateSocket, and the serialised structures for them.
