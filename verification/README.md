# Verification of the coroutine and event framework

A Dafny model of a C library for event-driven servers: a chained hash table, fibers
switched by a few lines of assembly, a coroutine pool, an event loop with queued
connections, two poll registries built on swaps, buffered byte streams, and FastCGI
encoding. Every module states what its part of the program promises and proves it for all
inputs, all runs or all interleavings.

| files | program part |
|---|---|
| `Words.dfy` | bit smearing, slot offsets and the unrolled hash, on machine words written out as numbers |
| `HashShape.dfy`, `HashTable.dfy`, `HashRun.dfy` | the chained hash table: its shape as values, the table updated in place, whole lives of a table |
| `RingList.dfy` | the intrusive circular list |
| `FiberMachine.dfy`, `FiberRuns.dfy`, `FiberStack.dfy` | the context switch instruction by instruction, worlds of fibers and their interleavings, the growing stack |
| `Pool.dfy` | the coroutine pool |
| `Runtime.dfy`, `RuntimeRuns.dfy`, `RuntimeOrder.dfy`, `RuntimeExamples.dfy` | the event loop, the connection queues and the I/O wrappers as steps of one state, what every run keeps, what runs do told by their actions, and runs that go wrong |
| `EdgeSpec.dfy`, `EdgeHistory.dfy`, `EdgePoll.dfy` | the edge-triggered poll registry as a map, as the history of its calls, and as two arrays with three zones |
| `PollSet.dfy` | the registry over `poll(2)` |
| `BufferIO.dfy` | the growing buffer, buffered reading and writing |
| `FastCgi.dfy`, `FastCgiHeaders.dfy`, `FastCgiParams.dfy` | writing a response as records, reading its header block back, reading name-value pairs |
| `Sets.dfy`, `Options.dfy` | small helpers |

How the parts are modelled:

- Code that changes arrays, fields, registers or memory step by step is a class whose methods
  do the same steps; each is tied by its contract to a function of the old state, and the
  lemmas are about that function.
- The event loop is a step system, because its steps interleave with those of the routines
  it starts. The kernel, the clock and the routines choose the actions; `Runtime.Enabled`
  says what is taken for granted about them: routines use only descriptors they own, the
  kernel hands out descriptor numbers that are not in use, the clock does not go back, and
  when a routine ends, the number of its connection is its own or not in use
  (`Runtime.MayClose`).
- Memory, the kernel's answers and system calls that may fail are parameters. Integer widths
  are written out where the code depends on them: 32 and 64 bits in `Words.dfy`.
- A descriptor for buffered I/O follows a plan: any sequence of partial transfers, stalls and
  failures, with the answers and error numbers they may have. It counts its failures; an
  error-free run is one in which no call failed for good.
- A running fiber may write its own stack, the heap and globals, but neither another fiber's
  stack nor a fiber header, except that the handler of its page faults may move the lower
  boundary of its own stack (`FiberRuns.Runs`).
- What the edge-triggered registry does not see is part of its runs too: a descriptor may be
  closed at any time, upon which the kernel forgets it and its number may come back
  (`EdgeSpec.Happening`).
- `FiberRuns.Inv` keeps the stack pointers and frames of suspended fibers as history beside the
  memory, so that the memory can be compared with them.

Where the code and its documentation or its evident intent differ, the model follows the code:

- `ef_bio_read` returns, after a refill, only the bytes that came with the refill. The
  contract of `BufferIO.Reader.Read` says when that is the number of bytes delivered, and states
  delivery on the caller's memory; `BufferIO.ShortAnswer` delivers two bytes and answers zero.
- `ef_coroutine_pool_shrink` does not keep the pool at its minimum for every count. All positive
  counts do, and zero and some negative ones; `Pool.KeepsMinimumWhen` says exactly which, over
  all idle limits and clocks, and `Pool.ZeroCountBelowMinimum` is a pool below its minimum from
  which a count of zero deletes.
- Idle times are compared in whole seconds, and microseconds with milliseconds. The test is
  exact on all clocks if and only if the limit is a whole number of seconds
  (`Pool.IdleIsElapsed`), and never wrong by a second.
- A connect in progress with an error on the socket is answered with zero if its event is
  without POLLERR and POLLHUP, and only the error number tells; `Runtime.ConnectAnswers` says
  when the answer is negative and when it is wrong.
- A stack of a single page, which is what up to one page of requested stack gives, has no guard
  page; every other has one that is never mapped (`FiberStack.Stack.Faults`).
- A resume or yield names the next fiber before the switch pushes the registers of the one that
  leaves. A fault of these pushes is taken for one of the next fiber's stack and not served
  (`FiberStack.Stack.SwitchFault`).
- A length to be skipped beyond the end of the stream is asked for again and again:
  `BufferIO.Reader.Skip` does not return exactly then, and `BufferIO.Reader.SkipRounds` shows
  that its rounds make no progress.
- A failed flush keeps the whole buffer although the descriptor took a part of it, so trying
  again sends that part twice (`BufferIO.FlushAgain`); the response writer looks at no answer
  and goes on after a failed write.
- The parameter parser has no bounds checks: it reads beyond every block that is not made of
  whole pairs (`FastCgiParams.OutcomeIsDecode`, `FastCgiParams.TruncatedBlock`).
- `ef_proc` allows the routine to have closed its connection and closes the number again. That
  is harmless exactly while nobody else has the number: otherwise a queued connection, a
  listening socket or another routine's descriptor is closed (`Runtime.SecondCloseTakes`).
  `Runtime.SecondCloseSteals` gives the case in which another routine loses its registration
  too, and `RuntimeExamples.SecondCloseHappens` is a run that reaches it.
- Told to stop, the loop leaves with connections queued exactly when the last pass ended because
  a fiber could not be mapped, or when something is queued and the pool has no room at all
  (`RuntimeRuns.AbandonsQueued`); `RuntimeExamples.LeavesOneQueued` is a run that does.
- An edge-triggered registry leaves a registered descriptor without its wakeups in exactly two
  cases (`EdgeSpec.StepKeepsSound`). One is a refusal by the kernel while it is new, whatever it
  asks for: it stays registered, unwatched, and a retry succeeds without asking the kernel
  (`EdgePoll.RefusedAndRetried`). The other is closing it while it is registered, as the stopping
  branch does with its listening sockets, which it dissociates without `onclose`
  (`src/framework.c:267-268`): the number may come back, and associating it succeeds without
  asking the kernel (`EdgeSpec.ReusedNumber`, `EdgePoll.ReusedAndUnwatched`). Only dissociating it
  on close heals that (`EdgeSpec.OrphanStays`). A refused descriptor that had asked for
  writability has the event assumed on record undelivered too (`EdgeSpec.StepKeepsWakeups`).
- It returns an empty event exactly after a filled descriptor was re-armed with a mask that none
  of its events match (`EdgeSpec.StepKeepsReady`, with the run of `EdgeSpec.RearmedReader`), and
  an event for a descriptor that waits for nothing only with an error or a hangup on record or
  an empty mask (`EdgeSpec.StepKeepsAllWait`): one that was dissociated and hangs up is reported
  to its last pointer (`EdgeSpec.HangupForNobody`).
- The response writer sends no empty record to close the standard-output stream, which
  section 3.3 of the FastCGI Specification 1.0 describes; a response ends with
  FCGI_END_REQUEST alone.

## Model

| member | source | states |
|---|---|---|
| Words.HashRecap | src/structure/hashtable.c:78-92 | the least power of two at or above the request, 8 at least, 0 beyond 2^31 |
| Words.Resize | src/structure/util.h:29-46 | the least power of two at or above the larger of size and min, 0 when that is 0 or beyond 2^63 |
| Words.SmearUp | src/structure/util.h:35-45 | or-ing a word with its shifted selves and adding one gives the least power of two above it |
| Words.OffsetInSlots | src/structure/hashtable.h:32-34 | or-ing the hash with minus the capacity gives the hash modulo the capacity, less the capacity, a place in the slot array |
| Words.HashIsPolynomial | src/structure/hashtable.c:42-75 | the hash is the polynomial in 33 that the signed characters spell, from 5381, up to multiples of 2^63, in the upper half of the 64-bit words |
| Words.HashFunc | src/structure/hashtable.c:42-75 | the loop unrolled eight times with its fall-through tail computes the plain fold 33*h + c over signed bytes, modulo 2^64, with the top bit set |
| HashTable.HashNeverZero | src/structure/hashtable.c:69-74 | no key hashes to zero, so a zero hash marks a dead bucket |
| HashShape.SlotIsRemainder | src/structure/hashtable.h:32-34 | taking the capacity away from a hash as often as it fits leaves its remainder, the slot |
| HashShape.InstallKeepsInv | src/structure/hashtable.c:161-177 | putting a key into the bucket at hand keeps every bucket in exactly one chain or in the removed list, with used + removed = next |
| HashShape.InstallStep | src/structure/hashtable.c:161-177 | the same step adds exactly one entry to the finite map, and its value to those owned |
| HashShape.GiveBackStep | src/structure/hashtable.c:164-169 | a bucket given back for want of memory joins the removed list and changes no entry |
| HashShape.UnlinkKeepsInv | src/structure/hashtable.c:204-229 | redirecting the one pointer to a bucket takes it out of its acyclic chain and keeps all the others |
| HashShape.DropAll | src/structure/hashtable.c:94-111 | unlinking and freeing a bucket removes exactly its key from the map, and keeps the shape |
| HashShape.RevalueStep | src/structure/hashtable.c:141-148 | overwriting a value changes that entry alone |
| HashShape.MoveStep | src/structure/hashtable.c:261-276 | copying one live bucket into the compacted table keeps both the shape of the new table and the entries moved so far |
| HashShape.RehashDone | src/structure/hashtable.c:252-276 | after the last bucket the new table holds the same map and the same values, with next = used |
| HashShape.LookupHit | src/structure/hashtable.c:189-201 | the first match in the chain of a key's slot is the bucket the map gives for the key |
| HashShape.LookupMiss | src/structure/hashtable.c:189-201 | no match in the chain of its slot means the key is not in the map |
| HashShape.FullWhenStuck | src/structure/hashtable.c:150-160 | no untouched and no removed bucket means that all are in use, used = cap |
| HashShape.LiveCount | src/structure/hashtable.c:231-238 | used counts the live buckets |
| HashTable.Table.constructor | src/structure/hashtable.c:113-137 | an empty map in a table of at least the requested capacity |
| HashTable.Table.FindKey | src/structure/hashtable.c:180-202 | a bucket with the key and the map's value exactly when the key is in the map |
| HashTable.Table.SetKeyValue | src/structure/hashtable.c:139-178 | the map with the key's value replaced or added, the capacity doubled exactly when a new key finds the table full, or unchanged on failure, which needs a new key and no memory or no more room; the replaced value alone is destroyed |
| HashTable.Table.AllocBucket | src/structure/hashtable.c:150-161 | a free bucket after at most two tries, every entry kept, failing only when full and unable to double |
| HashTable.Table.RemoveKey | src/structure/hashtable.c:204-229 | the map without the key, its value destroyed if there was one |
| HashTable.Table.FreeBucket | src/structure/hashtable.c:94-111 | a live bucket joins the removed list and its value is destroyed, a dead one is left alone |
| HashTable.Table.Resize | src/structure/hashtable.c:240-281 | the same map, nothing destroyed, compacted into the least sufficient power of two; refused, with nothing changed, exactly without memory or if that power of two is below the entries held |
| HashTable.Table.Free | src/structure/hashtable.c:231-238 | all that was ever accepted has been destroyed, each value as often as it was accepted |
| HashRun.Serve | src/structure/hashtable.c:139-281 | any sequence of set, find, remove and resize is answered as a finite map answers it |
| HashRun.FinalIsLastWord | src/structure/hashtable.c:139-281 | after any history a look-up gives the last value set and not removed since |
| HashRun.Live | src/structure/hashtable.c:94-281 | over a whole life ending in free, each value is destroyed as often as the history put it in |
| RingList.InsertBefore | src/structure/list.h:58-64 | the ring with the entry before the given one, or at the tail |
| RingList.InsertAfter | src/structure/list.h:66-72 | the ring with the entry after the given one |
| RingList.Remove | src/structure/list.h:52-56 | the ring without the entry, which keeps its own links |
| RingList.RemoveAfter | src/structure/list.h:98-110 | the first entry leaves the ring, or nothing when it is empty |
| RingList.RemoveBefore | src/structure/list.h:84-96 | the last entry leaves the ring, or nothing when it is empty |
| RingList.Empty | src/structure/list.h:41-44 | true exactly for the ring of the head alone |
| RingList.After | src/structure/list.h:79-82 | the next entry of the ring, the head after the last |
| RingList.Before | src/structure/list.h:74-77 | the entry before in the ring, the last before the head |
| RingList.PassThrough | src/structure/list.h:58-110 | entries put in before the head come out after it in the same order |
| FiberMachine.Layout | src/fiber.h:67-108 | the offsets of the assembly are those of the fields in their order |
| FiberMachine.Cpu.Swap | src/amd64/fiber.s:37-68 | the old registers and return address lie in a frame on the old stack, whose top is stored; the registers are those of the frame at the new stack pointer; rax holds the value |
| FiberMachine.Cpu.Exit | src/amd64/fiber.s:70-78 | the fiber is marked exited, its parent is current and runs from its own frame, rax as the procedure left it |
| FiberMachine.Cpu.Init | src/amd64/fiber.s:80-105 | the first frame enters the procedure with its parameter and returns into the exit stub, nothing else is written |
| FiberMachine.FirstFrameLoads | src/amd64/fiber.s:54-105 | registers loaded from the first frame enter the procedure with its parameter, above the exit stub and the fiber it marks, all others cleared |
| FiberRuns.Fibers.Resume | src/fiber.c:92-116 | a live target gets the current fiber as parent, becomes current and is swapped in; others are refused with the code of their state and nothing changes |
| FiberRuns.Fibers.Init | src/fiber.c:78-81 | a first frame for the procedure with its parameter, or its fiber if it has none, whose address becomes the stack pointer |
| FiberRuns.Fibers.Yield | src/fiber.c:118-123 | the parent becomes current and is swapped in |
| FiberRuns.ResumeKeepsInv | src/fiber.c:92-116 | resuming a fiber off the chain pushes it, and it runs with its saved context and the value in rax |
| FiberRuns.YieldKeepsInv | src/fiber.c:118-123 | yielding pops the chain, and the parent runs with its saved context and the value in rax |
| FiberRuns.ExitKeepsInv | src/amd64/fiber.s:70-78 | returning from the procedure pops the chain and hands the result to the parent's resume |
| FiberRuns.InitKeepsInv | src/fiber.c:78-81 | initialising any fiber off the chain, suspended ones among them, gives it a first frame and disturbs no other |
| FiberRuns.CreateKeepsInv | src/fiber.c:33-76 | a new fiber in a region apart from the others disturbs none |
| FiberRuns.DeleteKeepsInv | src/fiber.c:83-90 | deleting a fiber off the chain disturbs no other, and frees its region for a later one |
| FiberRuns.SchedStarts | src/fiber.c:159-167 | the scheduler starts with the thread alone on the chain |
| FiberRuns.TraceKeepsInv | src/fiber.c:33-123 | in every interleaving of running, resuming, yielding, exiting, initialising, creating and deleting, with any writes to the heap, stacks, frames and parent pointers stay intact |
| FiberRuns.SwappedOutAndIn | src/amd64/fiber.s:37-78 | in every interleaving a fiber that leaves and comes back finds its registers and stack pointer as they were, its return address, and the value sent in rax |
| FiberRuns.FirstRun | src/amd64/fiber.s:80-105 | in every interleaving the first run of an initialised fiber enters its procedure with its parameter, above the exit stub |
| FiberRuns.ParentsReachThread | src/fiber.c:108-122 | in every interleaving the parent pointers from the current fiber are acyclic and end at the thread, after as many steps as there are nested resumes |
| FiberStack.Stack.constructor | src/fiber.c:39-73 | a whole number of pages with the top one mapped |
| FiberStack.Stack.Expand | src/fiber.c:125-146 | succeeds exactly for addresses between the guard page and the mapping, and then maps from the page of the address up |
| FiberStack.Stack.Faults | src/fiber.c:148-157 | over any faults and any answers of the kernel the process goes on exactly while each fault is between guard page and mapping at that time and the kernel agrees, and the guard page, which all but single-page stacks have, is never mapped |
| FiberStack.Stack.SwitchFault | src/fiber.c:108-157 | a fault of the switch in the stack of the fiber that leaves is looked for in the next fiber's stack and never served |
| Pool.CoroutinePool.Create | src/coroutine.c:37-68 | an exited coroutine is reused, else a new one is made below the limit, else nothing changes |
| Pool.CoroutinePool.Resume | src/coroutine.c:70-91 | a coroutine that exits joins the head of the free list; resuming an exited one changes nothing |
| Pool.CoroutinePool.Shrink | src/coroutine.c:93-139 | the loop cuts exactly the idle tail of the free list up to its budget |
| Pool.CreatedKeepsGood | src/coroutine.c:42-67 | creation keeps counters equal to list lengths and the free list equal to the exited coroutines, and touches no other coroutine |
| Pool.FinishedKeepsGood | src/coroutine.c:82-88 | so does the end of a coroutine |
| Pool.CutKeepsGood | src/coroutine.c:119-136 | so does freeing any tail of the free list |
| Pool.ShrinkDeletesOnlyExited | src/coroutine.c:93-139 | shrinking never deletes a coroutine that has not exited and changes none that stays |
| Pool.ShrinkRespectsMinimum | src/coroutine.c:98-113 | a positive count never takes the pool below its minimum |
| Pool.KeepsMinimumWhen | src/coroutine.c:98-116 | the exact counts for which no idle limit and no clock take the pool below the smaller of its size and its minimum |
| Pool.ZeroCountFreesNothing | src/coroutine.c:106-116 | a count of zero changes nothing in a pool that has its minimum |
| Pool.ZeroCountBelowMinimum | src/coroutine.c:106-116 | a pool below its minimum from which a count of zero deletes |
| Pool.CreatedKeepsOrder | src/coroutine.c:42-50 | taking from the head takes the coroutine that ran last, and keeps the free list ordered by last run |
| Pool.FinishedKeepsOrder | src/coroutine.c:82-88 | with a clock that does not go back, putting at the head keeps it ordered |
| Pool.CutKeepsOrder | src/coroutine.c:119-136 | so does cutting the tail |
| Pool.TailIsLongest | src/coroutine.c:119-136 | the early break misses nothing: with budget left, no coroutine kept is idle |
| Pool.ShrinkFreesLongestIdle | src/coroutine.c:93-139 | what is freed is the longest idle suffix within the budget |
| Pool.PositiveCountFrees | src/coroutine.c:99-136 | a positive count frees idle coroutines from the tail: the least of the count, what is beyond the minimum and what is free, and fewer only if nothing idle is kept; nothing at or below the minimum |
| Pool.OtherCountFrees | src/coroutine.c:99-136 | a count that is not positive frees so many: the least of what is free and the larger of its absolute value and what is missing to the minimum |
| Pool.IdleIsElapsed | src/coroutine.c:127-128 | the idle test agrees with the elapsed time on all clocks if and only if the limit is a whole number of seconds |
| Pool.IdleIsNearElapsed | src/coroutine.c:127-128 | the idle test is never wrong by a second |
| Pool.ShrinkEmptiesFreeList | src/framework.c:297-303 | the shrink calls of the stopping branch free every exited coroutine |
| Runtime.LastTryAnswers | src/framework.c:390-597 | over all the resumptions of a read, write, recv or send, every attempt but the last transfers nothing, and the answer and error number are those of the last event and call: -1 with EBADF for an error on the descriptor, else what the call answered |
| Runtime.ZeroMeansEnd | src/framework.c:413-431 | zero, the end of the stream for a read, is answered only if the call answered it, or the event had none of the bits and zero was held |
| Runtime.ConnectAnswers | src/framework.c:327-388 | when connect answers negative and with which error number, and exactly when its answer differs from the fate of the connection |
| Runtime.ResetConnectAnswersZero | src/framework.c:371-387 | a connection reset after it was reported as writable, without POLLERR and POLLHUP, is answered with zero |
| Runtime.CallKeeps | src/framework.c:390-418 | associating a descriptor and yielding keeps the invariants |
| Runtime.FinishKeeps | src/framework.c:413-440 | a resumed wrapper either waits again, still registered, or drops its registration and goes on |
| Runtime.ExitKeeps | src/framework.c:41-57 | the end of a routine closes its connection and leaves no registration behind |
| Runtime.SecondCloseSteals | src/framework.c:51-54 | when the routine has closed its connection itself, closing it again takes away another routine's registration if and only if that routine waits on the reused number |
| Runtime.SecondCloseTakes | src/framework.c:51-54 | the end of a routine takes a descriptor of another party if and only if the number of its connection is in use by another party |
| Runtime.StartKeeps | src/framework.c:59-72 | starting a routine on a queued connection, or failing to for want of room or of a fiber, keeps the invariants |
| Runtime.EventFindsWaiter | src/framework.c:187-214 | the next event of a batch belongs to a live coroutine suspended on that descriptor |
| Runtime.ResumeKeeps | src/framework.c:211-213 | resuming it keeps the rest of the batch valid |
| Runtime.ClosedKeeps | src/framework.c:249-292 | closing the listening sockets leaves only the registrations of suspended coroutines |
| Runtime.StopKeeps | src/framework.c:248-309 | the end of a round, stopping or not, deletes no live coroutine |
| RuntimeRuns.AcceptKeepsQueues | src/framework.c:74-105 | a queued connection is the last of its queue, in a node that is in no other list |
| RuntimeRuns.GoBackKeepsQueues | src/framework.c:237-243 | once a started routine gives control back its node moves to the free list |
| RuntimeRuns.StartsTheOldest | src/framework.c:232-244 | a start takes the oldest accepted connection not yet started, for a coroutine that was not live; when no coroutine can be had, for whatever reason, it stays at the head |
| RuntimeRuns.StepKeeps | src/framework.c:178-309 | every action of the loop, the wrappers, the kernel and the routines keeps all invariants |
| RuntimeRuns.WaitersAreRegistered | src/framework.c:178-309 | in every run, whenever control is in the loop, registered non-listening descriptors and live coroutines correspond one to one |
| RuntimeRuns.EventsResumeWaiters | src/framework.c:187-214 | in every run each event of a batch resumes a coroutine still waiting on that descriptor, never an exited, pooled or deleted one |
| RuntimeRuns.FirstInFirstOut | src/framework.c:74-105 | in every run, per listener, the connections started are a prefix of those accepted, and the queue holds the rest in order |
| RuntimeRuns.NodesInOneList | src/framework.c:87-102 | in every run a queue node is in one list at most |
| RuntimeRuns.LeavesClean | src/framework.c:248-311 | in every run with room for a coroutine, leaving through the stopping branch after a pass that did not fail for want of a fiber means: queues and listen list empty, every accepted connection started, no live coroutine, pool and registry empty, no further step |
| RuntimeRuns.LeavesQueuedWithoutRoom | src/framework.c:297-301 | without room the loop leaves at once, and cleanly exactly if nothing is queued |
| RuntimeRuns.AbandonsQueued | src/framework.c:248-301 | on leaving, connections are abandoned if and only if the last pass failed for want of a fiber, or some are queued and the pool has no room |
| RuntimeOrder.PhasesFollow | src/framework.c:178-309 | every step goes from one part of a round to the next as the loop is written: the wait, each event, each queue, the check for stopping |
| RuntimeOrder.EventsInOrder | src/framework.c:187-214 | the events to be handled are those a wait returned, less the first at each one handled; the queues are visited only when none is left |
| RuntimeOrder.HandledInOrder | src/framework.c:187-214 | over any steps between two waits the events handled, and those still to be, are those that were to be handled, in order |
| RuntimeOrder.WholeBatchHandled | src/framework.c:187-215 | in every run exactly the events that a wait returned are handled before the next pass over the queues, in their order |
| RuntimeOrder.HistoriesAreTheRuns | src/framework.c:59-105 | the histories of a listener grow by the connections that a run's steps accept and start |
| RuntimeOrder.StartsFollowAccepts | src/framework.c:59-105 | in every run the connections that routines are started on are, per listener and in order, the first of those that its steps accepted, and the queue holds the rest |
| RuntimeOrder.DroppedIsLost | src/framework.c:74-102 | a connection that cannot be queued is closed, or stays open with no owner |
| RuntimeOrder.CallSuspends | src/framework.c:390-418 | an association that succeeds suspends the routine, registered for its descriptor; one that fails changes nothing |
| RuntimeOrder.FinishGoesOn | src/framework.c:413-440 | a resumed wrapper waits again exactly if its call was made and refused, else its descriptor is unregistered and the routine runs on |
| RuntimeOrder.ExitEnds | src/framework.c:41-57 | the end of a routine puts its coroutine at the head of the free list and closes and unregisters its connection; what else it had open is lost |
| RuntimeOrder.LeavesWhen | src/framework.c:249-301 | the loop leaves exactly if it is to stop and no coroutine is live |
| RuntimeOrder.RoundTrims | src/framework.c:306-308 | a round of a loop that is not to stop frees idle coroutines: as many as it is told to, none that the minimum needs, and fewer only if nothing idle is kept |
| RuntimeOrder.StoppingTrims | src/framework.c:297-308 | a round of a loop that is to stop and cannot yet keeps exactly the live coroutines |
| RuntimeOrder.StoppingCloses | src/framework.c:252-292 | told to stop, the loop closes and unregisters its listening sockets and no other descriptor |
| RuntimeExamples.LeavesOneQueued | src/framework.c:178-301 | a run from the start that leaves with a connection queued |
| RuntimeExamples.SecondCloseHappens | src/framework.c:41-57 | a run from the start in which the end of a routine takes away the registration of another that goes on waiting |
| EdgePoll.Poll.constructor | src/epollet.c:330-390 | an empty registry of capacity at least 128 and at least the request |
| EdgePoll.Poll.Expand | src/epollet.c:47-97 | the registry is unchanged however the three reallocations go, and the descriptor fits on success |
| EdgePoll.Poll.Associate | src/epollet.c:99-155 | the registry with the descriptor re-armed or new, filled if an event is on record, and the answer for each outcome |
| EdgePoll.Poll.Dissociate | src/epollet.c:157-231 | the registry without the descriptor on close, else with it waiting for nothing and unfilled; the answer is that of the deletion, 0 without one |
| EdgePoll.Poll.Forget | src/framework.c:268 | closing a descriptor makes the kernel forget it and leaves the registry as it is |
| EdgePoll.Poll.Unset | src/epollet.c:233-269 | the events are used up, and the descriptor leaves the filled ones if nothing is left to deliver |
| EdgePoll.Poll.Wait | src/epollet.c:271-317 | the kernel is asked only when nothing is filled; the events returned are the pending ones of distinct filled descriptors, all of them if there is room |
| EdgePoll.FreshSlotExists | src/epollet.c:112-118 | a new descriptor below the capacity always finds a free item |
| EdgePoll.SwapKeeps | src/epollet.c:139-150 | swapping two items keeps index and items mutually inverse |
| EdgePoll.CoverKeeps | src/epollet.c:182-195 | the first move of a removal takes the descriptor out of the filled zone |
| EdgePoll.FillHoleKeeps | src/epollet.c:197-204 | the second move closes the hole and changes no other entry |
| EdgeHistory.PendingBits | src/epollet.c:310-315 | an event is delivered if it is on record and waited for, or is an error or a hangup |
| EdgeHistory.RegistryIsHistory | src/epollet.c:99-317 | after every run the registry holds what its calls and reports say: who is registered, what for, with which pointer, and which events were reported and not used up since |
| EdgeHistory.DueIsDelivered | src/epollet.c:99-317 | in every run in which kernel adds succeed, a waiting descriptor with an event due is set aside with that event and its pointer |
| EdgeHistory.DeliveredIsDue | src/epollet.c:99-317 | in every run that dissociates before re-associating with another mask, what is set aside has an event due, and delivers only such |
| EdgeHistory.ReaderIsTold | src/epollet.c:285-315 | a reader reported readable is set aside with POLLIN and its pointer |
| EdgeSpec.StepKeepsSound | src/epollet.c:99-317 | one call, or the closing of a descriptor, leaves a registered descriptor without its wakeups if and only if the kernel refuses a new descriptor or a registered one is closed |
| EdgeSpec.OrphanStays | src/epollet.c:99-317 | a registered descriptor that is not watched stays so, its record never growing, unless it is dissociated on close |
| EdgeSpec.OrphanWaitsForEver | src/epollet.c:99-317 | in every run of calls and closings from there without such a dissociation, nothing it waits for other than writability is ever on record |
| EdgeSpec.RunsServeAll | src/epollet.c:99-317 | in every run in which the kernel takes every new descriptor and only unregistered ones are closed, every waiting descriptor outside the filled ones is watched and has no matching event on record |
| EdgeSpec.RefusedReader | src/epollet.c:112-134 | a descriptor refused for reading and associated again: registered, waiting, unwatched, and no recorded event undelivered |
| EdgePoll.RefusedAndRetried | src/epollet.c:99-155 | the refused association answers -1, the retry 0, and the descriptor is not watched |
| EdgeSpec.ReusedNumber | src/framework.c:267-268 | a reader dissociated without onclose and closed, its number associated again: registered, waiting, unwatched, though every addition succeeded |
| EdgePoll.ReusedAndUnwatched | src/epollet.c:130-212 | every call of that run answers 0, and the descriptor is not watched |
| EdgeSpec.StepKeepsWakeups | src/epollet.c:112-154 | one call leaves a matching event on record undelivered if and only if the kernel refuses a new descriptor that asked for writability |
| EdgeSpec.StepKeepsReady | src/epollet.c:130-154 | one call leaves an empty event to be delivered if and only if it re-arms a filled descriptor with a mask none of its events match |
| EdgeSpec.RearmedReader | src/epollet.c:130-154 | the two calls that do it |
| EdgeSpec.StepKeepsAllWait | src/epollet.c:99-317 | one call sets aside a descriptor that waits for nothing if and only if it associates a filled or broken one with an empty mask, or the kernel reports one that is then broken, by POLLERR or POLLHUP |
| EdgeSpec.HangupForNobody | src/epollet.c:210-317 | a dissociated descriptor that hangs up is set aside with POLLHUP to deliver to its old pointer |
| EdgeSpec.RunsLoseNoWakeup | src/epollet.c:99-317 | in every run in which kernel adds succeed, no waiting descriptor outside the filled ones has a matching event on record |
| EdgeSpec.BlocksOnlyWhenIdle | src/epollet.c:279-280 | so the kernel is asked only when no waiting descriptor has a matching event |
| EdgeSpec.RunsStayReady | src/epollet.c:99-317 | in every run that dissociates before re-associating with another mask, every filled descriptor has an event to deliver |
| PollSet.Poll.Associate | src/poll.c:85-116 | the registry with the descriptor's events and pointer, unchanged when growth fails |
| PollSet.Poll.Dissociate | src/poll.c:118-155 | the registry without the descriptor |
| PollSet.Poll.Expand | src/poll.c:41-83 | the registry is unchanged however the two reallocations go |
| PollSet.Poll.Wait | src/poll.c:162-189 | the first ready places in array order, as many as fit, each event with what happened there and the pointer of its descriptor; ready places left out come later |
| PollSet.FreePlaceExists | src/poll.c:103-107 | a new descriptor below the capacity always finds a free place |
| PollSet.LastCovers | src/poll.c:136-152 | moving the last place onto a removed one removes that descriptor and no other |
| BufferIO.Buffer.constructor | src/structure/buffer.c:24-41 | an empty buffer of the least sufficient power of two |
| BufferIO.Buffer.Expand | src/structure/buffer.c:43-62 | the same bytes with room for more, or nothing changed |
| BufferIO.Buffer.Append | src/structure/buffer.c:64-78 | the bytes added at the end, after one expansion at most |
| BufferIO.Buffer.Clear | src/structure/buffer.c:80-90 | an empty buffer without memory |
| BufferIO.SafeRead | src/structure/bufferio.c:25-49 | without failures the next bytes of the source, at least as many as asked for unless it ends, whatever the chunking and the stalls; after a failure the answer of the call that failed |
| BufferIO.SafeWrite | src/structure/bufferio.c:51-69 | all the bytes in order, or a proper prefix of them and a failure, answered as the call that failed did |
| BufferIO.Reader.Read | src/structure/bufferio.c:97-135 | the next bytes of the stream, as many as asked for or all there are; what is left is the rest; the value returned is the number delivered if and only if no refill was needed or nothing was buffered |
| BufferIO.ShortAnswer | src/structure/bufferio.c:97-135 | a read of three bytes that delivers the last two and answers zero |
| BufferIO.Reader.Skip | src/structure/bufferio.c:137-161 | without failures the stream without its next bytes, or no return exactly when more is to be skipped than the stream or the buffer allows |
| BufferIO.Reader.SkipRound | src/structure/bufferio.c:151-158 | a round at the end of the stream makes no progress and changes nothing |
| BufferIO.Reader.SkipRounds | src/structure/bufferio.c:151-158 | so after any number of rounds as much remains to be skipped |
| BufferIO.ReadSession | src/structure/bufferio.c:97-161 | any error-free sequence of reads and skips sees exactly the plain byte stream, and leaves the rest of it |
| BufferIO.Writer.Write | src/structure/bufferio.c:188-206 | without failures sent and buffered bytes together grow by what was written; otherwise which parts of buffer and data the descriptor took, and what is kept |
| BufferIO.Writer.Flush | src/structure/bufferio.c:208-222 | everything written is sent and the buffer is empty; after a failure the descriptor has a proper prefix, and the buffer is kept if the answer is negative and lost if it is zero |
| BufferIO.FlushAgain | src/structure/bufferio.c:208-222 | a flush tried again after a failure sends what the first try sent once more; the descriptor has what was written if and only if that was nothing |
| BufferIO.WriteSession | src/structure/bufferio.c:188-222 | an error-free sequence of writes and a flush sends their concatenation |
| FastCgi.Render | src/fastcgi.c:257-277 | the pieces of the header block that could be appended, all of them if there was memory |
| FastCgi.Content | src/fastcgi.c:305-322 | the goto loop writes the next bytes of the two buffers, as many as the record holds, and never reaches the NULL buffer |
| FastCgi.Records | src/fastcgi.c:294-327 | the buffers go out as padded standard-output records |
| FastCgiHeaders.BlockReadsBack | src/fastcgi.c:257-277 | a reader of lines gets exactly the names and values of the table, in order, and what follows the block, for all names without a colon and names and values without line ends |
| FastCgiHeaders.ResponseReadsBack | src/fastcgi.c:242-343 | so it does on the content of the records of a whole response |
| FastCgi.WriteResponse | src/fastcgi.c:242-343 | on an error-free sink exactly the records of the appended header pieces and the body, then the end of the request |
| FastCgi.RecordDecodes | src/fastcgi.c:288-303 | a record written by the program reads back by section 3.3 of the FastCGI Specification 1.0 |
| FastCgi.ResponseDecodes | src/fastcgi.c:288-336 | for every content and request id the bytes decode to standard-output records of 1 to 65535 bytes padded to a multiple of 8, whose contents concatenate to the content, and one FCGI_END_REQUEST |
| FastCgiParams.ReadLength | src/fastcgi.c:32-43 | a length of one or four bytes by section 3.4, or that it would be read beyond the block |
| FastCgiParams.ReadPair | src/fastcgi.c:31-49 | the pair at a place of the block, or that it would be read beyond it |
| FastCgiParams.LengthBytes | src/fastcgi.c:32-43 | one byte below 128, else 31 bits in four bytes, the highest first |
| FastCgiParams.PairBytes | src/fastcgi.c:31-49 | the length of the name, that of the value, the name, the value |
| FastCgiParams.DecodeEncode | src/fastcgi.c:26-53 | decoding an encoded list of pairs gives the list, for every choice of length sizes |
| FastCgiParams.EncodeDecode | src/fastcgi.c:26-53 | the blocks of whole pairs are exactly the encodings |
| FastCgiParams.OutcomeIsDecode | src/fastcgi.c:26-53 | the parser stays inside a block if and only if it is made of whole pairs, up to a name of length zero |
| FastCgiParams.StopsAtFirst | src/fastcgi.c:26-53 | every block is the encoding of the pairs read and then nothing, a pair without a name, or bytes that are no whole pair, as the outcome says |
| FastCgiParams.TruncatedBlock | src/fastcgi.c:26-53 | three bytes beyond which it reads |
| FastCgiParams.ParseParams | src/fastcgi.c:26-53 | on any bytes the parser stops as stated; a block of whole pairs with names is read exactly to its end, and under each name the table has the value of its last pair, under all others what it had |
| FastCgiParams.ParseEncoded | src/fastcgi.c:26-53 | every encoded list of pairs is read exactly to its end if all have names, else up to the first without; the table then has the value of the last pair of each name |
| FastCgiParams.LastPairDecides | src/fastcgi.c:50 | the value kept under a name is that of its last pair, NULL for an empty value |

## Left out

- Redis client (`src/redis.c`): network client code whose refill paths advance differently.
- HTTP client (`src/http.c`): unfinished, and parsing mixed with I/O.
- Reading a FastCGI request (`fcgi_read_request`): its loops do not follow the protocol, and one variable is read uninitialised.
- `src/epoll.c` and `src/port.c`: thin wrappers over system calls; the first is the registry semantics of `Runtime.dfy`.
- `src/structure/vector.c`, `headertab.c`, `string.c`: header values are sequences, strings are byte sequences.
- String table failures: `ef_stringtab_set` dereferences a NULL string when an empty value cannot be stored; `FastCgiParams.ParseParams` takes memory as given.
- `src/i386/fiber.s`: a second variant of the switch.
- `src/basic/basic.c`, `src/main.c`, signal installation, `mmap`, `fcntl`, `accept`: environment.
- Keys of length zero, which the string constructor measures with `strlen`, and requested capacities beyond 2^31.
- HashTable.Table.Free: the loop counter is a signed 32-bit number in the source; here it does not overflow at capacity 2^31.
- EdgePoll.Poll.Expand: the doubling of the capacity is not limited to 32 bits; the same for PollSet.
- EdgePoll.Poll.Dissociate: the kernel's deletion is taken to fail only for a descriptor it does not watch; closing a duplicated descriptor, which the kernel goes on watching, is not modelled.
- FiberMachine.Cpu: memory is word cells at 8-byte steps; unaligned access and the flags' own meaning are not modelled.
- FiberRuns.Fibers.Resume: targets on the parent chain are excluded, as the source expects of its callers; a step takes effect when the swap is done, and its pushes are taken to lie in mapped memory.
- FiberStack.Stack.Expand: masking with minus the page size is rounding down, for a page size that is a power of two; here it is any size.
- Pool.CoroutinePool: the lists are sequences here; their links are in `RingList.dfy`. Headers larger than the pool entry are not modelled.
- Runtime.Step: the loop is a function on a state value and not a method, for it interleaves with routines; the batch size of 1024 is any size; nested coroutines started by routines are not modelled.
- Runtime.CallKeeps: the branch in which association reports a ready descriptor at once does not occur with the epoll backend.
- BufferIO.SafeRead: zero without an error number is the end of the stream, as `read` has it; a descriptor that answers so and later has more bytes is not modelled.
- FastCgi.Render: the whole header block is at most 2^63 bytes. Names and values are written as they are, so a line end in a value ends its line.
- Runtime.LastTryAnswers: the wrappers of recv and send keep their answer in an int; here it has any size.
- FastCgiParams.ParseParams: what follows a name of length zero or a read beyond the block is not modelled; the map is stated for a table with room for as many entries as the block has bytes.
- FastCgi.WriteResponse: without a header table the source reads an uninitialised length; there always is one here.
