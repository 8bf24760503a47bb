# Verified model of the mojito-sys native substrate

This project models the concurrent protocols and index structures of the C layer in
`native/posix/` and proves what their comments and header promise, over every run and for any
number of threads. It holds Dafny 4.11 sources only; `dafny verify dfyconfig.toml` checks all of it.

How the parts are modelled:

- A protocol is a state machine. One step is what one thread does between two points where another
  can interfere (a mutex-protected section, or one atomic access). The environment chooses
  everything else: scheduling, spurious wakes, expiries, host failures, how much the kernel takes.
  A run is a pair of sequences, states and steps, and the theorems quantify over all runs.
- Code that updates memory in place is also modelled in place: the intrusive waiter list with its
  pointer-to-pointer tail, the submission ring with wrapping indices, the poller tables, the
  registries and the handle are classes, and each method is proved equal to the function or step
  that the run theorems are about.
- Host contracts follow POSIX.1-2017, System Interfaces: condition waits may wake spuriously, a
  signal unblocks at least one waiter, the mutex is held again on every return, a new TLS key reads
  NULL in every thread, a join succeeds only on an ended thread.

| files | component |
|---|---|
| `WaitQueue`, `WaiterList`, `SlotProtocol`, `WaitTable`, `WaitReturns` | address-keyed wait table |
| `SubmissionRing`, `Uring`, `UringRuns`, `UringTheorems`, `UringAnswers`, `UringRemovals`, `UringDrains`, `UringOwners`, `UringWake`, `UringZero`, `UringPoller`, `UringLedger` | io_uring backend |
| `EpollTable`, `Epoll`, `EpollTheorems`, `EpollAnswers`, `EpollFiles`, `EpollWitnesses` | epoll backend |
| `Semaphore`, `Event` | monitors |
| `TlsRegistry`, `ThreadHandle`, `StackLayout`, `StackRegistry` | lifecycle machines |
| `Clock` | tick scaling |
| `Arithmetic`, `Errno`, `PollTypes`, `Wrappers` | shared vocabulary |

Properties that do not hold of the code are stated with their exact condition, and with a run from
the initial state that breaks them:

- A remove operation completes under `user_data` 0, which is also the mark of a row that waits to be
  re-armed: `UringZero.WaitIgnoresZeroesIff`; a duplicate event in `ZeroCompletionCounterexample`, a
  registration lost in `FailedRemovalRetiresAnother`.
- A retried upsert or unregister sends its removal again: `UringRemovals.OneRemovalPerDroppedPoll`;
  `RetryRemovesTwice`.
- Kernel registrations can outlive an unregister when a duplicate keeps the file open:
  `EpollTheorems.KernelInsideTableIff`; `EpollWitnesses.RegistrationOutlivesUnregister`.
- Such a registration can report the old file under the token of the number's new file:
  `EpollFiles.TokensMeanFilesIff`; `EpollWitnesses.StaleReadinessUnderNewToken`.
- `mjs_epoll_unregister` uses the probe's sentinel as an index when the table has no empty cell and
  the descriptor is absent: `EpollTheorems.UnregisterInRangeIff`; `EpollWitnesses.FullTableIsReached`.
- A failed untimed condition wait can strand a permit or token: `Semaphore.NeverIdleIff` and
  `Event.NeverIdleIff`; `FailedWaitStrandsPermit` and `FailedWaitStrandsToken`.
- A failed detach leaks the handle: `ThreadHandle.RefusedIff` and `FailedDetachLeaks`;
  `FailedDetachWitness`.
- A rollback the host refuses leaks a stack region: `StackRegistry.NoLeakIff`;
  `RefusedRollbackWitness`.

Where comments and code differ the model follows the code: the epoll sentinel is returned whenever
no empty cell is left, not only when the table is entirely full (`native/posix/mjs_epoll.c:79-94`);
sequence numbers start at the first-sequence constant and grow, they are not below it
(`native/posix/mjs_iouring.c:94-99`); a guard size that is zero or not a page multiple is refused,
not rounded (`native/posix/mjs_stack.c:23-25`, 92-98).

## Model

| member | source | states |
|---|---|---|
| `WaitTable.LostWakeupFreedom` | native/posix/mjs_atomic_wait.c:196-264 | over every run: once a wake_all on an address has completed, and for as long as the word differs from e, no waiter expecting e is parked there unmarked, and none is about to park |
| `WaitReturns.WaitReturnsOnlyWhen` | native/posix/mjs_atomic_wait.c:196-231 | told from the run's stores and calls: a wait returns without a handoff only with 0, when its check finds the word as last stored different from the value its own call expected, or with the error of a condition wait no wake has marked; a handoff returns 0 to a marked thread |
| `WaitReturns.WaitGoesOn` | native/posix/mjs_atomic_wait.c:203-230 | the converse: an equal word makes the wait ready to sleep, a different one returns 0; the sleep links the record last, unmarked, and frees the mutex; an unmarked return of the condition wait unlinks the record and goes back to the check, or returns its error |
| `WaitReturns.WordIsLatestStore` | native/posix/mjs_atomic_wait.c:203-207 | the word a check reads is what was last stored to its address |
| `WaitReturns.PhaseIsLatestCall` | native/posix/mjs_atomic_wait.c:196-212 | a thread inside a wait is inside its latest call, with that address and expected value |
| `WaitReturns.EnterLocks` | native/posix/mjs_atomic_wait.c:196-202 | entering takes the slot mutex and returns nothing yet |
| `WaitReturns.SleepsAndIsWoken` | native/posix/mjs_atomic_wait.c:196-264 | a run in which a wait sleeps, is counted by a wake_one and returns 0 by handoff |
| `WaitTable.HandoffAccounting` | native/posix/mjs_atomic_wait.c:203-264 | at every point, per address: the wake counts returned sum to the waits that returned by handoff plus the marked threads still to resume; every marked thread has been sent a broadcast; every handoff returned 0 |
| `WaitTable.MarksAreKept` | native/posix/mjs_atomic_wait.c:203-264 | over every run a marked thread stays marked, whatever stores, wakes, expiries and other waits come between, until its own condition wait returns; the wait then returns 0 whatever status it reports |
| `WaitTable.WakeBeatsTimeout` | native/posix/mjs_atomic_wait.c:215-227 | at that return no other mark and no list entry changes |
| `WaitTable.WakesAreExact` | native/posix/mjs_atomic_wait.c:233-264 | a wake returns exactly the number of threads it takes: all those of its address, or the one whose latest link is oldest |
| `WaitTable.WakesNeverSteal` | native/posix/mjs_atomic_wait.c:121-130 | a wake leaves waiters, marks and list order of every other address untouched, in every slot, colliding addresses included |
| `WaitTable.NoDanglingRecord` | native/posix/mjs_atomic_wait.c:202-231 | a record is in a list exactly while its own wait is parked unmarked, in the slot of its address only; none outlives its wait |
| `WaitTable.RunKeeps` | native/posix/mjs_atomic_wait.c:196-264 | every slot keeps the list, mutex, mark and account invariants over every run; a thread is inside one wait at a time |
| `WaitTable.SlotOf` | native/posix/mjs_atomic_wait.c:170-175 | the slot chosen for an address is one of the 256 |
| `SlotProtocol.StepKeeps` | native/posix/mjs_atomic_wait.c:196-264 | every step of every thread keeps list, mutex, marks and accounts in agreement |
| `SlotProtocol.WakeAllQuiets` | native/posix/mjs_atomic_wait.c:236-264 | right after a wake_all nobody sleeps on the address, whatever value was expected |
| `SlotProtocol.QuietPersists` | native/posix/mjs_atomic_wait.c:203-231 | while the word differs from e no step puts a waiter for e to sleep |
| `SlotProtocol.WakeIsExact` | native/posix/mjs_atomic_wait.c:241-263 | the number a wake returns is the size of the set of threads that stop waiting |
| `SlotProtocol.WakeOneIsFifo` | native/posix/mjs_atomic_wait.c:243-258 | wake_one takes the waiter whose latest link is oldest (a spurious wake re-links at the tail) |
| `SlotProtocol.NoStealing` | native/posix/mjs_atomic_wait.c:243-258 | a wake on one address changes nothing for another in the same slot |
| `WaitQueue.WakeSplitsQueue` | native/posix/mjs_atomic_wait.c:241-258 | a wake takes a prefix of its address's sub-list and keeps every other sub-list |
| `WaitQueue.WakePartitions` | native/posix/mjs_atomic_wait.c:241-258 | every record is kept or handed off, none is lost or invented |
| `WaitQueue.RemoveIsExact` | native/posix/mjs_atomic_wait.c:184-194 | unlink removes the one record asked for and nothing else |
| `WaitQueue.RemoveLeavesOthers` | native/posix/mjs_atomic_wait.c:184-194 | unlink leaves other addresses' order alone |
| `WaitQueue.WakeOneTakesOldest` | native/posix/mjs_atomic_wait.c:256-257 | the first match is the oldest link of its address |
| `WaiterList.Slot.Link` | native/posix/mjs_atomic_wait.c:177-182 | through the tail pointer: appends one record and keeps the intrusive list well formed |
| `WaiterList.Slot.Unlink` | native/posix/mjs_atomic_wait.c:184-194 | the pointer-to-pointer walk: the list becomes the old one without that record; an absent record changes nothing |
| `WaiterList.Slot.Excise` | native/posix/mjs_atomic_wait.c:186-190 | taking out the record behind a link cell repairs head, predecessor and tail |
| `WaiterList.Slot.HandOff` | native/posix/mjs_atomic_wait.c:249-255 | the taken record is marked, out of the list, its link cleared |
| `WaiterList.Slot.Wake` | native/posix/mjs_atomic_wait.c:236-264 | the in-place scan leaves exactly the kept records, marks exactly those handed off and returns their number |
| `SubmissionRing.Ring.Conservation` | native/posix/mjs_iouring.c:206-243 | what was staged is what the kernel has read followed by what the ring memory still holds, in order, each once |
| `SubmissionRing.Drive` | native/posix/mjs_iouring.c:206-243 | the same for any script of stagings and enters (short, failed, or none) on any power-of-two ring, across 32-bit wrap |
| `SubmissionRing.Ring.Stage` | native/posix/mjs_iouring.c:206-219 | an entry is accepted exactly when fewer than the ring size are pending; a full ring is unchanged |
| `SubmissionRing.Ring.Fill` | native/posix/mjs_iouring.c:213-216 | writing the masked cell adds the entry and disturbs no pending one |
| `SubmissionRing.Ring.Pending` | native/posix/mjs_iouring.c:234-234 | the difference of the wrapped indices is the true number of pending entries |
| `SubmissionRing.Ring.Submit` | native/posix/mjs_iouring.c:231-243 | publishing the tail lets the kernel take a prefix of the pending entries; the return is its count or error; nothing staged changes |
| `SubmissionRing.Ring.KernelReads` | native/posix/mjs_iouring.c:206-243 | reading through head, mask and index array yields the staged entries in order |
| `SubmissionRing.DistanceSurvivesWrap` | native/posix/mjs_iouring.c:212-212 | 32-bit subtraction of wrapped indices is the true distance |
| `SubmissionRing.MaskSurvivesWrap` | native/posix/mjs_iouring.c:210-210 | masking a wrapped index reaches the cell of the true position |
| `SubmissionRing.CellsDistinct` | native/posix/mjs_iouring.c:210-216 | within one ring length no two positions share a cell |
| `UringTheorems.OnePollPerRegistration` | native/posix/mjs_iouring.c:542-621 | over every run each live row with a nonzero number has exactly one outstanding poll, watching what the row asks for; live numbers are distinct and never a sentinel |
| `UringTheorems.WaitBlocksFullyArmed` | native/posix/mjs_iouring.c:726-771 | when a wait reaches its blocking submit every live registration and the wake have their poll outstanding |
| `UringTheorems.DeliveriesAreFaithful` | native/posix/mjs_iouring.c:627-705 | every event delivered under a nonzero number carries the fd and token it was issued for, and no number delivers twice |
| `UringTheorems.SupersededPollsStaySilent` | native/posix/mjs_iouring.c:660-698 | a number that is re-armed, replaced or dropped never comes alive or delivers again |
| `UringTheorems.RegisterTakesEffect` | native/posix/mjs_iouring.c:542-587 | a register that returns 0 put the descriptor, with the caller's token and interests and a fresh number, into its own or an empty row, sent the new poll and, for its own row, the removal of exactly the poll that row had, and left every other row alone; one that fails left the table alone |
| `UringAnswers.RegisterAnswers` | native/posix/mjs_iouring.c:542-587 | every answer of register, in order: the caller's errors, -ENOSPC exactly when every row is live, then for its own row -EAGAIN exactly without room for two requests, for an empty row after one flush, else the enter's error or 0 |
| `UringAnswers.UnregisterAnswers` | native/posix/mjs_iouring.c:600-621 | every answer of unregister |
| `UringRemovals.OneRemovalPerDroppedPoll` | native/posix/mjs_iouring.c:561-577 | over every run the removals sent for a number are those of calls that sent one and then failed, plus exactly one if a register or unregister has taken the number out of the table |
| `UringRemovals.RetryRemovesTwice` | native/posix/mjs_iouring.c:612-617 | a run in which a retried unregister sends the removal twice |
| `UringAnswers.PollsAsk` | native/posix/mjs_iouring.c:190-200 | every poll in the ring or the kernel watches hangup, error and exactly what was asked when its number was issued, on that descriptor |
| `UringAnswers.WaitSends` | native/posix/mjs_iouring.c:725-769 | a wait blocks exactly when the ring has room for what it must send; it sends, in order, a fresh poll per fired row, the wake's if that fired, and for a timed wait one fresh timeout after the removal of a stale one; no row changes but for those numbers |
| `UringOwners.RowsAreTheCallers` | native/posix/mjs_iouring.c:578-585 | every live row holds descriptor, token and interests of the latest accepted register that took it |
| `UringOwners.EventsAreTheCallers` | native/posix/mjs_iouring.c:685-687 | every event delivered carries descriptor and token of the latest accepted register to take its row |
| `UringDrains.EventsSayWhatIsReady` | native/posix/mjs_iouring.c:674-688 | every event delivered reports a completion the drain met: readable, writable, end of file on hangup and error exactly as the kernel found the poll ready |
| `UringDrains.BufferIsNewDeliveries` | native/posix/mjs_iouring.c:627-705 | after a drain the caller's buffer is exactly the events of the deliveries it added, in order, and within its capacity |
| `UringDrains.ReadinessIsDelivered` | native/posix/mjs_iouring.c:674-689 | while there is room, readiness of a live armed row is delivered |
| `UringDrains.DrainDecidesRows` | native/posix/mjs_iouring.c:660-694 | without a remove operation's completion in the queue a live armed row is retired exactly when its poll failed, left to be re-armed exactly when it reported readiness, and otherwise untouched, as is every other row |
| `UringTheorems.UnregisterTakesEffect` | native/posix/mjs_iouring.c:600-621 | an unregister that returns 0 emptied the row its probe met and sent exactly that poll's removal, or did nothing because the probe missed the descriptor; one that fails left the table alone |
| `UringWake.WakesAreSticky` | native/posix/mjs_iouring.c:647-659 | over the run's own wakes and drains: the eventfd is nonzero exactly when a wake was called and no drain has met it since; a drain meets a wake, one, and clears it only then; between two drains that do there is another wake |
| `UringWake.CounterCountsWakes` | native/posix/mjs_iouring.c:783-796 | the eventfd counts the wakes since the last drain that met one, up to its ceiling |
| `UringWake.PendingWakeMeetsWait` | native/posix/mjs_iouring.c:737-771 | when a wait blocks with such a wake pending, its completion is posted or its one poll is staged or with the kernel, free to complete |
| `UringTheorems.OneWakePoll` | native/posix/mjs_iouring.c:522-535 | wake_armed holds exactly when one wake poll is outstanding, and a wake completion is undrained only while the eventfd is readable |
| `UringZero.WaitIgnoresZeroesIff` | native/posix/mjs_iouring.c:627-771 | a wait that blocked and drains has the events and table of a drain without the remove operations' completions exactly when none of them comes, in the completion queue, behind readiness of a live row and either failed or finds room |
| `UringZero.InStepUntilBitten` | native/posix/mjs_iouring.c:638-698 | the same for the drain of any state in which the rows to be re-armed are those that fired |
| `UringZero.BitesWithRoomIff` | native/posix/mjs_iouring.c:660-694 | with room for every completion that is: exactly when one of them comes behind readiness of a live row, failed or not |
| `UringZero.ZeroCompletionIsHarmlessIff` | native/posix/mjs_iouring.c:261-269 | one completion under user_data 0, with room left, leaves table and buffer alone exactly when no live row waits to be re-armed |
| `UringZero.FailedRemovalRetiresAnother` | native/posix/mjs_iouring.c:665-672 | a run from a new handle in which a removal that completes with an error silently retires a registration nobody dropped |
| `UringZero.ZeroCompletionCounterexample` | native/posix/mjs_iouring.c:660-694 | a run from a new handle in which one drain reports a descriptor twice, the second time because of a remove's completion |
| `UringTheorems.RunKeeps` | native/posix/mjs_iouring.c:542-796 | the backend's invariant holds at every point of every run below the counter's wrap |
| `UringTheorems.RunEvolves` | native/posix/mjs_iouring.c:542-771 | over any stretch of a run only fresh numbers become live, and only live or fresh ones deliver |
| `UringRuns.StepKeeps` | native/posix/mjs_iouring.c:542-796 | every entry point and every kernel move keeps numbers, outstanding polls, rows, deliveries and the wake in agreement |
| `UringRuns.RegisterKeeps` | native/posix/mjs_iouring.c:542-587 | register keeps the invariant on every path, failed upserts with a staged remove included |
| `UringRuns.UnregisterKeeps` | native/posix/mjs_iouring.c:600-621 | unregister keeps it on every path |
| `UringRuns.DrainOneKeeps` | native/posix/mjs_iouring.c:638-698 | consuming any completion keeps it: wake, timeout, stale, failed or delivered |
| `UringRuns.ArmKeeps` | native/posix/mjs_iouring.c:726-765 | arming a wait keeps it and, if it completes, leaves every live row armed |
| `UringPoller.Poller.constructor` | native/posix/mjs_iouring.c:487-535 | a new handle, its wake poll gone through the ring memory, is an initial state of the run model |
| `UringPoller.Poller.Slot` | native/posix/mjs_iouring.c:168-178 | the bounded probe loop computes the model's probe |
| `UringPoller.Poller.StageSqe` | native/posix/mjs_iouring.c:246-297 | fills and publishes the masked cell of the shared ring exactly when it is not full; what is staged is what the ring memory holds |
| `UringPoller.Poller.SubmitStaged` | native/posix/mjs_iouring.c:231-243 | an enter publishes the tail; the kernel takes a prefix of the ring memory through the shared head and answers a count or an error |
| `UringPoller.Poller.StageAndSubmitPoll` | native/posix/mjs_iouring.c:304-318 | stages and submits one poll, flushing a full ring once |
| `UringPoller.Poller.TakeSeq` | native/posix/mjs_iouring.c:158-163 | hands out the next number and records what for |
| `UringPoller.Poller.Register` | native/posix/mjs_iouring.c:542-587 | in place, on every branch: the run model's register |
| `UringPoller.Poller.ReplaceAt` | native/posix/mjs_iouring.c:561-577 | the upsert path: remove, add, submit, then the row |
| `UringPoller.Poller.InstallAt` | native/posix/mjs_iouring.c:578-586 | the insertion path |
| `UringPoller.Poller.Unregister` | native/posix/mjs_iouring.c:600-621 | in place, on every branch: the run model's unregister |
| `UringPoller.Poller.RearmAll` | native/posix/mjs_iouring.c:726-736 | the re-arm loop, stopping at a full ring with the earlier rows re-armed |
| `UringPoller.Poller.RearmRow` | native/posix/mjs_iouring.c:728-733 | one row re-armed under a fresh number, or the loop stopped by a full ring |
| `UringPoller.Poller.RearmWakePoll` | native/posix/mjs_iouring.c:738-744 | the wake poll is staged again if it fired |
| `UringPoller.Poller.ArmFreshTimeout` | native/posix/mjs_iouring.c:749-765 | a stale timeout is removed before a fresh one is staged |
| `UringPoller.Poller.ArmForWait` | native/posix/mjs_iouring.c:726-765 | a wait up to its blocking submit |
| `UringPoller.Poller.RowOf` | native/posix/mjs_iouring.c:663-664 | the scan finds the first live row with the completion's number |
| `UringPoller.Poller.DrainCq` | native/posix/mjs_iouring.c:627-705 | the drain loop is the model's drain of all posted completions |
| `UringPoller.Poller.DrainHead` | native/posix/mjs_iouring.c:639-698 | one completion, on every branch |
| `UringPoller.Poller.FireRow` | native/posix/mjs_iouring.c:674-691 | an event while there is room, and the row left to be re-armed |
| `UringPoller.Poller.Wake` | native/posix/mjs_iouring.c:783-796 | raises the eventfd, which stays at its ceiling |
| `UringLedger.Create` | native/posix/mjs_iouring.c:450-539 | there is no handle exactly when the capability is missing or the host refused something; then the process owns exactly what it owned before; otherwise it owns two descriptors, three mappings under their recorded lengths, four arrays and the handle, all new |
| `UringLedger.Close` | native/posix/mjs_iouring.c:807-825 | gives back exactly what a finished handle stands for, each thing once, each mapping with its recorded length |
| `UringLedger.CreateThenClose` | native/posix/mjs_iouring.c:450-825 | create followed by close leaves descriptors, mappings and blocks as they were |
| `UringLedger.Rings.UnmapAll` | native/posix/mjs_iouring.c:369-385 | from any point of construction releases exactly the recorded mappings and records none |
| `UringLedger.UnmapTwice` | native/posix/mjs_iouring.c:367-385 | unmapping twice is unmapping once |
| `UringLedger.Rings.MapAll` | native/posix/mjs_iouring.c:388-448 | maps all three regions under their lengths, or leaves nothing mapped |
| `UringLedger.Abandon` | native/posix/mjs_iouring.c:492-534 | the shared lower rungs of the error ladder give back all mappings, arrays, the descriptor and the handle |
| `UringLedger.StartWake` | native/posix/mjs_iouring.c:508-535 | the last rungs: the wake eventfd and its poll, or everything given back |
| `UringLedger.Arrays.AllocAll` | native/posix/mjs_iouring.c:488-493 | all four arrays are attempted; the result says whether all succeeded |
| `UringLedger.Arrays.FreeAll` | native/posix/mjs_iouring.c:496-499 | releases whichever of the four exist |
| `EpollTheorems.TableRefinesMap` | native/posix/mjs_epoll.c:83-101 | under any run the table agrees with the caller's map: lookup finds a descriptor exactly when the map has it, with its token; no duplicates; no gap before a live descriptor's cell |
| `EpollTheorems.LatestIsCallerMap` | native/posix/mjs_epoll.c:144-176 | the recorded tokens are those of the accepted registers and modifies not unregistered since |
| `EpollTheorems.FullExactlyWhenNoGap` | native/posix/mjs_epoll.c:155-160 | an otherwise valid register or modify gives -ENOSPC before the kernel is asked exactly when the descriptor is absent and no empty cell is left |
| `EpollTheorems.SetIsAllOrNothing` | native/posix/mjs_epoll.c:144-176 | register and modify either make the kernel watch exactly what was asked and record the token, touching no other registration, or change nothing at all |
| `EpollAnswers.RegisterAnswers` | native/posix/mjs_epoll.c:144-176 | every answer of register, in order, told from the caller's map and the kernel's registrations: an open descriptor with valid interests and room answers 0 whether or not the kernel has it, unless the kernel refuses the change or the addition it then needs |
| `EpollAnswers.ModifyAnswers` | native/posix/mjs_epoll.c:144-176 | every answer of modify: 0 only for a descriptor the kernel has under its present file, -ENOENT without one |
| `EpollAnswers.UnregisterAnswers` | native/posix/mjs_epoll.c:237-254 | -EBADF for a descriptor that is not open, 0 otherwise; only the descriptor's own registration goes |
| `EpollAnswers.WatchesAsAsked` | native/posix/mjs_epoll.c:129-141 | after an accepted register or modify the kernel watches the peer's hangup and exactly what was asked, and no other registration changes |
| `EpollAnswers.EventsSayWhatIsReady` | native/posix/mjs_epoll.c:291-331 | a wait delivers one event per known entry of the batch, in order and within capacity: descriptor, latest token, and readable, writable, end of file and error exactly as the kernel found them |
| `EpollTheorems.ModifyDoesNotUpsert` | native/posix/mjs_epoll.c:162-170 | modify without a kernel registration fails and changes nothing |
| `EpollTheorems.WaitDeliversLatestTokens` | native/posix/mjs_epoll.c:287-332 | with descriptors closed, duplicated and reused at any time, a wait delivers exactly the known reported descriptors, each with its latest token, and never the wake descriptor |
| `EpollTheorems.KernelInsideTableIff` | native/posix/mjs_epoll.c:237-254 | the kernel's registrations have stayed inside the table exactly when every unregister was made while its descriptor still meant the registered file |
| `EpollTheorems.StaysInsideIff` | native/posix/mjs_epoll.c:116-142 | one step keeps them inside exactly under that condition |
| `EpollTheorems.NothingDroppedIff` | native/posix/mjs_epoll.c:318-324 | no wait the kernel could answer drops a reported event exactly when its registrations are inside the table |
| `EpollTheorems.UnregisterIsCompleteIff` | native/posix/mjs_epoll.c:247-252 | unregister leaves no kernel registration under its number exactly when all belonged to the file the number now means |
| `EpollTheorems.DuplicateOutlivesUnregister` | native/posix/mjs_epoll.c:249-253 | from any state with a registered descriptor and a duplicate of it: close, then unregister, and the registration survives outside the table |
| `EpollWitnesses.RegistrationOutlivesUnregister` | native/posix/mjs_epoll.c:249-253 | a run from a new handle that does so: open, duplicate, register, close, unregister |
| `EpollTheorems.UnregisterInRangeIff` | native/posix/mjs_epoll.c:250-251 | the probed cell is in range exactly when the descriptor is present or an empty cell is left |
| `EpollWitnesses.FullTableIsReached` | native/posix/mjs_epoll.c:250-251 | a run from a new handle: 256 accepted registers, after which the probe for an open descriptor never registered answers the sentinel |
| `EpollFiles.TokensMeanFilesIff` | native/posix/mjs_epoll.c:144-176 | with descriptors closed, duplicated and reused, every kernel registration has stayed with the file its descriptor's token was given for exactly when every accepted register and modify found none of another file under its number |
| `EpollFiles.WaitsAreRightfulIff` | native/posix/mjs_epoll.c:291-328 | no wait the kernel could answer reports one file's readiness under another's token exactly when every registration is with its token's file |
| `EpollWitnesses.StaleReadinessUnderNewToken` | native/posix/mjs_epoll.c:291-328 | a run in which a wait does |
| `EpollTheorems.WakesAreSticky` | native/posix/mjs_epoll.c:287-346 | over the run's own wakes and waits: the eventfd is nonzero exactly when a wake was called and no wait has seen it since; a wait sees and clears one only then; between two waits that do there is another wake; an unseen wake can be reported to the next wait |
| `EpollTheorems.CounterCountsWakes` | native/posix/mjs_epoll.c:335-346 | the eventfd counts the wakes since the last wait that saw one, up to its ceiling |
| `EpollTheorems.CollectReady` | native/posix/mjs_epoll.c:291-331 | the delivery loop fills the buffer with what the caller is owed and reports whether the wake was seen |
| `Epoll.RunKeeps` | native/posix/mjs_epoll.c:116-346 | table, kernel list, descriptors and wake counts agree at every point of every run |
| `EpollTable.ProbeDecides` | native/posix/mjs_epoll.c:83-101 | on a sound table a probe decides membership, and returns the sentinel exactly when the descriptor is absent and no empty cell remains, tombstones or not |
| `EpollTable.InsertUpdatesMap` | native/posix/mjs_epoll.c:172-174 | writing at the probed cell updates the represented map at that key |
| `EpollTable.DeleteRemovesKey` | native/posix/mjs_epoll.c:250-252 | a tombstone removes one key and breaks no other descriptor's path |
| `EpollTable.LookupAgrees` | native/posix/mjs_epoll.c:321-324 | lookup agrees with the represented map |
| `EpollTable.Table.constructor` | native/posix/mjs_epoll.c:219-220 | a table of empty cells represents the empty map |
| `EpollTable.Table.Slot` | native/posix/mjs_epoll.c:83-101 | the probe loop with its counter and first tombstone computes the model's probe |
| `EpollTable.Table.Put` | native/posix/mjs_epoll.c:172-175 | in place: the represented map gains the entry |
| `EpollTable.Table.Drop` | native/posix/mjs_epoll.c:250-252 | in place: the represented map loses the key; the probed cell is in range exactly when the descriptor is present or an empty cell is left |
| `EpollTable.Table.Lookup` | native/posix/mjs_epoll.c:321-325 | finds exactly the represented tokens |
| `PollTypes.InterestsAre` | native/posix/mjs_epoll.c:103-111 | what may be asked for is readability, writability or both, and nothing else |
| `PollTypes.FlagsSay` | native/posix/mjs_epoll.c:309-316 | flags say readable, writable, end of file and error exactly as the kernel bits do |
| `PollTypes.WatchedAsk` | native/posix/mjs_epoll.c:129-137 | a mask watches the asked bits and the always-on ones, no less and no more |
| `PollTypes.InterestsRoundTrip` | native/posix/mjs_epoll.c:131-134 | registerable interests come back as exactly the flags asked for |
| `Semaphore.PermitConservation` | native/posix/mjs_sem.c:65-158 | over every run initial permits plus posts equal acquisitions plus the count, and a timed wait comes back empty only when its re-check saw no permit |
| `Semaphore.WaitAnswers` | native/posix/mjs_sem.c:101-142 | told from the call the thread made: when its condition wait returns, a timed waiter takes a visible permit whatever the status, else gives up with exactly that status or sleeps on; an untimed one gives up on any error |
| `Semaphore.CallAnswers` | native/posix/mjs_sem.c:89-158 | a wait takes a visible permit at once and else sleeps; try_wait never sleeps and answers -EBUSY without one; a post adds one permit and wakes whom it signals |
| `Semaphore.PostsAreCounted` | native/posix/mjs_sem.c:89-99 | the account over the run's own posts |
| `Semaphore.EachFailureStrandsAtMostOne` | native/posix/mjs_sem.c:89-158 | over every run, failing waits included: beside a sleeper the permits exceed the woken threads yet to re-check by at most the number of untimed waits that have failed |
| `Semaphore.NeverIdleIff` | native/posix/mjs_sem.c:89-158 | no permit has lain idle beside a sleeper at any point of a run exactly when every failing untimed wait left a woken thread for every permit, or nobody asleep |
| `Semaphore.NoIdlePermit` | native/posix/mjs_sem.c:89-158 | in every reachable state, despite barging, try_wait, spurious wakes and timeouts: without failures there are at least as many woken threads as permits beside a sleeper; permits beyond the number of failures have a woken thread whose next step takes one |
| `Semaphore.FailedWaitStrandsPermit` | native/posix/mjs_sem.c:107-112 | a run in which such a failure leaves a permit idle beside a sleeper |
| `Semaphore.Monitor.constructor` | native/posix/mjs_sem.c:65-87 | starts with the given permits and nobody waiting |
| `Semaphore.Monitor.DoPost` | native/posix/mjs_sem.c:89-99 | adds one permit and unblocks a waiter if there is one |
| `Semaphore.Monitor.Enter` | native/posix/mjs_sem.c:101-142 | takes a visible permit at once, barging included, else parks |
| `Semaphore.Monitor.ReCheck` | native/posix/mjs_sem.c:107-117 | the untimed re-check: an error wins over a visible permit |
| `Semaphore.Monitor.ReCheckTimed` | native/posix/mjs_sem.c:129-141 | the timed re-check: a visible permit wins over the expiry |
| `Semaphore.Monitor.TryEnter` | native/posix/mjs_sem.c:146-158 | takes a permit or answers -EBUSY without blocking |
| `Event.TokenConservation` | native/posix/mjs_event.c:77-133 | tokens stored equal tokens consumed plus the pending one; no timed wait came back empty over a pending token |
| `Event.WaitAnswers` | native/posix/mjs_event.c:77-118 | told from the call the thread made: a timed waiter consumes a visible token whatever the status, else gives up or sleeps on; an untimed one gives up on any error |
| `Event.CallAnswers` | native/posix/mjs_event.c:77-133 | a wait consumes a visible token at once and else sleeps; a signal stores and wakes, or changes nothing over a pending token |
| `Event.SignalsAreCounted` | native/posix/mjs_event.c:120-133 | the account over the run's own signals |
| `Event.IdleTokenNeedsFailure` | native/posix/mjs_event.c:77-133 | over every run: a token idle beside a sleeper, no woken thread left for it, is one over which an untimed wait failed while that same token was pending |
| `Event.NeverIdleIff` | native/posix/mjs_event.c:77-133 | no token has lain idle beside a sleeper at any point of a run exactly when no untimed wait failed as the last woken thread of a pending token with others asleep |
| `Event.NoIdleToken` | native/posix/mjs_event.c:77-133 | a pending token beside a parked waiter has a woken thread yet to re-check whose next step consumes it, although coalesced signals skip the condition variable, unless an untimed wait failed over that token |
| `Event.FailedWaitStrandsToken` | native/posix/mjs_event.c:83-88 | a run in which it does not |
| `Event.Monitor.DoSignal` | native/posix/mjs_event.c:120-133 | stores the one token and signals, or coalesces without signalling |
| `Event.Monitor.Enter` | native/posix/mjs_event.c:77-118 | consumes a pending token at once, else parks |
| `Event.Monitor.ReCheck` | native/posix/mjs_event.c:83-93 | the untimed re-check |
| `Event.Monitor.ReCheckTimed` | native/posix/mjs_event.c:102-117 | the timed re-check: a visible token wins over the expiry |
| `TlsRegistry.HostKeysPartition` | native/posix/mjs_tls.c:75-154 | in every reachable state of any interleaving the existing host keys split disjointly into those of live slots, unpublished creates, failed creates and destroys under way, each held once |
| `TlsRegistry.NoDeletedKeyTouched` | native/posix/mjs_tls.c:111-154 | no get, set or delete is handed a host key that does not exist, so a destroy that found its slot succeeds |
| `TlsRegistry.RegistryRefinesStore` | native/posix/mjs_tls.c:54-154 | every answer is one the simple per-thread store of never-reused ids allows, over every interleaving |
| `TlsRegistry.GetReturnsLatestSet` | native/posix/mjs_tls.c:111-135 | a get returns the thread's latest successful set under that id |
| `TlsRegistry.NewIdReadsNull` | native/posix/mjs_tls.c:75-121 | a new id reads NULL in every thread until set, even on a reused slot and host key |
| `TlsRegistry.StaleIdsStayDead` | native/posix/mjs_tls.c:11-19 | a destroyed id reads NULL and is refused by set and destroy for ever |
| `TlsRegistry.IdsNeverReused` | native/posix/mjs_tls.c:101-104 | two creates never return the same id, and none returns 0 |
| `TlsRegistry.CreateRefusedIff` | native/posix/mjs_tls.c:84-100 | a create is refused exactly when no slot is dead, the array is full and it cannot grow; otherwise a dead slot is taken over if there is one, and only else the registry grows, by one |
| `TlsRegistry.RunKeeps` | native/posix/mjs_tls.c:54-154 | one holder per host key and fresh, distinct slot ids at every point of every run |
| `TlsRegistry.PublishFills` | native/posix/mjs_tls.c:84-104 | publishing fills one slot that was not live and moves no live slot |
| `TlsRegistry.SlotTable.Locate` | native/posix/mjs_tls.c:54-59 | the scan for the live slot of an id |
| `TlsRegistry.SlotTable.Grow` | native/posix/mjs_tls.c:62-70 | doubles the array and keeps its contents |
| `TlsRegistry.SlotTable.Fill` | native/posix/mjs_tls.c:84-105 | the locked section of create in place: first dead slot, else a new one, growing when full, refusing when it cannot grow |
| `TlsRegistry.SlotTable.Release` | native/posix/mjs_tls.c:142-150 | the locked section of destroy in place |
| `ThreadHandle.FreedExactlyOnce` | native/posix/mjs_thread.c:51-72 | once trampoline and owner are at rest the handle has been freed exactly once if a join or detach succeeded, and is intact otherwise; at most one call ever succeeds |
| `ThreadHandle.NeverTouchedAfterFree` | native/posix/mjs_thread.c:51-171 | over every interleaving no step reads, writes or frees the handle after it was freed |
| `ThreadHandle.JoinPublishesEntryResult` | native/posix/mjs_thread.c:123-150 | a result is published only by a successful join and is what the entry returned |
| `ThreadHandle.RepliesAreExact` | native/posix/mjs_thread.c:123-171 | every answer of the owner's calls, told from the run: -EINVAL where the exchange is lost, the host's error from a join or detach it refused, 0 with exactly what the entry returned from a join that succeeded, 0 from such a detach |
| `ThreadHandle.FailedJoinRollsBack` | native/posix/mjs_thread.c:133-143 | a join that fails to reap leaves the handle held, joinable and referenced, and publishes nothing |
| `ThreadHandle.RefusedIff` | native/posix/mjs_thread.c:124-159 | the owner is turned away with -EINVAL exactly when the handle was consumed or a detach has failed |
| `ThreadHandle.FailedDetachLeaks` | native/posix/mjs_thread.c:163-165 | a failed detach is not rolled back: from then on no call succeeds and the handle is never freed |
| `ThreadHandle.FailedDetachWitness` | native/posix/mjs_thread.c:163-165 | a run from spawn: the host refuses the detach, both parties come to rest, and the handle is neither consumed nor freed |
| `ThreadHandle.RunKeeps` | native/posix/mjs_thread.c:51-171 | one reference per party that has not dropped it, and one free or pending free exactly when none is left |
| `ThreadHandle.Handle.constructor` | native/posix/mjs_thread.c:100-120 | a spawned handle is joinable with two references |
| `ThreadHandle.Handle.StoreStatus` | native/posix/mjs_thread.c:69-69 | the trampoline's store |
| `ThreadHandle.Handle.DropReference` | native/posix/mjs_thread.c:51-54 | the fetch_sub tells its caller to free exactly when it held the last reference |
| `ThreadHandle.Handle.Claim` | native/posix/mjs_thread.c:123-130 | the exchange is won exactly on a held, joinable handle |
| `ThreadHandle.Handle.RollBack` | native/posix/mjs_thread.c:139-142 | after a failed join the handle is joinable again |
| `ThreadHandle.Handle.Publish` | native/posix/mjs_thread.c:145-147 | reads the entry's result and clears the caller's pointer |
| `ThreadHandle.Handle.HandOver` | native/posix/mjs_thread.c:163-167 | clears the caller's pointer exactly when the host detached the thread |
| `ThreadHandle.Drive` | native/posix/mjs_thread.c:51-171 | any schedule of the two parties runs on the real fields, every access finding the handle not yet freed |
| `StackLayout.AcceptedPlansAreIdeal` | native/posix/mjs_stack.c:90-134 | for every accepted request no 64-bit operation wraps: the sizes are those of unbounded arithmetic |
| `StackLayout.AcceptedIff` | native/posix/mjs_stack.c:92-131 | a request is accepted exactly when its guard is a positive whole number of pages, guard plus rounded usable span is representable, and the commit size is not within a page of the top of the range |
| `StackLayout.CommitMissesGuard` | native/posix/mjs_stack.c:125-145 | the committed span is whole pages at the top, inside the usable span, covers the request or all there is, and misses the guard |
| `StackLayout.ContextAcceptsIff` | native/posix/ms_context.c:102-123 | a stack placed at a page boundary gives a context its span [guard_low, top) exactly when it ends below the last address; the context starts at the reported, 16-aligned top |
| `StackLayout.ContextTopIff` | native/posix/ms_context.c:104-119 | a context accepts a span exactly when it is not empty, starts and measures whole 16-byte units and ends below the top of the address space, and starts at its end |
| `StackLayout.CeilingIsLeast` | native/posix/mjs_stack.c:73-75 | round_up gives the least multiple that is not below its argument |
| `StackLayout.RoundUpExact` | native/posix/mjs_stack.c:73-75 | behind the wrap gates the 64-bit round_up is the unbounded one |
| `StackRegistry.LiveEntriesAreMappings` | native/posix/mjs_stack.c:153-208 | over any run of allocs and frees with failures, live entries are exactly the stacks handed out with exact lengths; they and the leaked regions are all that is mapped, without overlap |
| `StackRegistry.NoLeakIff` | native/posix/mjs_stack.c:144-168 | registry and host regions coincide exactly when the host refused no rollback's unmapping |
| `StackRegistry.RefusedRollbackWitness` | native/posix/mjs_stack.c:142-150 | a run whose first allocation leaves a mapped region no caller can free |
| `StackRegistry.LengthIsPeak` | native/posix/mjs_stack.c:54-58 | the registry is as long as the most stacks ever live at once |
| `StackRegistry.AllocIsExact` | native/posix/mjs_stack.c:77-182 | an allocation succeeds exactly when sizes, mapping, commit and registry room allow it, adds that one stack at a base not mapped before, and otherwise changes neither the live stacks nor the registry |
| `StackRegistry.RefusalsSayWhy` | native/posix/mjs_stack.c:90-169 | the status of every refusal, in the order the failures are met |
| `StackRegistry.FreeIsExact` | native/posix/mjs_stack.c:184-208 | a free succeeds exactly for a live base the host unmaps, and removes that region alone and whole; other bases are refused and change nothing |
| `StackRegistry.DoubleFreeRefused` | native/posix/mjs_stack.c:185-192 | a freed base is refused until an allocation returns it again |
| `StackRegistry.PlacedStacksCarryContexts` | native/posix/ms_context.c:116-122 | every stack handed out in a run that ends below the last address passes the context's geometry test and starts it at the reported top |
| `StackRegistry.Reservations.Locate` | native/posix/mjs_stack.c:155-160 | the scan for a free slot or a base |
| `StackRegistry.Reservations.Grow` | native/posix/mjs_stack.c:162-172 | doubles the array and keeps its contents |
| `StackRegistry.Reservations.Put` | native/posix/mjs_stack.c:154-176 | records in the first free slot, else at the end, growing when full |
| `StackRegistry.Reservations.AllocateStack` | native/posix/mjs_stack.c:77-182 | the whole allocation in place, every failure with its status |
| `StackRegistry.Reservations.FreeStack` | native/posix/mjs_stack.c:184-208 | the whole release in place |
| `Clock.Now` | native/posix/mjs_time.c:66-71 | the 64-bit reading is the exact one modulo 2^64, and no operation wraps if and only if the exact reading fits |
| `Clock.LaterReadsLater` | native/posix/mjs_time.c:61-80 | readings that fit are monotone in the tick count |
| `Clock.ScalingIdentity` | native/posix/mjs_time.c:23-27 | (t/d)*n + ((t%d)*n)/d is t*n/d rounded down |
| `Clock.Calibrated` | native/posix/mjs_time.c:46-54 | the timebase used is the host's exactly when the query succeeded with nonzero parts, and a ratio of one otherwise |
| `Clock.Resolution` | native/posix/mjs_time.c:86-94 | one tick's length rounded up, never zero |

## Left out

- The Linux futex path of the wait table (`native/posix/mjs_atomic_wait.c:78-109`): its hard part is in the kernel.
- NULL arguments, failed initialisation and failing lock, unlock, signal or broadcast calls in every component: one early return each.
- `mjs_sem_init` with a negative count, and destroy of semaphores and events.
- Semaphore.Monitor.DoPost: takes a count below INT_MAX, because the C increment is undefined there.
- Deadlines and real time: an expiry is a step the environment may take at any moment.
- Memory ordering: locked sections and atomic accesses are steps.
- io_uring timeout bookkeeping: the flag is modelled but nothing is claimed of it, because a cancelled timeout can clear it.
- io_uring descriptor lookup after deletions: rows are emptied without a tombstone, so no map refinement is claimed.
- UringTheorems.RunKeeps: runs are taken below the wrap of the 64-bit sequence counter; the other io_uring theorems inherit this.
- UringPoller.Poller.Slot: table and ring sizes are powers of two in the kernel, so masks are written as remainders.
- UringPoller.Poller.SubmitStaged: when the kernel takes entries and when it reports an error are chosen by the environment, one prefix an enter; entries taken between enters are not modelled.
- The completion ring's own index wrap and overflow, the capability probe and its environment flag, and `mjs_iouring_modify`, whose only difference from register is which error comes first.
- UringLedger.Create: lengths arrive already rounded to pages, and status codes are reduced to success or failure.
- Epoll timeout rounding, create and close of the epoll handle, and concurrent callers on one handle.
- EpollTable.Table.Drop: says that the probed cell is out of range and stops there; what the code reads or overwrites past the table is not modelled, and runs of `Epoll` end before such an unregister.
- TLS destructors and thread exit, a failing `pthread_key_create`, and the wrap of the id counter.
- Thread names, attributes and stack sizes, a spawn that fails, and several owners using copies of one handle.
- StackLayout.AcceptedIff: states the condition for page sizes that divide 2^64, as every host's do.
- StackLayout.ContextAcceptsIff: takes page sizes that are multiples of 16, and the record and entry as given.
- The Linux branch of the clock, which only combines seconds and nanoseconds, and the once-only caching of the timebase.
- The context switch and trampoline in assembly, and the context lifecycle that depends on them.
- The thin wrappers for kqueue, sockets, virtual memory, mutexes, condition variables, CPU and page queries, and the Mojo wrappers above this layer.
