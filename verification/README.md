# wae, verified

wae is an async executor on the Win32 thread-pool API. This project models the protocols
behind its foreign calls and proves what they guarantee, and exactly when.

Each protocol is a labelled transition system: a state with a program counter per thread,
actions, `Enabled`, `Next`, runs as sequences of actions, and an invariant that every run
keeps. Beside it stands a class in the shape of the source. Its methods make the source's
accesses one at a time; between any two of them `Interfere` lets other threads run an
arbitrary script (`env`), and a ghost `trace` records the run that leads to the object's
state, so what is proved of runs holds of the object.

| files | protocol |
|---|---|
| `IoState`, `IoResult`, `Options` | the seven-state word, the result cell, a stock datatype |
| `WakeOrder` | the order of registrations, wakes and polls, for both kinds of object |
| `HalfModel`, `HalfInvariant`, `HalfTheorems`, `HalfMailbox`, `HalfCell`, `HalfCancel`, `HalfWaker`, `HalfRuns`, `HalfObject` | one half of an `IoHandle`: polls, cancels and completion callbacks |
| `IoHandle`, `HandleRuns`, `HandleObject` | the two halves, one kernel, and dispatch by address |
| `EventModel`, `EventTheorems`, `EventWaker`, `EventRuns`, `EventObject` | `IoEvent` with its one-shot wait, and `connect`'s address loop |
| `PoolModel`, `PoolTheorems`, `PoolObject` | task queues, `push_task` and the work callback |
| `WakerModel`, `WakerTheorems`, `WakerObject` | the futex waker and `block_on` |
| `Transfer` | `read_exact` and `write_all` over a byte pipe |
| `Chain` | `Chain` |
| `Context` | the current handle and its guards |

`dafny verify dfyconfig.toml` checks everything.

## Assumptions

- Memory is sequentially consistent; each `IoState` method is one step, except that
  `callback_pending` is a repeated load and then a compare-exchange.
- Each half, and each event, has one owner, since polling and cancelling take
  `Pin<&mut Self>`, and all its polls come from one task: a wake-up is a wake-up of that
  task. Registering and waking an `AtomicWaker` are one step each.
- Assumption E (regime `UnderE`): an operation the kernel accepted as pending gets exactly
  one callback; an operation that finished inline gets at most one, which retires before the
  half schedules again. For a handle, E is assumed of its one kernel, which knows an
  operation by the address of its OVERLAPPED; that each half then has its own E is proved.
  `Uncancelled` allows any callbacks and no cancel; `Anything` allows
  everything.
- For events, `Proper`: `ResetEvent` succeeds, a call that fails inline does not signal the
  event, and nobody polls after one succeeded inline. `Failing` is the same except that
  `ResetEvent` may fail; `Retired` is `Proper` and adds that a callback retires
  before the next operation is scheduled.
- A handle through which a task is being pushed stays alive until the submit, since the
  task's schedule function owns it and `async_task` keeps the task alive while that runs.
- The concurrent queue is linearizable, a `Runnable` is run by whoever popped it, and
  `WaitOnAddress` compares and falls asleep in one step, with spurious returns.
- Busy loops (`while is_busy()`, the spin on SCHEDULING, the waker's and `block_on`'s loops)
  take one part of a script per round. A method says in its result when the script ended
  first; that the loops do end is proved over runs, with ranks.

## Where the code does less than one would claim

- A cancel loads PENDING and then swaps unconditionally, so the swap can land on READY. The
  result is then lost and a waiting cancel never returns: `HalfCancel.LostExactlyWhen`,
  `LostForever`, `HalfRuns.SwapCanLandOnReady`.
- A waiting cancel that meets a pending operation leaves READY without a result; the next
  poll reads a cell nobody wrote, or the previous result again. The exact condition is in
  `HalfTheorems.ReadyMeansWritten` and `DeliveriesAreRight`, runs in
  `HalfRuns.ReadsUninitialised` and `DeliversTwice`.
- A waiting cancel that finds CALLBACK, or CANCELLED_NOWAIT with the callback still to come,
  returns at once: `HalfCancel.ReturnsAtOnceExactlyWhen`, `HalfRuns.ReturnsWhileWriting`,
  `ReturnsBeforeCallback`.
- `IoHandle::poll` does not register the waker when it has just scheduled:
  `HalfWaker.WokenExactlyWhen`, `ToldExactlyWhen`, `HalfRuns.LosesWakeup`,
  `RegistersTooLate`. An event does
  register, and loses a wake-up exactly when an earlier wake comes late in a certain order:
  `EventTheorems.NoLostWakeup`, `EventWaker.LostExactlyWhen`,
  `EventRuns.LateWakeLosesWakeup`.
- After a failed `ResetEvent` no operation that is pending on that event is ever reported; one
  that finishes inline still is: `EventTheorems.DeafExactlyWhen`, `DeafForever`.
- `read_exact` at the end of a stream polls again for as long as it is answered zero bytes,
  and a buffer of 2^32 bytes or more is handled up to its length modulo 2^32:
  `Transfer.ReadExact.Poll`, `Transfer.AsWsaBuf`.
- `Chain` never sets `chained`: it concatenates exactly when the first reader stays quiet at
  its end, and a cancel never reaches the second reader: `Chains.ConcatenatesExactlyWhen`,
  `Chains.Chain.CancelRead`.
- Guards dropped out of order can leave a stale context: `Contexts.GivesBackExactlyWhen`,
  `OutermostLastExactlyWhen`, `OuterFirstLeaks`.

## Model

| member | source | states |
|---|---|---|
| IoStates.IoState.constructor | src/io/shared/state.rs:17-19 | the word starts IDLE |
| IoStates.IoState.CompareExchange | src/io/shared/state.rs:25-34 | one atomic step: reports whether the word was the expected one, and writes only then |
| IoStates.IoState.SetIdle | src/io/shared/state.rs:21-23 | an unconditional store of IDLE |
| IoStates.IoState.Schedule | src/io/shared/state.rs:25-34 | claims the half for a new operation only from IDLE |
| IoStates.IoState.SetPending | src/io/shared/state.rs:36-38 | an unconditional store of PENDING |
| IoStates.IoState.Cancel | src/io/shared/state.rs:40-47 | the swap replaces whatever is there, READY too, and asks for the cancel call unless a no-wait cancel came before |
| IoStates.IoState.CallbackPendingCas | src/io/shared/state.rs:53-61 | the claim from PENDING to CALLBACK, after the spin |
| IoStates.IoState.CallbackCancelledNowait | src/io/shared/state.rs:63-72 | the claim from CANCELLED_NOWAIT to CALLBACK |
| IoStates.IoState.CallbackCancelledWait | src/io/shared/state.rs:74-83 | the claim from CANCELLED_WAIT to CALLBACK |
| IoStates.IoState.SetReady | src/io/shared/state.rs:85-87 | an unconditional store of READY |
| IoStates.IoState.Finish | src/io/shared/state.rs:89-98 | tells whether the word is READY and leaves it |
| IoStates.IoState.IsCancellable | src/io/shared/state.rs:100-102 | a load that answers true for PENDING only |
| IoStates.IoState.IsBusy | src/io/shared/state.rs:104-106 | a load that answers false for IDLE and READY only |
| IoResults.EncodeKeeps | src/io/shared/result.rs:15-21 | what a reader can tell from the cell: whether and how the operation failed, and on success, but not on failure, the bytes transferred |
| IoResults.IoResult.Set | src/io/shared/result.rs:15-21 | overwrites the cell (and notes the writer, which only the theorems read) |
| IoResults.IoResult.Get | src/io/shared/result.rs:25-28 | reads the cell as it is, written or not |
| HalfTheorems.InvariantHolds | src/io/shared/handle.rs:47-179 | in every run under E, whatever polls, cancels of both kinds and callbacks interleave, word, owner, callback and cell fit together |
| HalfTheorems.ReadyMeansWritten | src/io/shared/handle.rs:65-71 | READY: the current operation was pending and has completed, and the cell holds what is on record for it (`RecordIsReported` says that this is what its completion reported) if and only if it did not meet a waiting cancel while PENDING |
| HalfTheorems.OneClaimEach | src/io/shared/state.rs:49-83 | the callback of each pending operation wins exactly one of its three claims, and it is the one that the cancel it met determines |
| HalfTheorems.NeverFallsThrough | src/io/shared/handle.rs:65-71 | a callback that has lost two claims finds CANCELLED_WAIT, so it never falls through |
| HalfTheorems.SpinEnds | src/io/shared/state.rs:50-52 | while a callback spins the owner is in a poll with at most two steps left before the word changes; each brings that nearer and nobody else's undoes it |
| HalfTheorems.DeliveriesAreRight | src/io/shared/handle.rs:114-139 | over whole runs: results leave in schedule order, none twice, and each delivered through the finish branch is the one on record for its own operation if and only if that met no waiting cancel while PENDING |
| HalfTheorems.RecordIsReported | src/io/shared/handle.rs:65-71 | in any run at all, what is on record for an operation is what its completion reported, whatever has happened since: the bytes for error 0, else the error |
| HalfTheorems.OnlyReportsOnRecord | src/io/shared/handle.rs:57-68 | whatever is on record was reported by a completion in the run |
| HalfTheorems.DeliveredAsReported | src/io/shared/handle.rs:114-117 | each result that leaves through the finish branch comes after its operation's completion, and is `Ok(transferred)` or `Err(result)` of that very completion if and only if the operation met no waiting cancel while PENDING |
| HalfTheorems.PollAnswers | src/io/shared/handle.rs:108-139 | under E a poll that finds READY when it starts delivers what the cell holds then, and one that finds IDLE makes one new call, whatever runs in between |
| HalfMailbox.RefinesMailbox | src/io/shared/handle.rs:65-139 | every run under E whose swaps lose nothing is a run of a one-slot mailbox |
| HalfMailbox.DeliveredAsCompleted | src/io/shared/handle.rs:114-117 | in the mailbox, a delivery directly follows the completion of the same operation with the same result, and that its submission |
| HalfCell.ExclusiveUnderE | src/io/shared/result.rs:13-28 | under E with racing cancels, even when a swap overwrites CALLBACK, no `set` overlaps another `set` or a `get` |
| HalfCell.ExclusiveUncancelled | src/io/shared/result.rs:13-28 | the same with any number of stray callbacks, when nobody cancels |
| HalfCancel.SwapsLandWhere | src/io/shared/state.rs:40-47 | a swap lands on PENDING, CALLBACK or READY only, so the cancel function is always called |
| HalfCancel.LostExactlyWhen | src/io/shared/handle.rs:157-179 | a cancelled word with no callback outstanding exists exactly when the swap landed on READY |
| HalfCancel.LostForever | src/io/shared/handle.rs:157-179 | no step leaves that state: nothing is delivered or scheduled again and a waiting cancel never returns |
| HalfCancel.ReturnsAtOnceExactlyWhen | src/io/shared/handle.rs:158-160 | a cancel that does not swap returns at once, and the operation's callback is then still under way if and only if the cancel found CALLBACK, or CANCELLED_NOWAIT from a swap that did not land on READY |
| HalfCancel.CallbackCanStep | src/io/shared/handle.rs:175-177 | while a waiting cancel whose swap did not land on READY spins, the kernel or the callback can step |
| HalfCancel.RankFalls | src/io/shared/handle.rs:175-177 | each such step lowers a rank; no other thread's step changes it |
| HalfCancel.WaitAdvances | src/io/shared/handle.rs:175-177 | over any interleaving the rank and the steps taken add up |
| HalfCancel.WaitEnds | src/io/shared/handle.rs:175-177 | once the callback has taken as many steps as the rank says the word is READY, whatever interleaves |
| HalfCancel.WaitLeavesQuietly | src/io/shared/handle.rs:175-178 | a waiting cancel leaves its loop only in READY, after a swap that did not land on READY, with no callback on the cell |
| HalfWaker.WokenExactlyWhen | src/io/shared/handle.rs:125-138 | for every operation scheduled with no earlier callback left, however often polled for: at rest in READY with its callback retired, the task holds a wake-up if and only if it held one at scheduling and has not polled since, or no waiting cancel met the operation while PENDING and the slot was full at scheduling or a poll registered before the wake |
| HalfWaker.ToldExactlyWhen | src/io/shared/handle.rs:65-68 | for every run under E, whatever earlier callbacks are left: at rest in READY the task holds a wake-up if and only if it held one at scheduling and has not polled since, or a wake since scheduling, the operation's own or an earlier callback's that no poll has followed, found a registration made since, or the slot full from before, with no wake in between |
| HalfRuns.SwapCanLandOnReady | src/io/shared/handle.rs:158-161 | a run under E in which the swap lands on READY and the result is lost, for either kind of cancel |
| HalfRuns.ReadsUninitialised | src/io/shared/handle.rs:69-70 | a run under E that delivers a cell nobody has written |
| HalfRuns.DeliversTwice | src/io/shared/handle.rs:69-70 | a run under E that delivers one operation's result a second time as the next one's |
| HalfRuns.LosesWakeup | src/io/shared/handle.rs:125-133 | a run under E that leaves a task unwoken with its operation READY |
| HalfRuns.RegistersTooLate | src/io/shared/handle.rs:125-138 | a run under E in which the task polls again, registers only after the wake, and is left unwoken |
| HalfRuns.ReturnsWhileWriting | src/io/shared/handle.rs:158-160 | a run under E in which `cancel(true)` finds CALLBACK and returns while the callback writes |
| HalfRuns.ReturnsBeforeCallback | src/io/shared/handle.rs:158-160 | a run under E in which `cancel(true)` finds CANCELLED_NOWAIT and returns with the callback still to come |
| HalfRuns.LatePacketStealsOperation | src/io/shared/handle.rs:118-129 | without E: a late packet of an inline operation is taken for the next operation's completion |
| HalfRuns.TwoWriters | src/io/shared/result.rs:13-21 | without E and with a cancel: two callbacks write the cell at once |
| HalfRuns.LosesAllThree | src/io/shared/state.rs:49-83 | a callback that does not wait while SCHEDULING loses all three claims |
| HalfRuns.SpinIsNeeded | src/io/shared/state.rs:50-52 | such a state is reachable under E, so the spin is needed |
| HalfObject.IoHalf.constructor | src/io/shared/handle.rs:190-200 | a new half is the initial state of the transition system |
| HalfObject.IoHalf.Poll | src/io/shared/handle.rs:108-139 | each access is the transition system's step, whatever runs between; a poll that has scheduled returns Pending exactly if the call went asynchronous, and else its inline result; which branch was taken shows in the log, and under E a result from the finish branch is the right one under the exact condition above |
| HalfObject.IoHalf.Cancel | src/io/shared/handle.rs:157-179 | delivers and schedules nothing; under E, when a waiting cancel that swapped returns, the word is READY and no callback uses the cell, and one that did not swap leaves the callback under way under the exact condition above; one that does not return has waited through all its rounds |
| HalfObject.IoHalf.WaitWhileBusy | src/io/shared/handle.rs:175-177 | the loop ends in READY, with only wakes left, or has loaded the word once in each of its rounds |
| HalfObject.IoHalf.Callback | src/io/shared/handle.rs:65-71 | a callback that ends has retired; under E a pending operation's has then won exactly one claim; one that does not end has spun once in each of its rounds |
| HalfObject.IoHalf.SpinWhileScheduling | src/io/shared/state.rs:50-52 | the spin leaves the callback about to claim, or has loaded the word once in each of its rounds |
| IoHandles.DispatchFindsIssuer | src/io/shared/handle.rs:57-63 | every completion finds the half that issued it if and only if the two addresses differ |
| IoHandles.IndependentProduct | src/io/shared/handle.rs:55-72 | with different addresses, an interleaving is a run of the handle with its one kernel, which knows operations by address and keeps E, exactly when each half's part is a run of that half under its own E; it leads to their states |
| IoHandles.HandleKeeps | src/io/shared/handle.rs:141-187 | so with different addresses both halves keep all that is proved of one |
| IoHandles.InterleavingsAgree | src/io/shared/handle.rs:55-72 | any other interleaving of a handle run's steps is a run too and leads to the same halves and the same kernel |
| IoHandles.TracedIsRun | src/io/shared/handle.rs:55-72 | traces of the two halves under their own E, merged, are a run of the handle under its kernel's E |
| HandleRuns.SharedAddressMixesUp | src/io/shared/handle.rs:57-63 | with one address there is a run, under E of the kernel, in which a read poll returns a write's result |
| HandleRuns.HalvesAreSoundExactlyWhen | src/io/shared/handle.rs:57-63 | what both halves deliver is right in every run of the handle if and only if the addresses differ |
| HandleObject.IoHandle.constructor | src/io/shared/handle.rs:84-91 | two new halves that share nothing |
| HandleObject.IoHandle.IsHandleState | src/io/shared/handle.rs:55-72 | as long as E holds, the object is where a run of the handle leads, and the kernel owes exactly what the halves have queued |
| HandleObject.IoHandle.PollRead | src/io/shared/handle.rs:141-147 | a poll of the read half, with all that half's poll promises, the answer of a poll that has scheduled included; the write half goes where its own threads take it |
| HandleObject.IoHandle.PollWrite | src/io/shared/handle.rs:149-155 | the same for the write half |
| HandleObject.IoHandle.CancelRead | src/io/shared/handle.rs:181-183 | a cancel of the read half, with all that half's cancel promises; the write half goes where its own threads take it |
| HandleObject.IoHandle.CancelWrite | src/io/shared/handle.rs:185-187 | the same for the write half |
| HandleObject.IoHandle.Complete | src/io/shared/handle.rs:55-72 | the completion of a packet, noted as the handle's own, puts its own result and bytes on record, and runs the callback in the half that issued it, which wins exactly one claim under E; the other half goes where its own threads take it |
| EventTheorems.InvariantHolds | src/io/shared/event.rs:35-149 | in every proper run word, owner, kernel, wait and callback fit together, and after an operation has succeeded inline no callback can claim |
| EventTheorems.OneCallbackEach | src/io/shared/event.rs:94-131 | until an operation succeeds inline: an idle event outside a poll is unsignalled with its wait armed, and each pending operation has then fired exactly one callback; never is more than one to come |
| EventTheorems.EveryClaimWins | src/io/shared/event.rs:43 | a callback about to claim wins if and only if no operation has succeeded inline, and then it belongs to the current operation |
| EventTheorems.NeverStuck | src/io/shared/event.rs:139-148 | while an operation is under way the kernel, the wait or the callback can step |
| EventTheorems.RankFalls | src/io/shared/event.rs:139-148 | each such step lowers a rank; no other thread's step changes it |
| EventTheorems.PendingEnds | src/io/shared/event.rs:139-148 | once as many such steps as the rank says have been taken, however polls and earlier callbacks interleave, the event has been READY |
| EventTheorems.PollAnswers | src/io/shared/event.rs:85-149 | on a proper event a poll that finds READY when it starts reports it, and one that finds IDLE starts one operation, whatever runs in between |
| EventTheorems.DeafExactlyWhen | src/io/shared/event.rs:95-99 | for every run that is proper but for ResetEvent, outside the poll that gives up, whatever ran meanwhile: the event is deaf (wait unarmed, no callback left to claim) if ResetEvent has ever failed, and until an operation succeeds inline only then; without a failure the invariant holds |
| EventTheorems.DeafForever | src/io/shared/event.rs:95-99 | a deaf event stays deaf and is never READY, whatever follows, further failures included: no operation pending on it is ever reported |
| EventTheorems.NoLostWakeup | src/io/shared/event.rs:132-148 | if callbacks retire before the next operation: whenever READY, with its callback finished and no poll under way, the last poll returned Pending and the task holds an unanswered notification |
| EventWaker.LostExactlyWhen | src/io/shared/event.rs:43-47 | for every proper run: at rest in READY with the callback finished, the task has no notification left if and only if an earlier callback's wake took the operation's registration, the task answered that with a poll that began before the operation's own wake and registered after it, and no wake has come since |
| EventTheorems.ExclusiveAlways | src/io/shared/event.rs:43-46 | with any callbacks at all no `set` overlaps a `set` or a `get` |
| EventRuns.LateWakeLosesWakeup | src/io/shared/event.rs:45-46 | a run in which a late wake takes the next operation's waker and a wake-up is lost |
| EventObject.IoEvent.constructor | src/io/shared/event.rs:51-83 | a new event is the initial state: idle, unsignalled, wait armed |
| EventObject.IoEvent.Poll | src/io/shared/event.rs:85-149 | each access is the transition system's step; how the poll ended is in the history; a completed poll returns ResetEvent's error, else GetOverlappedResult's if a handle was passed, else Ok(0); one that started an asynchronous operation returns Pending; after any Ready a proper event is as new |
| EventObject.IoEvent.Callback | src/io/shared/event.rs:35-48 | a callback that ends has retired; on a proper event it has claimed unless an operation has succeeded inline, and if one had before it began it has not; one that does not end has spun once in each of its rounds |
| EventObject.Await | src/net/tcp/stream.rs:128-135 | polls until one is Ready: the earlier polls returned Pending, and the result is the error that ResetEvent or else GetOverlappedResult answered the last, or Ok; after an inline end it is Ok if ConnectEx returned true or the socket was connected already, else ConnectEx's error; after a failure the event is as new |
| EventObject.Connect | src/net/tcp/stream.rs:120-161 | each address in order is polled until done, up to the first success and no further, each with the result that the foreign calls' answers to its last poll give; the result is the last one's, NotFound for none; the event is as new after any sequence of failures |
| PoolTheorems.InvariantHolds | src/threadpool.rs:83-93 | for any number of pushers and callbacks: queue length, owners of the Arc, order and runs add up on every lane |
| PoolTheorems.PopNeverFails | src/task/spawn.rs:61-63 | a started callback finds its queue non-empty and its pool alive; `unwrap` never fails and the pointer never dangles |
| PoolTheorems.EmptyExactlyWhen | src/threadpool.rs:89-92 | a queue is empty exactly when nothing is submitted, nobody is between push and submit and no started callback has yet to pop |
| PoolTheorems.DropFindsNobody | src/threadpool.rs:291-303 | when the pool is dropped all queues are empty and nothing is left that could touch them |
| PoolTheorems.FirstInFirstOut | src/threadpool.rs:83-93 | pops follow pushes on each lane, and each entry carries a handle of the lane's priority |
| PoolTheorems.EachRunsOnce | src/task/spawn.rs:56-71 | when nothing is under way each runnable pushed has been run exactly once |
| PoolTheorems.NoneRunsTwice | src/task/spawn.rs:56-71 | at no time has one been run twice |
| PoolTheorems.SetPriorityDecidesLane | src/threadpool.rs:124-127 | after `set_priority` a push through the handle goes last on the new priority's lane, with the instance the handle had |
| PoolTheorems.ClonePushesAlike | src/threadpool.rs:83-93 | a clone pushes where the handle it was cloned from does |
| PoolTheorems.CurrentCarriesInstance | src/task/spawn.rs:63-66 | in every run, the handle a running task gets has the priority of the lane it was pushed on and the instance of the callback running it |
| PoolObject.TaskQueue.Push | src/threadpool.rs:89 | appends, and changes nothing else |
| PoolObject.TaskQueue.Pop | src/task/spawn.rs:63 | takes the oldest entry, or nothing from an empty queue |
| PoolObject.HandleInner.constructor | src/threadpool.rs:57-62 | three empty queues and one handle |
| PoolObject.HandleInner.ChangePriority | src/threadpool.rs:124-127 | only that handle's priority changes |
| PoolObject.HandleInner.PushTask | src/threadpool.rs:83-93 | the runnable goes last on the lane of the handle's priority with a clone of the handle, and one callback is submitted after it |
| PoolObject.HandleInner.PopEntry | src/task/spawn.rs:61-63 | the unwrap cannot fail, the pool is alive, and the oldest entry comes out |
| PoolObject.HandleInner.RunCallback | src/task/spawn.rs:56-71 | a callback runs the entry that is next in push order exactly once, and retires |
| WakerTheorems.SleepsOnlyUntilWinner | src/task/waker.rs:34-58 | whoever sleeps while the state is 1 sleeps only until the one CAS winner issues its wake |
| WakerTheorems.OneWakeForGood | src/task/waker.rs:34-44 | the state only goes 0 to 1, at most one WakeByAddressAll is issued, and after that nobody falls asleep |
| WakerTheorems.WaiterReturns | src/task/waker.rs:46-58 | after the wake a waiter has at most two steps left, whatever interleaves |
| WakerTheorems.TwoStepsSuffice | src/task/waker.rs:46-58 | a waiter that has taken two steps since the wake is not waiting |
| WakerObject.InlineWaker.WakeAll | src/task/waker.rs:34-44 | the state is 1 afterwards; a call that won has issued the one wake and nobody sleeps |
| WakerObject.InlineWaker.Wait | src/task/waker.rs:46-58 | returns only with the state 1; at once, without sleeping, if it was 1 before; one that does not return found the state 0 or was asleep at the start of every turn, and one that returns did so at every turn but the last |
| WakerObject.BlockOn | src/task/block_on.rs:24-29 | with a waker of its own: one wait for each Pending, another poll only once woken, no sleep after a wake, and from a wake on nothing but a wait without turns keeps it from the first Ready output; if it stays Pending its last wait found no wake at the start of any turn; every step that is not its own is one the rounds have |
| Transfer.AsWsaBuf | src/io/read/mod.rs:47-57 | the length is truncated to 32 bits, so it is the slice's length exactly below 2^32 |
| Transfer.ReadExact.constructor | src/io/read/ext.rs:34-49 | two copies of the buffer, nothing read |
| Transfer.ReadExact.Step | src/io/read/ext.rs:156-165 | done plus remaining stays the original length, the pointer is base plus done, the bytes done are those delivered, nothing past them changes |
| Transfer.ReadExact.Poll | src/io/read/ext.rs:155-170 | Ok exactly when the whole buffer is done; inner polls are bounded by bytes moved and zero-length transfers; zero-length transfers alone keep it going without end |
| Transfer.WriteAll.constructor | src/io/write/ext.rs:23-38 | two copies of the buffer, nothing written |
| Transfer.WriteAll.Step | src/io/write/ext.rs:94-103 | as for reading: what was sent is the buffer's first bytes |
| Transfer.WriteAll.Poll | src/io/write/ext.rs:93-108 | as for reading |
| Transfer.RoundTrip | src/io/read/ext.rs:155-170 | for every chunking, failure and Pending interleaving, what has been read is the source's first bytes; a reader that completes has all of them, and for equal lengths below 2^32 the two arrays are equal; an end that is still pending has been polled at each of its turns, each poll having taken an answer of its transport while there was one |
| Transfer.Exchange | src/io/write/ext.rs:93-108 | in whatever order the ends are polled, each at each of its turns, and from any point: the writer completes unless its transport moves bytes fewer times than bytes are left, and after that so does the reader |
| Transfer.Finish | src/io/write/ext.rs:93-108 | from any point of an exchange, if neither transport fails and each moves bytes often enough, both ends complete with equal bytes |
| Chains.QuietConcatenates | src/io/read/ext.rs:84-101 | the chain yields the first reader's bytes and then the second's, over all chunkings, failures and Pending, if the first yields nothing after its end |
| Chains.ConcatenatesExactlyWhen | src/io/read/ext.rs:84-101 | exactly such first readers chain to a concatenation with every second reader |
| Chains.ChainedAt | src/io/read/ext.rs:84-101 | each of the chain's answers is the first reader's, or in place of its end the next one of the second's |
| Chains.OneOutstanding | src/io/read/ext.rs:89-100 | with a first reader that keeps answering the end, one operation at a time is outstanding, the first's exactly until that has ended |
| Chains.TwoOutstandingExactlyWhen | src/io/read/ext.rs:89-100 | two can be outstanding on one buffer exactly if the first answers Pending after its end |
| Chains.Chain.constructor | src/io/read/ext.rs:11-20 | `chained` starts false |
| Chains.Chain.PollRead | src/io/read/ext.rs:84-101 | the first reader is asked at every poll, since `chained` is never set; its answer is passed on unless it is the end, and exactly then the second is asked for its own; the bytes so far are the first's and then the second's if the first is quiet |
| Chains.Chain.CancelRead | src/io/read/ext.rs:103-109 | reaches the first reader's operation only: for a waiting chain, its operation exactly while the second reader has not been asked |
| Contexts.ThreadContext.Enter | src/context.rs:41-50 | the handle becomes current and the guard keeps what was |
| Contexts.ThreadContext.DropGuard | src/context.rs:14-21 | what the guard kept becomes current |
| Contexts.ThreadContext.Run | src/context.rs:14-50 | for any nesting, panicking or not, the earlier context comes back and every query sees what lexical scoping says |
| Contexts.ThreadContext.WorkCallback | src/task/spawn.rs:63-70 | the same around a work callback, whose runnable's panic is caught |
| Contexts.SeesOnlyEntered | src/context.rs:34-39 | code sees no handle but the one around it and those it enters |
| Contexts.BlockSeesItsHandle | src/context.rs:41-50 | whatever is current around it, none included, code inside `h.enter()` sees `h` or a handle entered further in, and only `h` if none is |
| Contexts.CurrentByName | src/context.rs:30-50 | entering `current()` is entering that handle |
| Contexts.EachQueryIsSeen | src/context.rs:34-39 | each query and each spawn gives one event, with the handle around it |
| Contexts.RunsOn | src/context.rs:14-21 | code that does not panic is followed by what comes after it, code that does by nothing |
| Contexts.BlockGoesOn | src/context.rs:14-50 | after a block the code around it goes on with the handle it had |
| Contexts.PanicEnds | src/context.rs:14-21 | a panic cuts off what comes after it and keeps what was seen before |
| Contexts.PanicLeavesBlock | src/context.rs:14-21 | a panic in a block ends the code around it too |
| Contexts.NoContextPanics | src/context.rs:30-32 | `current()` without a context panics |
| Contexts.CallbackGoesOn | src/task/spawn.rs:63-70 | what a callback's runnable saw is what it sees under its own instance, whatever is current, and nothing of it, a panic included, affects what comes after |
| Contexts.CallbackContainsPanic | src/task/spawn.rs:63-70 | a panic in a runnable cuts off the rest of that runnable only |
| Contexts.RunsUnderOwnInstance | src/task/spawn.rs:65-66 | a running task that enters no other handle sees the popped handle with its own callback's instance |
| Contexts.StaleInQueueOnly | src/task/spawn.rs:63-66 | what a task spawns is queued with a stale instance and runs with its own |
| Contexts.GuardHoldsItsContext | src/context.rs:41-50 | after any sequence of enters and drops, in any order, each live guard holds the context it was made in |
| Contexts.GivesBackExactlyWhen | src/context.rs:14-21 | a whole sequence of enters and drops gives back the earlier context if and only if the guard dropped last was made while that context was current |
| Contexts.OutermostLastExactlyWhen | src/context.rs:14-21 | of blocks all entered before any drop, exactly the drop orders that end with the first guard made give the context back |
| Contexts.NestedRestores | src/context.rs:14-50 | dropped innermost first, guards keep the innermost one current and give back the earlier context |
| Contexts.OuterFirstLeaks | src/context.rs:14-21 | dropped outermost first, two guards leave the outer handle current for good |
| Contexts.UseGuards | src/context.rs:14-50 | guards as objects do what the stack of guards says, in whatever order they are dropped |

## Left out

- HalfObject.IoHalf.Callback: that the spin ends is not part of its contract, because the owner's steps end it; `HalfTheorems.SpinEnds` says how soon.
- HalfObject.IoHalf.Cancel: the error that the cancel function returns is not modelled; a cancel only asks the kernel for a completion it owes anyway.
- EventObject.IoEvent.Callback: the wait result is always WAIT_OBJECT_0, since the wait has no timeout.
- EventTheorems.NoLostWakeup: for `Retired` runs; the exact condition for all proper runs is `EventWaker.LostExactlyWhen`.
- HalfWaker.WokenExactlyWhen: for operations scheduled with no earlier callback left; `HalfWaker.ToldExactlyWhen` is for all.
- HandleObject.IoHandle.PollRead: the other half's threads are played after this half's steps, not between them; that any other order leads to the same state is `IoHandles.InterleavingsAgree`. The same goes for the other methods of that class.
- EventObject.Connect: an address is the script of what the foreign calls answer its polls; the socket, its binding and the address conversions are left out.
- Transfer.RoundTrip: the transport moves at most the bytes asked for and keeps a pending buffer, as the `AsyncRead` and `AsyncWrite` contracts say; dropping the future, which cancels, is left out.
- Transfer.ReadExact.Poll: the source calls itself, and so does this; the depth of the stack is not bounded here.
- Chains.Chain.CancelRead: says which reader's operation is reached, not what the reader does with it.
- Weak memory orderings: Relaxed, Acquire and Release are not distinguished.
- Deallocation: an event may be dropped between `set_ready` and `wake`, and a `cancel(true)` on a half already in CANCELLED_NOWAIT or CALLBACK returns without waiting; nothing is claimed of lifetimes there, nor of the spins in `Drop`.
- `Builder`, its error paths, and the pool's destruction from inside one of its callbacks.
- `JoinHandle::cancel` dropped midway; `async_task` itself.
- Thread counts, `may_block`, `YieldNow`, `Priority`'s order, tracing, `Debug`.
- Socket options, accept, `split`, UDP, address resolution and the procedural macros.
