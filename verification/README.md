# A model of macula-py's asyncio core and payload codec

macula-py binds a native library to asyncio. This project models the three parts
of it whose correctness is not obvious from reading them, and proves what they
promise.

**Cancellable calls** (`Blocking*.dfy`, `CallSpec.dfy`). Every blocking native
call runs on a thread of its own, with a cancel token of its own, while a
coroutine awaits it through a shield; the coroutine's task may be cancelled at
any instant. The thread, the loop's callbacks, each line of `_end_the_call` and
the canceller are atomic steps, interleaved in any way a single-threaded loop
and free-running threads allow, for any number of calls over one token table.
Which steps are open is stated exactly (`BlockingRaces`): threads never wait for
the loop, and every order of a cancellation's race is a run. Proved over every
reachable state: a successful result goes to exactly one of the
caller and one discard; a cancellation is never lost; the library's own
"cancelled" is never taken for the task's; each token is its call's own and is
freed once, after its call; every call takes at most 26 steps of its own and
always has one to take; and each step refines a one-place description of the
call (`CallSpec`), whose final state is a function of how the native call ended
and whether the task was cancelled.

**Serving** (`Handlers.dfy`, `Serving*.dfy`, `Answering.dfy`, `Streams.dfy`). A
served procedure is a pump that takes an inbox, a task per item, and a `stop()`
that races deliveries, handlers, deadlines, cancellations and the library's own
withdrawal, over a first-in first-out ready queue. The pump's wait is the call of
`CallSpec`: it takes the steps such a call takes, all of them and no others.
Proved over every reachable state: items are conserved; the pump is over for the
source's five reasons and no other; a dispatched task always begins before it can
be cancelled; no item is settled twice, and when all is
quiet each is settled once; no caller is left without an answer once the
procedure is withdrawn; `stop()` ends, leaves nothing running and tells the
library once.

**The payload codec** (`Wire*.dfy`, `Json*.dfy`, `Base64.dfy`, `Hex.dfy`,
`Ids.dfy`). The encoder, the compact ASCII JSON printer, the JSON reader and the
bottom-up decoder with its in-band `{"$bytes": ...}` tag. JSON text is a grammar of
its own (`JsonGrammar`, sections 2 to 7 of RFC 8259, with the three literals
json.loads reads beside them) and base64 a relation on bits (section 4 of RFC
4648). Proved: the reader takes exactly what the grammar spells, as what it spells;
the printer gives the one compact text; for every value, which are taken, which
error the others give, and that a value comes back from its own text if and only
if no dict inside it is a lone `"$bytes"` with a text.

Beside these, `NativeMemory.dfy` accounts for the library's buffers and
`Subscriptions.dfy` for a subscription's events.

The two state machines are written as functions on values, and beside them stand
the objects the code mutates (`BlockingObjects.dfy`, `ServingObjects.dfy`,
`Streams.dfy`, `Answering.dfy`): classes whose methods, each one uninterrupted
piece of the code, are proved to be a step, or a run, of those machines. What is
proved of the machines therefore holds of the objects; `CallRuns.dfy` and
`ServingRuns.dfy` run them to their end.

Five things the code does that a reader may not expect, kept as they are:

- `subscribe`, `serve` and `serve_stream` go through `run_native`, which has no
  discard: cancelled while the native call succeeds, they lose its handle
  (`BlockingLaws.LostExactlyWhen`, `BlockingLaws.LostWithoutDiscard`).
- The handler that turns a `NativeCancelled` into a `CancelledError` in
  `run_blocking` is never reached (`BlockingLaws.NativeCancelledStaysInside`).
- An item whose text does not decode is dropped, neither released nor dispatched,
  and serving ends; one whose text is null is dropped and serving goes on
  (`ServingLaws.DroppedExactly`, `ServingTexts.TextDecides`,
  `ServingTexts.DropHappens`). Its caller is answered by the library when the procedure is withdrawn, at the latest
  (`ServingLaws.NobodyWaits`).
- Iterating a stream, documented to yield every frame up to the end, also stops,
  without an error, at a receive that gives nothing (`Streams.Iterate`).
- A payload dict `{"$bytes": <text>}` does not survive the codec
  (`WireLaws.RoundTrip`, `WireLaws.BareTagIsLost`).

## Model

| member | source | states |
|---|---|---|
| `BlockingLaws.ExactlyOnce` | src/macula_py/_blocking.py:39-136 | In every reachable state of any number of calls: a result is never in two places, whatever the caller or a discard got is what the native call returned, no error reaches a discard; and once a call with a discard is over, its result is in exactly one place and an error in none. |
| `BlockingLaws.LostExactlyWhen` | src/macula_py/_blocking.py:70-136 | Once a call is over, a result it returned went to nobody if and only if its task was cancelled and it had no discard. |
| `BlockingLaws.LostWithoutDiscard` | src/macula_py/pool.py:648-649 | A concrete run of a `run_native` call, as `subscribe`, `serve` and `serve_stream` make it, in which the handle goes to nobody. |
| `BlockingLaws.CancelledErrorIffCancelled` | src/macula_py/_blocking.py:103-136 | A call that is over raised CancelledError if and only if its task was cancelled while it waited; a cancelled one neither returns nor raises anything else. |
| `BlockingLaws.NoLostCancellation` | src/macula_py/_blocking.py:85-117 | Once `_end_the_call` is past its token check, a native call about to start or running has its token cancelled in the library's table, one or two times and never zero, whichever of set-flag/read-token and append-token/read-flag came first; BlockingRaces has a run of each order. |
| `BlockingLaws.NativeCancelledStaysInside` | src/macula_py/_blocking.py:118-136 | NativeCancelled never comes out of `run_blocking`, nor out of the shield it awaits; an uncancelled task whose native call ended "cancelled" sees a MaculaError with that message, and any other error as it is. |
| `BlockingLaws.TokenLife` | src/macula_py/_blocking.py:111-127 | Every token in the table belongs to exactly one call, is freed at most once and only after its native call ended, is freed exactly once when the call is over, and is cancelled only if that call's task was. |
| `BlockingLaws.OthersTokens` | src/macula_py/_blocking.py:95-127 | No step of one call changes the table's entry for another call's token. |
| `BlockingLaws.FewSteps` | src/macula_py/_blocking.py:56-136 | In every run of a call, the steps of its own it took and the rank left are together no more than the rank it started with, however often its task is cancelled meanwhile. |
| `BlockingLaws.FewStepsInAll` | src/macula_py/_blocking.py:103-136 | A call takes at most 26 steps of its own from its start, in every run. |
| `BlockingLaws.EachCallEnds` | src/macula_py/_blocking.py:39-136 | Among any number of calls, however interleaved, each takes at most 26 steps of its own; what it took and the rank it has left are no more than that, and it is over if and only if its rank is spent. |
| `BlockingLaws.CanFinish` | src/macula_py/_blocking.py:56-136 | From every state a call can be in, some run of no more steps than its rank brings it to its end. |
| `BlockingLaws.WindsDown` | src/macula_py/_blocking.py:56-136 | With the loop between callbacks, a call that is not over can always take a step other than being cancelled. |
| `BlockingLaws.LoopFinishes` | src/macula_py/_blocking.py:85-100 | The loop can always go on with the `_end_the_call` it is in the middle of. |
| `BlockingRaces.StepsOpen` | src/macula_py/_blocking.py:39-136 | In every reachable state a step of a call is open if and only if the call can take it by itself, a new token's handle is new, and it is a thread's, or a line of the `_end_the_call` the loop is in, or the loop is between callbacks. |
| `BlockingRaces.ThreadsRun` | src/macula_py/_blocking.py:111-127 | Threads never wait for the loop: in every reachable state, also in the middle of an `_end_the_call`, every thread that has not ended can take its next step, its native call coming back with any outcome. |
| `BlockingRaces.LoopRuns` | src/macula_py/_blocking.py:39-136 | Between callbacks the loop can run any that is scheduled, of any call, and any waiting task can be cancelled, however often. |
| `BlockingRaces.CallsStart` | src/macula_py/_blocking.py:48-73 | A call can start beside any number of others, and leaves them and the table as they are. |
| `BlockingRaces.OnRecord` | src/macula_py/_blocking.py:85-128 | A cancellation and the outcome of a native call are recorded as they are, so the laws that speak of the record speak of what happened. |
| `BlockingRaces.AppendedFirst` | src/macula_py/_blocking.py:95-117 | From every state with the loop about to set the flag and the thread about to append, a run appends, sets, reads: `_end_the_call` finds the token. |
| `BlockingRaces.AppendedBetween` | src/macula_py/_blocking.py:95-117 | Another sets, appends, reads: it is found too. |
| `BlockingRaces.AppendedLate` | src/macula_py/_blocking.py:95-117 | A third sets, reads, appends: `_end_the_call` misses the token, and the thread then finds the flag set and cancels its token itself. |
| `BlockingRaces.RaceIsRun` | src/macula_py/_blocking.py:95-117 | And a run from the start leads there. |
| `BlockingInvariant.StepKeeps` | src/macula_py/_blocking.py:39-136 | Every step of a thread, of the loop or of a canceller keeps the call's invariant: its token and list entry, its one outcome, each callback run at most once, the flag/token handshake, the discard. |
| `BlockingSystem.SysKeeps` | src/macula_py/_blocking.py:39-136 | Every step of any number of calls keeps all their invariants, their agreement with the token table, and that the loop is inside at most one `_end_the_call`. |
| `BlockingSystem.ReachableInv` | src/macula_py/_blocking.py:39-136 | So every state some schedule leads to satisfies them. |
| `BlockingSystem.OnlyOwnToken` | src/macula_py/_blocking.py:95-127 | A step changes at most the table's entry for the call's own token, and leaves it as the call's own record of cancels and frees says. |
| `CallSpec.SystemRefines` | src/macula_py/_blocking.py:103-136 | From every reachable state, any step of anything is, for each call, a step of the one-place call or invisible: the native call ends, the caller gets its result or its error, or the task is cancelled and the result is released or dropped. |
| `CallSpec.Refines` | src/macula_py/_blocking.py:103-136 | The same for one call under its invariant. |
| `CallSpec.FateIsMet` | src/macula_py/_blocking.py:103-136 | A call that is over has met the one fate its native outcome and its task's cancellation call for: delivered, failed (a native "cancelled" as MaculaError), cancelled and released, or cancelled and dropped. |
| `CallRuns.RunToEnd` | src/macula_py/_blocking.py:39-136 | From any state of its invariant, cancelled or not, a call's objects reach their end in no more steps than its rank, by a run of the machine: the await's outcome is the one the native call's end and the cancellation call for, the call's token is freed exactly once, and no other entry of the table has moved. |
| `BlockingObjects.CancelTokens.New` | src/macula_py/_native.py:120-121 | A handle never used before and never 0, its token neither cancelled nor freed. |
| `BlockingObjects.CancelTokens.Cancel` | src/macula_py/_native.py:123-124 | Marks that token cancelled and no other; one already freed is left alone. |
| `BlockingObjects.CancelTokens.Free` | src/macula_py/_native.py:126-127 | Counts one more free of that token and touches no other. |
| `BlockingObjects.RunningCall.constructor` | src/macula_py/_blocking.py:48-73 | The started call: future pending with its error-taking and shield callbacks, thread about to run. |
| `BlockingObjects.RunningCall.NewToken` | src/macula_py/_blocking.py:112 | The thread's first step, and the token it adds to the table. |
| `BlockingObjects.RunningCall.AppendToken` | src/macula_py/_blocking.py:113 | The list then holds exactly the call's token. |
| `BlockingObjects.RunningCall.CheckFlag` | src/macula_py/_blocking.py:115 | The thread cancels its token next if and only if the flag is set. |
| `BlockingObjects.RunningCall.CancelOwnToken` | src/macula_py/_blocking.py:116 | The call's own token is cancelled in the table, nothing else in it. |
| `BlockingObjects.RunningCall.CallEnds` | src/macula_py/_blocking.py:117-120 | Any outcome goes on to the finally clause, but a native "cancelled" is looked at again; under `run_native` all go straight to the loop. |
| `BlockingObjects.RunningCall.ClassifyCancelled` | src/macula_py/_blocking.py:118-125 | A native "cancelled" stays one if and only if the flag is set, else becomes a MaculaError. |
| `BlockingObjects.RunningCall.FreeOwnToken` | src/macula_py/_blocking.py:126-127 | The call's own token is freed in the table, once, nothing else in it moves, and the outcome is kept. |
| `BlockingObjects.RunningCall.PostOutcome` | src/macula_py/_blocking.py:61-64 | The outcome is posted, and `_settle` scheduled with it. |
| `BlockingObjects.RunningCall.RunSettle` | src/macula_py/_blocking.py:39-45 | A pending future gets the outcome and schedules each callback it still has; a done one is left alone. |
| `BlockingObjects.RunningCall.RunHandOver` | src/macula_py/_blocking.py:76-82 | A result is discarded once more, an error not at all. |
| `BlockingObjects.RunningCall.RunInnerDone` | src/macula_py/_blocking.py:131 | The shield takes the future's outcome unless it was cancelled. |
| `BlockingObjects.RunningCall.Wake` | src/macula_py/_blocking.py:130-136 | The await returns, raises, or throws a cancellation into `_end_the_call`; a cancellation that came with the outcome wins. |
| `BlockingObjects.RunningCall.EndCheckDone` | src/macula_py/_blocking.py:95 | The flag is set next only if the future is not done. |
| `BlockingObjects.RunningCall.EndSetFlag` | src/macula_py/_blocking.py:96 | The flag is set before the token list is read. |
| `BlockingObjects.RunningCall.EndReadToken` | src/macula_py/_blocking.py:97 | The token list's entry, if there is one, is cancelled next. |
| `BlockingObjects.RunningCall.EndCancelToken` | src/macula_py/_blocking.py:98 | The token read is the call's own; it is cancelled in the table, or left as it is when it was freed. |
| `BlockingObjects.RunningCall.EndRegisterDiscard` | src/macula_py/_blocking.py:99-100 | With a discard, its callback waits for the future, or is scheduled at once when the future is done. |
| `BlockingObjects.RunningCall.CancelTheTask` | src/macula_py/_blocking.py:131-136 | A cancellation is recorded and cancels a pending shield; on a done one it makes the task's next step throw. |
| `ServingLaws.Conservation` | src/macula_py/pool.py:362-391 | In every reachable state an item taken from the inbox is in exactly one of: in flight, released, owned by a dispatched task (running or finished), dropped because its text gives no request; and no other handle is in any of them. |
| `ServingLaws.DroppedExactly` | src/macula_py/pool.py:274-383 | In every run, an item ends up dropped if and only if at some step the pump's turn came to it and its text did not decode, or decoded to None. |
| `ServingLaws.Dropped` | src/macula_py/pool.py:377-391 | No other step drops anything; the pump is over after it if and only if the text did not decode. |
| `ServingLaws.AtMostOneUnreadable` | src/macula_py/pool.py:366-391 | At most one text that does not decode is ever taken, and serving is over when it is. |
| `ServingLaws.DispatchStartsFirst` | src/macula_py/pool.py:381-406 | A dispatched task's first step always runs its own code, never a cancellation; when the pump is over, and so when `stop()` cancels the tasks, all have begun. |
| `ServingLaws.SettledExactlyOnce` | src/macula_py/pool.py:362-459 | An item's pending call is answered, or its stream freed, by this side at most once in every race, and when all is quiet exactly once, a dropped item's never. |
| `ServingLaws.FirstAnswerStays` | abi/macula.h:254-260 | No later answer by a handler, a release, a deadline or the withdrawal changes a pending call's first. |
| `ServingLaws.OursIsSettled` | src/macula_py/pool.py:417-459 | A call whose answer on record is this side's was settled by its handler or its release, exactly once. |
| `ServingLaws.NobodyWaits` | src/macula_py/pool.py:393-401 | Once the procedure is withdrawn, every call ever taken from its inbox has its answer, dropped ones included, and one taken later has it at once. |
| `ServingLaws.SettledIsAnswered` | src/macula_py/pool.py:417-441 | A call its handler or its release has settled has an answer. |
| `ServingLaws.StopIsQuiescent` | src/macula_py/pool.py:393-408 | When the `stop()` that took the handle is over: the pump is over, nothing is ready, every task is done, the library was told to stop exactly once and has, and it raised if and only if the pump had failed. |
| `ServingLaws.QuietForGood` | src/macula_py/pool.py:393-408 | From then on no step dispatches, restarts the pump, stops again or sets a failure, and another `stop()` does nothing. |
| `ServingLaws.RaisesExactlyFailures` | src/macula_py/pool.py:386-408 | In every run, the `stop()` that ends it raises if and only if at some earlier step the pump's wait raised, or gave it a text that does not decode, while the handle was live: what the withdrawal itself brings about is never raised. |
| `ServingLaws.StopGoesOn` | src/macula_py/pool.py:399-408 | In each phase of `stop()` a step of what it waits for is open: the library's stop or its return, the loop's next turn or the pump's end, and the end itself once the tasks are done. |
| `ServingProgress.StopEnds` | src/macula_py/pool.py:402-408 | From when the withdrawal has come back, in every run, `stop()`, the loop, the pump's last native call and its release take at most six steps together, whatever handlers, deadlines and other cancellations do between them; and while `stop()` is not over one of those steps can be taken or a handler has not ended. |
| `ServingProgress.FewStopSteps` | src/macula_py/pool.py:402-408 | In every such run those steps and the rank left are together no more than the rank at its start. |
| `ServingLaws.WaitIsACall` | src/macula_py/pool.py:258-277 | Each step moves the pump's wait as a blocking call with a discard moves, or leaves it, or starts the next wait after a delivery. |
| `ServingProgress.EveryCallStep` | src/macula_py/pool.py:258-277 | And the other way: every step such a call can take where the pump waits is open to its wait, after turns of the loop that leave the wait alone: the native call ends as it may, its outcome is delivered or raised unless the pump was cancelled, it is cancelled, and what nobody awaits is released or dropped. |
| `ServingSteps.PumpOverExactly` | src/macula_py/pool.py:362-391 | In every run the pump is over if and only if at some step its turn came and it had been cancelled, or began with the handle gone, or its wait had raised, had given it a text that does not decode, or had found the inbox closed. |
| `ServingSteps.NoTextDecides` | src/macula_py/pool.py:274-283 | At the pump's turn a wait that gave no text ends serving if and only if the inbox was closed, and otherwise is waited anew; nothing is dispatched, dropped or failed either way. |
| `ServingSteps.StartDecides` | src/macula_py/pool.py:362-366 | The pump's first turn waits if the handle is there and it was not cancelled, and otherwise is its last. |
| `ServingSteps.TasksOpen` | src/macula_py/pool.py:417-459 | A handler that has begun can take every step of its own, whatever else goes on, and no other task moves. |
| `ServingSteps.OthersOpen` | abi/macula.h:250-262 | A taken call's deadline can fall, the pump's task be cancelled and `stop()` be called at any time; the library's stop runs and returns once asked for. |
| `ServingSteps.WaitsOpen` | src/macula_py/pool.py:258-277 | The library's call can come back any way, awaited or not, and what came back reaches a pump that waits. |
| `ServingSteps.WhoAnswers` | abi/macula.h:250-262 | In every reachable state, an answer goes on record as this side's if and only if the step settled the call, a handler's or a release's; as the library's only when a call is taken after the withdrawal, its deadline falls or the withdrawal comes. |
| `ServingTexts.TextDecides` | src/macula_py/pool.py:274-391 | At the pump's turn a text that spells no JSON value, or one with a "$bytes" tag in it that spells no bytes, ends serving and drops its item; a text that spells null drops its item and serving goes on; any other is dispatched. |
| `ServingTexts.DropHappens` | src/macula_py/pool.py:274-391 | A run, with its text, in which an item is taken from the inbox and then dispatched, released and answered by nobody, and serving ends. |
| `ServingInvariant.StepKeeps` | src/macula_py/pool.py:343-408 | Every step keeps the queue first-in first-out with the pump's turn last, the pump, jobs and stop phases in agreement, the items' account and the answers' record. |
| `Handlers.SettledOnce` | src/macula_py/pool.py:417-459 | A handler settles its item at most once; exactly once when it began, is done and its threads are; never when it was cancelled before it began. |
| `Handlers.HandlerKeeps` | src/macula_py/pool.py:417-459 | Every step of `_answer_call` or `_run_session` keeps that account, does not change whether it began, and does not undo its end. |
| `Handlers.AnswersOpen` | src/macula_py/pool.py:417-441 | Nothing is shut out: `_answer_call`'s handler ends any way, its answer is sent whatever the coroutine does, its await comes back or is cancelled. |
| `Handlers.SessionsOpen` | src/macula_py/pool.py:444-459 | Nor for `_run_session`: the handler ends any way and frees the stream as it likes, each operation begun comes back any way or is cancelled, every free begun reaches the stream. |
| `ServingRuns.Stop` | src/macula_py/pool.py:393-408 | The whole of `stop()` in one uninterrupted schedule, from any state of the invariant and with handlers that end once cancelled: the pump over, nothing ready, every task done, the library told once; it raises if and only if the pump had failed before it was called; called without a handle it changes nothing. |
| `ServingRuns.EndTask` | src/macula_py/pool.py:417-459 | A cancelled task, wherever its handler is, comes to its end without moving any other task. |
| `ServingObjects.ServedProcedure.constructor` | src/macula_py/pool.py:347-360 | The handle, no task, no failure, and the pump's first step ready. |
| `ServingObjects.ServedProcedure.PumpStarts` | src/macula_py/pool.py:362-366 | The pump waits for its first item, or is over if it was cancelled first or the handle is gone. |
| `ServingObjects.ServedProcedure.PumpTakes` | src/macula_py/pool.py:274-283 | A closed inbox ends the pump and an empty wait is waited anew, nothing else changing; an item's text that does not decode ends it, and one that gives a request is one more task. |
| `ServingObjects.ServedProcedure.TakeItem` | src/macula_py/pool.py:274-391 | An item whose text gives a request becomes one more task; any other is dropped, and one that does not decode ends the pump, with a failure if the handle is live. |
| `ServingObjects.ServedProcedure.Dispatch` | src/macula_py/pool.py:381-383 | One more task, for that item, its first step queued last; the pump waits anew. |
| `ServingObjects.ServedProcedure.PumpIsCancelled` | src/macula_py/pool.py:384-385 | The pump is over and its wait's outcome is owed to the release. |
| `ServingObjects.ServedProcedure.PumpFails` | src/macula_py/pool.py:386-391 | The pump is over, with a failure exactly when the handle is live. |
| `ServingObjects.ServedProcedure.TaskStep` | src/macula_py/pool.py:417-459 | One step of a handler is the machine's; a settlement it makes is recorded as the call's answer if it is the first. |
| `ServingObjects.ServedProcedure.LoopRuns` | src/macula_py/pool.py:360-383 | One turn of the loop is the machine's step for the first ready entry. |
| `ServingObjects.ServedProcedure.RunUntilIdle` | src/macula_py/pool.py:366-383 | The loop comes to rest with nothing ready, every dispatched task begun, a cancelled pump over, and the invariant kept. |
| `ServingObjects.ServedProcedure.StopTakesHandle` | src/macula_py/pool.py:397-401 | Only the `stop()` that finds the handle gets it, and it is gone; any other changes nothing. |
| `ServingObjects.ServedProcedure.LibraryWithdraws` | abi/macula.h:254-261 | Every call taken that had no answer is answered by the library, and none is left without. |
| `ServingObjects.ServedProcedure.CancelThePump` | src/macula_py/pool.py:402-403 | A pump not over is asked and has its turn queued, once. |
| `ServingObjects.ServedProcedure.CancelTheTasks` | src/macula_py/pool.py:404-406 | Every task not done is cancelled as withdrawn, one after the other, and nothing else changes. |
| `ServingObjects.ServedProcedure.StopEnds` | src/macula_py/pool.py:406-408 | `stop()` raises if and only if a failure was kept. |
| `ServingObjects.ServedProcedure.Release` | src/macula_py/pool.py:369-376 | An item nobody awaits is released with its own handle; an error or no text releases nothing. |
| `Answering.PendingCalls.Answer` | abi/macula.h:254-260 | The first answer is kept, every other is refused and changes nothing. |
| `Answering.AnswerCall` | src/macula_py/pool.py:417-441 | On every path exactly one answer is attempted: the encoded result for a returned value the encoder takes; handler_error for an exception or any other value; withdrawn for a cancellation by `stop()` and cancelled for any other; it stands if it is first; and the steps taken are a run of the handler's machine that ends having sent that answer. |
| `Answering.CallerReadsResult` | src/macula_py/pool.py:417-422 | A returned value is answered as a result if and only if the encoder takes it, and the text reads back as that value if and only if no dict in it is a bare tag. |
| `Streams.RunSession` | src/macula_py/pool.py:444-459 | On every path, its awaits one after another, whoever else freed it and wherever it is cancelled, the stream is freed exactly once and its object holds no handle; with the stream live, `close()` is begun if and only if the handler returned, then `abort()` if that failed, or `abort()` alone if the handler raised, and nothing after a cancelled handler; CancelledError comes out if and only if the handler or an await reached was cancelled, another error only from the abort; and the steps taken are a run of the handler's machine, in which they may also overlap. |
| `Streams.Stream.Free` | src/macula_py/stream.py:188-194 | The first free takes the handle and frees it in the library, any other does nothing. |
| `Streams.Stream.Begin` | src/macula_py/stream.py:124-171 | An operation is begun in the library, on the object's own handle, if and only if the stream was not freed. |
| `Streams.Stream.BeginWith` | src/macula_py/stream.py:139-152 | A freed stream is refused before its payload is looked at; a payload that cannot be sent begins nothing; otherwise its encoded text is sent. |
| `Streams.Iterate` | src/macula_py/stream.py:179-186 | Iterating yields the frames in order up to the first end, timeout or error, takes that one and no more, and raises exactly on an error. |
| `Subscriptions.Subscription.Next` | src/macula_py/pool.py:289-308 | The inbox's next item as an event, nothing or an error; `closed` is set exactly when the inbox is at its end; a stopped subscription takes nothing. |
| `Subscriptions.Subscription.Advance` | src/macula_py/pool.py:317-323 | The next event past any timeouts, or the end exactly when no event and no error is left; events are neither lost nor made up. |
| `Subscriptions.Subscription.Drain` | src/macula_py/pool.py:314-323 | Iterating to the end yields, in order, every event the inbox had, and closes; an error stops it with everything before it yielded and everything after it still there. |
| `Subscriptions.Subscription.Stop` | src/macula_py/pool.py:325-329 | The library is told once, with the subscription's handle. |
| `Subscriptions.AllUpToError` | src/macula_py/pool.py:280-282 | What an iteration takes of an inbox is all of it, or ends with its first error. |
| `NativeMemory.Native.Invoke` | src/macula_py/_native.py:81-89 | An error's text is copied, freed and raised; otherwise the result's buffer is the one thing live that was not; a buffer that comes with an error stays. |
| `NativeMemory.Native.TakeString` | src/macula_py/_native.py:95-102 | Nothing for NULL; else the buffer's text if its bytes are UTF-8, and an error if not; the buffer is freed either way. |
| `NativeMemory.Native.TakeBytes` | src/macula_py/_native.py:104-111 | No bytes for NULL; else the buffer's; the buffer is freed. |
| `NativeMemory.Native.Call` | src/macula_py/_native.py:81-111 | One call and its taking: the error's text; or nothing, the text or not UTF-8; or the bytes; with no buffer left unless the library gave both. |
| `NativeMemory.Native.Calls` | src/macula_py/_native.py:81-111 | Over any sequence of calls, each gives what it alone would, no buffer that was live changes, what is left behind is one buffer per call that got both an error and a result, and memory is as it was if and only if there was no such call. |
| `NativeMemory.NoLeaks` | src/macula_py/_native.py:81-111 | Nothing is left behind if and only if no call got both. |
| `WireLaws.RoundTrip` | src/macula_py/_wire.py:174-216 | For every value the encoder takes, decoding its text gives it back, tuples as lists and byte-likes as bytes, if and only if no dict inside it is a lone "$bytes" with a text. |
| `WireLaws.BareTagDecodes` | src/macula_py/_wire.py:208-211 | Such a dict comes back as the bytes its text spells in base64, or not at all. |
| `WireLaws.BareTagIsLost` | src/macula_py/_wire.py:208-211 | One of each kind. |
| `WireLaws.SentBackUnchanged` | src/macula_py/_wire.py:203-216 | Whatever text a value was decoded from, if the encoder takes it, its own text decodes to the same value. |
| `WireLaws.TextsDiffer` | src/macula_py/_wire.py:203-205 | Two values without bare tags that encode to one text are the same value up to sequence and byte-like types. |
| `WireLaws.Accepted` | src/macula_py/_wire.py:171-205 | `encode_payload` succeeds if and only if no node or key visited is at fault and no float is non-finite. |
| `WireLaws.Refused` | src/macula_py/_wire.py:171-205 | It fails with an error if and only if that is the first fault, depth first and keys before their values, a non-finite float only when there is no other. |
| `WireForms.Leaves` | src/macula_py/_wire.py:185-200 | None, integers within int64 and finite floats are their own texts; booleans, larger integers, non-finite floats and values of other types are each refused in their own way. |
| `WireForms.BytesText` | src/macula_py/_wire.py:194-195 | The text of a byte string of any type is `{"$bytes":"..."}` with its base64. |
| `WireForms.ListStops` | src/macula_py/_wire.py:196-197 | A list or tuple is refused for what its first item to stop the encoder is refused for, and for nothing else but a non-finite float. |
| `WireForms.DictStops` | src/macula_py/_wire.py:174-182 | A dict likewise, each key looked at before its value and after the entries before it. |
| `WireLaws.FromWireReceived` | src/macula_py/_wire.py:208-216 | Everything the decoder returns is built of dicts, lists and bytes and holds no bare tag. |
| `WireDecoding.Decodes` | src/macula_py/_wire.py:203-216 | `decode_payload` takes a text if and only if it spells a JSON value in which no object has "$bytes" for its only key, repeated or not, ending up with a text that is not base64; and gives None if and only if the text spells null. |
| `WireDecoding.EncodedDecodes` | src/macula_py/_wire.py:203-216 | The text of a value without bare tags spells such a value. |
| `WireDecoding.DecodesToMeaning` | src/macula_py/_wire.py:203-216 | What it gives is what the value the text spells stands for: lists in order, a tag's bytes, and for any other object the dict of its pairs. |
| `WireDecoding.DictIs` | src/macula_py/_wire.py:208-216 | That dict has each key once, with the last value it is given, in the order the keys first appear. |
| `Wire.ToWire` | src/macula_py/_wire.py:185-200 | The recursive encoder computes the wire form, or the error, of the specification the laws are about. |
| `Wire.ToWireList` | src/macula_py/_wire.py:196-197 | So does its loop over a list's items, stopping at the first error. |
| `Wire.ToWireMap` | src/macula_py/_wire.py:174-182 | And its loop over a dict's entries, each key looked at before its value. |
| `JsonReads.ParsePrint` | src/macula_py/_wire.py:203-216 | Reading the compact ASCII JSON text of any value gives that value. |
| `JsonReads.PrintReads` | src/macula_py/_wire.py:203-216 | A printed value is read back whole from in front of whatever delimiter follows it. |
| `JsonReads.ParseSpells` | src/macula_py/_wire.py:214-216 | The reader gives a value if and only if the text spells it by the grammar of RFC 8259: blanks at any boundary, any escape of any character, any number, the reader's three extra literals, and nothing else. |
| `JsonReads.DocReads` | src/macula_py/_wire.py:214-216 | Every document of the grammar is read whole, as its value, in front of whatever delimiter follows. |
| `JsonReads.PrintIsTheCompactText` | src/macula_py/_wire.py:203-205 | A value's printed text is the only document of it with no blanks and each character in its shortest ASCII form with lowercase hex. |
| `JsonNumber.NumeralScans` | src/macula_py/_wire.py:214-216 | A number of any sign, whole part, fraction and exponent is scanned whole, and is a float if and only if it has a fraction or an exponent. |
| `JsonNumber.IntValueIs` | src/macula_py/_wire.py:214-216 | An integer's value is the decimal sum of its digits, negated by a minus. |
| `JsonString.PiecesRead` | src/macula_py/_wire.py:214-216 | A string written with any mixture of raw characters, short escapes, \\u escapes of either hex case and surrogate pairs is read as the characters they stand for, up to its own quote. |
| `JsonString.QuoteReads` | src/macula_py/_wire.py:203-216 | A string of any characters, escaped and quoted, is read back up to its own closing quote. |
| `JsonString.EscapeCharReads` | src/macula_py/_wire.py:203-216 | Each character's escape, plain, short, \\u or surrogate pair, is read back as that character. |
| `JsonNumber.IntTextReads` | src/macula_py/_wire.py:188-191 | An integer's decimal text is scanned whole, as an integer, and has its value. |
| `JsonNumber.DigitsLengthIs` | src/macula_py/_wire.py:214-216 | A number's digits are all read, and nothing else. |
| `JsonNumber.ScanNumberStops` | src/macula_py/_wire.py:214-216 | A number's text is read to its own end, whatever delimiter follows it. |
| `Base64.EncodeDecode` | src/macula_py/_wire.py:194-210 | Strict decoding inverts encoding for byte strings of every length. |
| `Base64.DecodeEncode` | src/macula_py/_wire.py:194-210 | A text that decodes is the encoding of its bytes if and only if the bits its last quantum leaves over are zero. |
| `Base64.SymbolIs` | src/macula_py/_wire.py:194-210 | The symbols are RFC 4648's table 1, in order, and nothing else is one. |
| `Base64.DecodesBits` | src/macula_py/_wire.py:208-211 | Strict decoding gives bytes if and only if the text carries just their bits, most significant first, padded as section 4 says, whatever the spare bits. |
| `Base64.EncodesBits` | src/macula_py/_wire.py:194-195 | The encoding of bytes is the one text that carries them with zero in the spare bits. |
| `Ids.OneIdOneHex` | src/macula_py/_wire.py:219-242 | An accepted id's own hex is accepted as the same id; two accepted ids have the same hex if and only if they are the same bytes; two texts name one id if and only if they agree up to case. |
| `Ids.EachToItsOwn` | src/macula_py/_wire.py:223-242 | What `id32` or `mcid50` accepts, it accepts again unchanged, as hex and as bytes, and the other refuses. |
| `Ids.FormsOfAnId` | src/macula_py/_wire.py:223-242 | A form is accepted if and only if it is n raw bytes or spells n bytes in hex of either case; a refused text and refused bytes give each their own error. |
| `Ids.ToHexReads` | src/macula_py/_wire.py:223-242 | Reading bytes' hex text gives those bytes. |
| `Ids.FromHexPrints` | src/macula_py/_wire.py:223-242 | The hex of what a text spells is that text in lower case. |
| `Ids.FromHexAt` | src/macula_py/_wire.py:223-242 | Each byte read is its first digit's value times sixteen and its second's. |
| `Ids.ToHexAt` | src/macula_py/_wire.py:223-242 | Each byte is written as its high digit and then its low one. |
| `Hex.DigitIs` | src/macula_py/_wire.py:219-242 | The digits are 0 to 9 and a to f in order, read in either case and written in lower. |

## Left out

- Everything behind the C ABI: stations, the DHT, sealing, group epochs, signatures and UCAN verdicts. Only its stated contract for cancel tokens, pending calls, inboxes and buffers is modelled, as steps the environment may take.
- ctypes declarations, library lookup, the version gate, setup and scripts, option builders and dataclass copies: no behaviour of their own worth a proof.
- The loop closed in the middle of a call, interpreter exit, garbage collection, eager task factories and other event loops than asyncio's.
- Handlers that raise KeyboardInterrupt or SystemExit, and native calls whose own code raises StopIteration or a CancelledError: the future would be settled differently.
- BlockingLaws.TokenLife: a token's number is taken not to be used again after its free; a cancel that lands after the free is a step that changes nothing, not one that cannot happen.
- BlockingLaws.WindsDown: that a native call returns once its token is cancelled (abi/macula.h:62-66) is the library's promise; the step is always possible in the model, and NoLostCancellation says the token is cancelled.
- Losing an event or a frame under cancellation: `Subscription.next` and `Stream.recv` give no discard, so LostExactlyWhen covers them; Drain and Iterate are about uncancelled runs.
- ServingRuns.Stop: nothing is delivered and no thread runs between its pieces; ServingLaws.StopIsQuiescent is about every interleaving.
- ServingLaws.StopIsQuiescent: the native stop is taken to succeed, and `stop()` not to be cancelled itself nor called by one of its own handlers, and every handler to end; the state machine has no steps for the rest.
- ServingLaws.DispatchStartsFirst: the ready queue holds the pump's turns and the tasks' first steps, whose order matters; every other callback of the loop runs at any time, which allows more orders than a real queue. Only `stop()` and the handlers' own callers cancel tasks, and those only once begun; a loop shut down with tasks it has not started is not modelled.
- `_tasks` drops a task when it is done; the model keeps every task ever dispatched, finished ones among them, which `stop()` leaves alone.
- ServingTexts.TextDecides: an item's text that is JSON but not the object of a request the header promises (abi/macula.h:250-253) would fail inside its task, before any handler; the library is taken to keep that promise.
- Serving.Served: an item's handle travels with its text as one value, since each iteration has its own out parameter.
- Handlers.SettledOnce: a handler's own use of the stream is its frees; sends and receives change no ownership. `free()`'s check and swap is one step.
- Streams.RunSession: in the object form the handler's free, the close, the abort and the final free run one after the other; Handlers.SessionNext interleaves them, with any number of frees.
- Frames and request records as data (`_frame`, `request_from`, `seal_report`): field by field copies.
- `native_error` as a whole: only the kind "cancelled", and the message it carries; the "macula-py: " prefix of error texts is left off.
- Subscriptions.Subscription.Drain: an inbox is the finite list of what its calls will give; decoding errors and native errors are one kind of failing item.
- NativeMemory.Native.Invoke: the replacing and the strict UTF-8 decoders are parameters of the model; C strings are their bytes without the terminator.
- Lone surrogates: a string is a sequence of Unicode scalar values, so an escaped lone surrogate is refused where Python would read it.
- JsonReads.ParsePrint: a float is the decimal text that denotes it; its value, and so texts like 1e999, is not computed.
- Base64.EncodeDecode: padding after a complete text, which some Python versions let pass, is refused.
- `NaN`, `Infinity` and `-Infinity` are read, as json.loads reads them and RFC 8259 does not; the encoder refuses to write them.
- WireForms.ListStops: which of two non-finite floats is met first is not told apart; both are the one error.
- Cyclic payloads, recursion depth and Python's limit on the length of integer texts.
- A payload's dicts are sequences of entries with distinct keys; str, int and dict subclasses count as their base types.
