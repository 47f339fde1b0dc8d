/** A served procedure: the pump that takes its inbox, the handler tasks it
    dispatches, and the stop() that races them all. The pump's wait for an item
    is the atomic blocking call of CallSpec, with a discard. */
module Serving {
  import opened Options
  import Blocking
  import CallSpec
  import Handlers

  /** What decoding an item's text gives: an error, None, or anything else. */
  datatype Reading = Unreadable | NullItem | Request

  /** What one macula_served_next hands back: an item's handle with its text, as
      it will be read, or no text, with the closed flag. */
  datatype Took = Item(h: nat, reading: Reading) | NoText(closed: bool)

  datatype Pump = NotStarted | Pumping | Over

  /** The stop() that took the handle; every other one returns at once. */
  datatype Stop = NotAsked | Withdrawing | AwaitingPump | AwaitingTasks | Returned | RaisedFailure

  /** The ready-queue entries whose order matters here: the pump's next step and
      a dispatch task's first one. */
  datatype Entry = PumpTurn | FirstStep(job: nat)

  datatype Job = Job(h: nat, handler: Handlers.Handler)

  /** Who a pending call was effectively answered by. */
  datatype Answerer = Us | Library

  /** The items' account, by their handles. */
  datatype Items = Items(
    taken: seq<nat>,     // from the inbox
    released: seq<nat>,  // handed to _release
    dropped: seq<nat>,   // their texts gave no request
    unreadable: nat)     // how many of those did not decode

  /** The library's side: macula_served_stop calls begun, whether one has run,
      and how each pending call was answered. */
  datatype Ledger = Ledger(stops: nat, withdrawn: bool, answers: map<nat, Answerer>)

  datatype Served = Served(
    streams: bool,              // serve_stream, or serve
    handle: bool,               // _handle is not None
    ready: seq<Entry>,
    pump: Pump,
    pumpAsked: bool,            // the pump's task was cancelled
    wait: CallSpec.Spec<Took>,  // the pump's run_blocking, while it pumps and after
    jobs: seq<Job>,             // every task dispatched, in order
    failure: bool,              // _failure is set
    stop: Stop,
    // What happened; no step reads these but to keep the library's contract.
    items: Items,
    library: Ledger)

  function Opened(streams: bool): Served {
    Served(streams, true, [PumpTurn], NotStarted, false, NewWait(), [], false, NotAsked, Items([], [], [], 0),
           Ledger(0, false, map[]))
  }

  function NewWait(): CallSpec.Spec<Took> {
    CallSpec.Spec(None, CallSpec.Awaiting)
  }

  datatype Action =
    | NativeEnds(o: Blocking.Outcome<Took>) // the wait's native call comes back
    | WaitLands                             // its outcome reaches the shield
    | LoopTurn                              // the first ready entry runs
    | JobStep(job: nat, e: Handlers.HandlerEvent)
    | DiscardRuns                           // a result nobody awaits is handed over
    | Deadline(h: nat)                      // the library answers a call itself
    | PumpCancelled                         // someone else cancels the pump's task
    | StopCalled
    | StopRuns                              // macula_served_stop, on its thread
    | StopWithdrawn
    | StopSeesPumpOver
    | StopSeesTasksOver

  /** A pending handle ends with its first answer; later ones change nothing. */
  function AnswerWith(s: Served, h: nat, who: Answerer): Ledger {
    if s.streams || h in s.library.answers then s.library
    else s.library.(answers := s.library.answers[h := who])
  }

  function NativeStep(s: Served, o: Blocking.Outcome<Took>): Option<Served> {
    if !Waits(s) || s.wait.native.Some? then None
    else if o.Result? && o.r.Item? then
      // The library never hands out a handle twice.
      if o.r.h in s.items.taken then None
      else Some(s.(wait := s.wait.(native := Some(o)), items := s.items.(taken := s.items.taken + [o.r.h]),
                   // A stopped procedure's calls have ended already.
                   library := if s.library.withdrawn then AnswerWith(s, o.r.h, Library) else s.library))
    else Some(s.(wait := s.wait.(native := Some(o))))
  }

  /** A macula_served_next may be running: the pump waits for it, or was
      cancelled out of waiting. */
  predicate Waits(s: Served) {
    (s.pump.Pumping? && s.wait.fate.Awaiting?) || s.wait.fate.CancelledOwing?
  }

  /** The wait's shield is settled, which queues the pump's next step unless a
      cancellation already has. */
  function LandStep(s: Served): Option<Served> {
    if !s.pump.Pumping? || s.wait.native.None? || PumpTurn in s.ready then None
    else Some(s.(ready := s.ready + [PumpTurn]))
  }

  function LoopStep(s: Served): Option<Served> {
    if |s.ready| == 0 then None
    else
      var rest := s.(ready := s.ready[1..]);
      match s.ready[0]
      case FirstStep(job) => if job < |s.jobs| then FirstStepOf(rest, job) else None
      case PumpTurn => PumpStep(rest)
  }

  function FirstStepOf(s: Served, job: nat): Option<Served>
    requires job < |s.jobs|
  {
    match Handlers.Start(s.jobs[job].handler)
    case None => None
    case Some(x) => Some(s.(jobs := s.jobs[job := s.jobs[job].(handler := x)]))
  }

  /** One step of the pump's task: it starts, is cancelled, or takes what its
      wait ended with. */
  function PumpStep(s: Served): Option<Served> {
    match s.pump
    case Over => None
    case NotStarted =>
      // Cancelled before it began, or the handle already gone: the assertion
      // on it fails, outside the try.
      if s.pumpAsked || !s.handle then Some(s.(pump := Over)) else Some(s.(pump := Pumping))
    case Pumping =>
      if s.pumpAsked then Some(PumpCancelledOut(s))
      else
        match s.wait.native
        case None => None
        case Some(Raises(e)) => Some(PumpRaised(s, e))
        case Some(Result(t)) => Some(Take(s.(wait := s.wait.(fate := CallSpec.Delivered(t))), t))
  }

  /** A cancellation is thrown into the wait, whose outcome is now nobody's. */
  function PumpCancelledOut(s: Served): Served {
    s.(pump := Over, wait := s.wait.(fate := CallSpec.CancelledOwing))
  }

  function PumpRaised(s: Served, e: Blocking.Error): Served {
    Fail(s.(wait := s.wait.(fate := CallSpec.Failed(CallSpec.Reported(Blocking.Blocking(true), e)))))
  }

  /** An item is decoded and dispatched, with no suspension in between; a None
      passes for a wait that ran out. */
  function Take(s: Served, t: Took): Served {
    match t
    case NoText(closed) => if closed then s.(pump := Over) else s.(wait := NewWait())
    case Item(h, reading) =>
      if reading.Request? then Dispatched(s, h)
      else if reading.NullItem? then s.(wait := NewWait(), items := Drop(s, h))
      else Fail(s.(items := Drop(s, h).(unreadable := s.items.unreadable + 1)))
  }

  function Drop(s: Served, h: nat): Items {
    s.items.(dropped := s.items.dropped + [h])
  }

  function Dispatched(s: Served, h: nat): Served {
    s.(wait := NewWait(), jobs := s.jobs + [Job(h, Handlers.Fresh(s.streams))], ready := s.ready + [FirstStep(|s.jobs|)])
  }

  /** The pump's except clause: a failure under stop() is stop()'s doing. */
  function Fail(s: Served): Served {
    s.(pump := Over, failure := s.failure || s.handle)
  }

  function HandlerStep(s: Served, job: nat, e: Handlers.HandlerEvent): Option<Served> {
    if job >= |s.jobs| || Handlers.Unstarted(s.jobs[job].handler) then None
    else
      match Handlers.HandlerNext(s.jobs[job].handler, e)
      case None => None
      case Some(x) =>
        Some(s.(jobs := s.jobs[job := s.jobs[job].(handler := x)],
                library := if Handlers.Settlements(x) > Handlers.Settlements(s.jobs[job].handler)
                           then AnswerWith(s, s.jobs[job].h, Us) else s.library))
  }

  /** A result nobody awaits: an item's own handle is released, no text is
      nothing to release. */
  function DiscardStep(s: Served): Option<Served> {
    if !s.wait.fate.CancelledOwing? || s.wait.native.None? then None
    else
      match s.wait.native.value
      case Raises(_) => Some(s.(wait := s.wait.(fate := CallSpec.CancelledDropped)))
      case Result(t) =>
        var over := s.(wait := s.wait.(fate := CallSpec.CancelledReleased(t)));
        if t.Item? then Some(over.(items := s.items.(released := s.items.released + [t.h]), library := AnswerWith(s, t.h, Us)))
        else Some(over)
  }

  /** cancel() of the pump's task: the wait's shield is cancelled, which queues
      the task's next step; a task that is over is past it. */
  function CancelPump(s: Served): Served {
    if s.pump.Over? then s
    else s.(pumpAsked := true, ready := if PumpTurn in s.ready then s.ready else s.ready + [PumpTurn])
  }

  /** stop(), for the one caller that finds the handle there. */
  function StopStep(s: Served, a: Action): Option<Served>
    requires a.StopCalled? || a.StopRuns? || a.StopWithdrawn? || a.StopSeesPumpOver? || a.StopSeesTasksOver?
  {
    match (a, s.stop)
    case (StopCalled, _) =>
      if !s.handle then Some(s) else Some(s.(handle := false, stop := Withdrawing, library := s.library.(stops := s.library.stops + 1)))
    case (StopRuns, Withdrawing) => if s.library.withdrawn then None else Some(s.(library := EndAll(s)))
    case (StopWithdrawn, Withdrawing) => if s.library.withdrawn then Some(CancelPump(s).(stop := AwaitingPump)) else None
    case (StopSeesPumpOver, AwaitingPump) =>
      if s.pump.Over? then Some(s.(stop := AwaitingTasks, jobs := WithdrawAll(s.jobs))) else None
    case (StopSeesTasksOver, AwaitingTasks) =>
      if forall j <- s.jobs :: Handlers.Finished(j.handler)
      then Some(s.(stop := if s.failure then RaisedFailure else Returned)) else None
    case _ => None
  }

  /** macula_served_stop answers every call it still holds. */
  function EndAll(s: Served): Ledger {
    var answers := s.library.answers;
    s.library.(withdrawn := true,
               answers := if s.streams then answers
                          else (map h | h in s.items.taken && h !in answers :: Library) + answers)
  }

  function WithdrawAll(jobs: seq<Job>): (r: seq<Job>)
    ensures |r| == |jobs|
    ensures forall i :: 0 <= i < |jobs| ==> r[i] == jobs[i].(handler := Handlers.Withdraw(jobs[i].handler))
  {
    if |jobs| == 0 then []
    else [jobs[0].(handler := Handlers.Withdraw(jobs[0].handler))] + WithdrawAll(jobs[1..])
  }

  /** One atomic step of everything that touches a served procedure. */
  function Next(s: Served, a: Action): Option<Served> {
    match a
    case NativeEnds(o) => NativeStep(s, o)
    case WaitLands => LandStep(s)
    case LoopTurn => LoopStep(s)
    case JobStep(job, e) => HandlerStep(s, job, e)
    case DiscardRuns => DiscardStep(s)
    case PumpCancelled => Some(CancelPump(s))
    case Deadline(h) => if h in s.items.taken then Some(s.(library := AnswerWith(s, h, Library))) else None
    case _ => StopStep(s, a)
  }
}
