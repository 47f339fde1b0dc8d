/** Running a blocking native call from asyncio: the steps of the call's own
    thread, of the event loop and of whoever cancels the task, each atomic, in
    any order the guards allow. */
module Blocking {
  import opened Options

  datatype Error =
    | NativeCancelled(message: string)
    | MaculaError(message: string)
    | Failure(id: nat) // any other exception, by identity

  datatype Outcome<R> = Result(r: R) | Raises(e: Error)

  /** run_blocking with or without a discard, or run_native, which has neither
      token nor discard. */
  datatype Kind = Blocking(discard: bool) | Native

  /** What the call's thread does next. */
  datatype Worker<R> =
    | New | Append | Check | CancelOwn | Enter | Inside
    | Classify(message: string)
    | Free(o: Outcome<R>)
    | Post(o: Outcome<R>)
    | Exited

  /** A done callback, from being added to having run. */
  datatype Callback = Absent | Armed | Scheduled | Ran | Removed

  datatype Future<R> = Pending | Done(o: Outcome<R>) | Cancelled

  /** The awaiting coroutine: waiting on the shield, inside _end_the_call, or
      finished. */
  datatype Task<R> =
    | Waiting
    | EndCheck | EndSet | EndRead | EndCancel(h: nat) | EndRegister
    | Returned(r: R) | Raised(e: Error) | CancelledOut

  /** What happened, for stating properties; no step reads it. */
  datatype Past<R> = Past(
    asked: bool,                    // the task was cancelled
    native: Option<Outcome<R>>,     // how the native call ended
    cancels: nat,                   // macula_cancel of the own token
    struck: bool,                   // one of them while the token was live
    frees: nat)

  datatype Call<R> = Call(
    kind: Kind,
    worker: Worker<R>,
    token: Option<nat>,             // the thread's own h
    flag: bool,                     // the Event
    list: seq<nat>,                 // the one-slot token list
    posted: Option<Outcome<R>>,     // what call_soon_threadsafe was given
    settle: Callback,
    inner: Future<R>,
    consume: Callback,              // inner's callback that takes an error
    innerDone: Callback,            // inner's callback that settles the shield
    handOver: Callback,             // inner's callback that discards a result
    outer: Future<R>,               // the shield
    outerDone: Callback,
    wake: Callback,
    mustCancel: bool,
    task: Task<R>,
    discarded: seq<R>,              // what discard was called with
    past: Past<R>)

  /** Just after the thread started and the task suspended on the shield. */
  function Started<R>(kind: Kind): Call<R> {
    Call(kind, if kind.Native? then Enter else New, None, false, [], None, Absent, Pending, Armed, Armed, Absent,
         Pending, Armed, Armed, false, Waiting, [], Past(false, None, 0, false, 0))
  }

  datatype Action<R> =
    | WNew(h: nat) | WAppend | WCheck | WCancel | WEnter | WReturn(o: Outcome<R>) | WClassify | WFree | WPost
    | LSettle | LConsume | LInnerDone | LOuterDone | LHandOver | LWake
    | LEndCheck | LEndSet | LEndRead | LEndCancel | LEndRegister
    | ECancel

  predicate IsWorker<R>(a: Action<R>) {
    a.WNew? || a.WAppend? || a.WCheck? || a.WCancel? || a.WEnter? || a.WReturn? || a.WClassify? || a.WFree? || a.WPost?
  }

  predicate IsEnd<R>(a: Action<R>) {
    a.LEndCheck? || a.LEndSet? || a.LEndRead? || a.LEndCancel? || a.LEndRegister?
  }

  // ---- The call's own thread ---------------------------------------------

  function WorkerStep<R>(c: Call<R>, a: Action<R>): Option<Call<R>>
    requires IsWorker(a)
  {
    match (a, c.worker)
    case (WNew(h), New) => Some(c.(worker := Append, token := Some(h)))
    case (WAppend, Append) =>
      if c.token.Some? then Some(c.(worker := Check, list := c.list + [c.token.value])) else None
    case (WCheck, Check) => Some(c.(worker := if c.flag then CancelOwn else Enter))
    case (WCancel, CancelOwn) => Some(Strike(c).(worker := Enter))
    case (WEnter, Enter) => Some(c.(worker := Inside))
    case (WReturn(o), Inside) => Some(c.(worker := AfterCall(c.kind, o), past := c.past.(native := Some(o))))
    case (WClassify, Classify(message)) =>
      Some(c.(worker := Free(Raises(if c.flag then NativeCancelled(message) else MaculaError(message)))))
    case (WFree, Free(o)) => Some(c.(worker := Post(o), past := c.past.(frees := c.past.frees + 1)))
    case (WPost, Post(o)) => Some(c.(worker := Exited, posted := Some(o), settle := Scheduled))
    case _ => None
  }

  /** A native "cancelled" is looked at again; anything else goes on to the
      finally clause, and under run_native straight to the loop. */
  function AfterCall<R>(kind: Kind, o: Outcome<R>): Worker<R> {
    if kind.Native? then Post(o)
    else if o.Raises? && o.e.NativeCancelled? then Classify(o.e.message)
    else Free(o)
  }

  /** macula_cancel of the own token; after its free, it strikes nothing. */
  function Strike<R>(c: Call<R>): Call<R> {
    c.(past := c.past.(cancels := c.past.cancels + 1, struck := c.past.struck || c.past.frees == 0))
  }

  // ---- The event loop ----------------------------------------------------

  function Schedule(k: Callback): Callback {
    if k == Armed then Scheduled else k
  }

  /** _settle: set_result or set_exception, which schedules every callback the
      future has. */
  function Settle<R>(c: Call<R>, o: Outcome<R>): Call<R> {
    if !c.inner.Pending? then c
    else c.(inner := Done(o), consume := Schedule(c.consume), innerDone := Schedule(c.innerDone),
            handOver := Schedule(c.handOver))
  }

  /** The shield is done, with an outcome or cancelled. */
  function SettleOuter<R>(c: Call<R>, f: Future<R>): Call<R> {
    c.(outer := f, outerDone := Schedule(c.outerDone), wake := Schedule(c.wake))
  }

  /** A result is handed over, and nothing else is. */
  function ToDiscard<R>(f: Future<R>): seq<R> {
    if f.Done? && f.o.Result? then [f.o.r] else []
  }

  function LoopStep<R>(c: Call<R>, a: Action<R>): Option<Call<R>>
    requires !IsWorker(a) && !IsEnd(a) && !a.ECancel?
  {
    match a
    case LSettle =>
      if c.settle == Scheduled && c.posted.Some? then Some(Settle(c, c.posted.value).(settle := Ran)) else None
    case LConsume => if c.consume == Scheduled then Some(c.(consume := Ran)) else None
    case LInnerDone =>
      if c.innerDone != Scheduled then None
      else if c.outer.Pending? then Some(SettleOuter(c, c.inner).(innerDone := Ran))
      else Some(c.(innerDone := Ran))
    case LOuterDone =>
      if c.outerDone != Scheduled then None
      else Some(c.(outerDone := Ran, innerDone := if c.inner.Pending? && c.innerDone == Armed then Removed else c.innerDone))
    case LHandOver =>
      if c.handOver != Scheduled then None
      else Some(c.(handOver := Ran, discarded := c.discarded + ToDiscard(c.inner)))
    case _ =>
      if c.wake != Scheduled || !c.task.Waiting? then None
      else Some(c.(wake := Ran, mustCancel := false, task := Woken(c)))
  }

  /** Where the task's next step leaves it: a cancellation is thrown into the
      coroutine, or the shield's outcome comes out of the await. */
  function Woken<R>(c: Call<R>): Task<R> {
    if c.mustCancel || !c.outer.Done? then (if c.kind.Native? then CancelledOut else EndCheck)
    else
      match c.outer.o
      case Result(r) => Returned(r)
      case Raises(e) => if c.kind.Blocking? && e.NativeCancelled? then CancelledOut else Raised(e)
  }

  // ---- _end_the_call -----------------------------------------------------

  function EndStep<R>(c: Call<R>, a: Action<R>): Option<Call<R>>
    requires IsEnd(a)
  {
    match (a, c.task)
    case (LEndCheck, EndCheck) => Some(c.(task := if c.inner.Pending? then EndSet else EndRegister))
    case (LEndSet, EndSet) => Some(c.(flag := true, task := EndRead))
    case (LEndRead, EndRead) => Some(c.(task := if c.list == [] then EndRegister else EndCancel(c.list[0])))
    case (LEndCancel, EndCancel(_)) => Some(Strike(c).(task := EndRegister))
    case (LEndRegister, EndRegister) =>
      Some(c.(task := CancelledOut,
              handOver := if c.kind != Blocking(true) then c.handOver
                          else if c.inner.Pending? then Armed else Scheduled))
    case _ => None
  }

  // ---- Whoever cancels the task ------------------------------------------

  /** task.cancel(): cancels the shield it waits on, or, once that is done, has
      the next step throw. */
  function CancelTask<R>(c: Call<R>): Option<Call<R>> {
    if c.task != Waiting then None
    else if c.outer.Pending? then Some(SettleOuter(c, Cancelled).(past := c.past.(asked := true)))
    else Some(c.(mustCancel := true, past := c.past.(asked := true)))
  }

  /** One atomic step of a call, when it can take it. */
  function Next<R>(c: Call<R>, a: Action<R>): Option<Call<R>> {
    if IsWorker(a) then WorkerStep(c, a)
    else if IsEnd(a) then EndStep(c, a)
    else if a.ECancel? then CancelTask(c)
    else LoopStep(c, a)
  }

  // ---- Any number of calls over one token table --------------------------

  /** A token as the library keeps it; a freed one's number is not used again. */
  datatype Token = Token(cancelled: bool, frees: nat)

  type Table = map<nat, Token>

  function CancelToken(table: Table, h: nat): Table {
    if h in table && table[h].frees == 0 then table[h := table[h].(cancelled := true)] else table
  }

  function FreeToken(table: Table, h: nat): Table {
    if h in table then table[h := table[h].(frees := table[h].frees + 1)] else table
  }

  /** What a step does to the table: always through the handle the source's own
      line names. */
  function TableNext<R>(table: Table, c: Call<R>, a: Action<R>): Table {
    match a
    case WNew(h) => table[h := Token(false, 0)]
    case WCancel => if c.token.Some? then CancelToken(table, c.token.value) else table
    case WFree => if c.token.Some? then FreeToken(table, c.token.value) else table
    case LEndCancel => if c.task.EndCancel? then CancelToken(table, c.task.h) else table
    case _ => table
  }

  /** running is the call whose _end_the_call the loop is in the middle of. */
  datatype Sys<R> = Sys(table: Table, calls: map<nat, Call<R>>, running: Option<nat>)

  datatype SysAction<R> = Start(id: nat, kind: Kind) | Act(id: nat, a: Action<R>)

  /** The loop runs one callback at a time, to its end; threads run whenever
      they like. A new token is no handle in use, and 0 is never one. */
  predicate May<R>(s: Sys<R>, id: nat, a: Action<R>) {
    if IsWorker(a) then a.WNew? ==> a.h != 0 && a.h !in s.table
    else if IsEnd(a) then s.running == Some(id)
    else s.running == None
  }

  function SysNext<R>(s: Sys<R>, sa: SysAction<R>): Option<Sys<R>> {
    match sa
    case Start(id, kind) =>
      if s.running == None && id !in s.calls then Some(s.(calls := s.calls[id := Started(kind)])) else None
    case Act(id, a) =>
      if id !in s.calls || !May(s, id, a) then None
      else
        match Next(s.calls[id], a)
        case None => None
        case Some(c) =>
          Some(Sys(TableNext(s.table, s.calls[id], a), s.calls[id := c], RunningNext(s, id, a, c)))
  }

  function RunningNext<R>(s: Sys<R>, id: nat, a: Action<R>, d: Call<R>): Option<nat> {
    if d.task.EndCheck? then Some(id) else if a.LEndRegister? then None else s.running
  }

  function Init<R>(): Sys<R> {
    Sys(map[], map[], None)
  }
}
