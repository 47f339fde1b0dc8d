/** What a dispatch task runs: _answer_call for a served call, _run_session for
    a served stream. Each is the coroutine's own steps, in any order its awaits
    allow, with the native calls it has started on threads of their own. */
module Handlers {
  import opened Options

  // ---- _answer_call ------------------------------------------------------

  datatype Detail = Withdrawn | Cancelled | HandlerError

  datatype Reply = ResultReply | ErrorReply(detail: Detail)

  datatype AnswerPhase = NotAnswering | Handling | Sending | Answered

  /** sent is the one answer the coroutine has chosen; attempts counts the
      native answer calls made with it. */
  datatype Answer = Answer(phase: AnswerPhase, begun: bool, withdrawn: bool, asked: bool, sent: Option<Reply>, attempts: nat)

  datatype AnswerEvent =
    | HandlerReturns(encodable: bool)
    | HandlerRaises
    | HandlerCancelled(withdrawn: bool)  // a CancelledError comes out of it
    | SendRuns                           // the thread makes the native call
    | SendReturns                        // and the coroutine hears of it
    | SendCancelled
    | AnswerAsked                        // someone cancels the task

  function AnswerStart(a: Answer): Option<Answer> {
    if !a.phase.NotAnswering? then None
    else if a.asked then Some(a.(phase := Answered)) // cancelled before its first step
    else Some(a.(phase := Handling, begun := true))
  }

  function AnswerNext(a: Answer, e: AnswerEvent): Option<Answer> {
    match (e, a.phase)
    case (HandlerReturns(encodable), Handling) =>
      Some(a.(phase := Sending, sent := Some(if encodable then ResultReply else ErrorReply(HandlerError))))
    case (HandlerRaises, Handling) => Some(a.(phase := Sending, sent := Some(ErrorReply(HandlerError))))
    case (HandlerCancelled(withdrawn), Handling) =>
      // Answered at once, on the loop itself.
      if withdrawn && !a.withdrawn then None
      else Some(a.(phase := Answered, sent := Some(ErrorReply(if withdrawn then Withdrawn else Cancelled)),
                   attempts := a.attempts + 1))
    case (SendRuns, _) => if a.sent.Some? && a.attempts == 0 then Some(a.(attempts := 1)) else None
    case (SendReturns, Sending) => if a.attempts > 0 then Some(a.(phase := Answered)) else None
    case (SendCancelled, Sending) => if a.asked then Some(a.(phase := Answered)) else None
    case (AnswerAsked, _) => Some(a.(asked := true))
    case _ => None
  }

  // ---- _run_session ------------------------------------------------------

  datatype SessionPhase = NotRunning | Serving | Closing | Aborting | Freeing | Ended

  datatype FinalFree = NotStarted | OnThread | Swapped

  /** live is whether the Stream object still holds its handle; userFrees are
      free() calls of the handler's own that have not looked at it yet; frees
      counts macula_stream_free. */
  datatype Session = Session(
    phase: SessionPhase, begun: bool, asked: bool, live: bool, userFrees: nat, finalFree: FinalFree, frees: nat)

  datatype NativeEnd = Fine | ClosedRaised | OtherRaised

  datatype SessionEvent =
    | UserFrees                    // the handler calls free(), or leaves its async with
    | UserFreeSwaps                // one of those checks and swaps the handle
    | SessionReturns               // the handler returns
    | SessionRaises
    | SessionCancelled
    | NativeEnds(how: NativeEnd)   // close() or abort() comes back
    | NativeCancelled              // or is cancelled while it is awaited
    | FinalFreeSwaps               // the finally clause's free() runs on its thread
    | FreeReturns
    | FreeCancelled
    | SessionAsked                 // someone cancels the task

  function SessionStart(s: Session): Option<Session> {
    if !s.phase.NotRunning? then None
    else if s.asked then Some(s.(phase := Ended))
    else Some(s.(phase := Serving, begun := true))
  }

  /** The finally clause: a thread is started for free(), then awaited. */
  function Finally(s: Session): Session {
    s.(phase := Freeing, finalFree := OnThread)
  }

  /** abort() passes the _live gate, or raises the ClosedError that is ignored. */
  function AbortOrFinally(s: Session): Session {
    if s.live then s.(phase := Aborting) else Finally(s)
  }

  /** free(): the handle is taken and freed by the first to find it there. */
  function Swap(s: Session): Session {
    if s.live then s.(live := false, frees := s.frees + 1) else s
  }

  function SessionNext(s: Session, e: SessionEvent): Option<Session> {
    match (e, s.phase)
    case (UserFrees, Serving) => Some(s.(userFrees := s.userFrees + 1))
    case (UserFreeSwaps, _) => if s.userFrees > 0 then Some(Swap(s).(userFrees := s.userFrees - 1)) else None
    case (SessionReturns, Serving) => Some(if s.live then s.(phase := Closing) else Finally(s))
    case (SessionRaises, Serving) => Some(AbortOrFinally(s))
    case (SessionCancelled, Serving) => Some(Finally(s))
    case (NativeEnds(how), Closing) => Some(if how.OtherRaised? then AbortOrFinally(s) else Finally(s))
    case (NativeEnds(_), Aborting) => Some(Finally(s))
    case (NativeCancelled, Closing) => if s.asked then Some(Finally(s)) else None
    case (NativeCancelled, Aborting) => if s.asked then Some(Finally(s)) else None
    case (FinalFreeSwaps, _) => if s.finalFree.OnThread? then Some(Swap(s).(finalFree := Swapped)) else None
    case (FreeReturns, Freeing) => if s.finalFree.Swapped? then Some(s.(phase := Ended)) else None
    case (FreeCancelled, Freeing) => if s.asked then Some(s.(phase := Ended)) else None
    case (SessionAsked, _) => Some(s.(asked := true))
    case _ => None
  }

  // ---- Either ------------------------------------------------------------

  datatype Handler = ForCall(a: Answer) | ForStream(s: Session)

  datatype HandlerEvent = CallEvent(a: AnswerEvent) | StreamEvent(s: SessionEvent)

  function Fresh(streams: bool): Handler {
    if streams then ForStream(Session(NotRunning, false, false, true, 0, NotStarted, 0))
    else ForCall(Answer(NotAnswering, false, false, false, None, 0))
  }

  function Start(x: Handler): Option<Handler> {
    match x
    case ForCall(a) => (match AnswerStart(a) case None => None case Some(b) => Some(ForCall(b)))
    case ForStream(s) => (match SessionStart(s) case None => None case Some(t) => Some(ForStream(t)))
  }

  function HandlerNext(x: Handler, e: HandlerEvent): Option<Handler> {
    match (x, e)
    case (ForCall(a), CallEvent(e)) => (match AnswerNext(a, e) case None => None case Some(b) => Some(ForCall(b)))
    case (ForStream(s), StreamEvent(e)) => (match SessionNext(s, e) case None => None case Some(t) => Some(ForStream(t)))
    case _ => None
  }

  /** task.cancel("withdrawn"), as stop() cancels it. */
  function Withdraw(x: Handler): Handler {
    match x
    case ForCall(a) => if a.phase.Answered? then x else ForCall(a.(asked := true, withdrawn := true))
    case ForStream(s) => if s.phase.Ended? then x else ForStream(s.(asked := true))
  }

  /** Its task has not taken its first step. */
  predicate Unstarted(x: Handler) {
    match x
    case ForCall(a) => a.phase.NotAnswering?
    case ForStream(s) => s.phase.NotRunning?
  }

  /** Its task is done. */
  predicate Finished(x: Handler) {
    match x
    case ForCall(a) => a.phase.Answered?
    case ForStream(s) => s.phase.Ended?
  }

  /** Its first step was its code's, not a cancellation. */
  predicate Begun(x: Handler) {
    match x
    case ForCall(a) => a.begun
    case ForStream(s) => s.begun
  }

  /** No thread of its is left to run. */
  predicate Quiet(x: Handler) {
    match x
    case ForCall(a) => a.sent.Some? ==> a.attempts > 0
    case ForStream(s) => s.userFrees == 0 && !s.finalFree.OnThread?
  }

  /** How often the item's handle was settled: the pending call answered, or the
      stream freed. */
  function Settlements(x: Handler): nat {
    match x
    case ForCall(a) => a.attempts
    case ForStream(s) => s.frees
  }

  ghost predicate AnswerInv(a: Answer) {
    && a.attempts <= 1
    && (a.attempts == 1 ==> a.sent.Some?)
    && (a.sent.Some? ==> a.begun && (a.phase.Sending? || a.phase.Answered?))
    && (a.begun ==> (a.sent.Some? <==> a.phase.Sending? || a.phase.Answered?))
    && (a.phase.NotAnswering? ==> !a.begun)
    && (a.phase.Handling? || a.phase.Sending? ==> a.begun)
    && (!a.begun && a.phase.Answered? ==> a.asked)
  }

  ghost predicate SessionInv(s: Session) {
    && s.frees == (if s.live then 0 else 1)
    && (s.userFrees > 0 ==> s.begun)
    && (!s.finalFree.NotStarted? <==> s.begun && (s.phase.Freeing? || s.phase.Ended?))
    && (s.finalFree.Swapped? ==> !s.live)
    && (!s.live ==> s.begun)
    && (s.phase.NotRunning? ==> !s.begun)
    && (s.begun <==> !s.phase.NotRunning? && !(s.phase.Ended? && s.finalFree.NotStarted?))
    && (!s.begun && s.phase.Ended? ==> s.asked)
  }

  ghost predicate HandlerInv(x: Handler) {
    match x
    case ForCall(a) => AnswerInv(a)
    case ForStream(s) => SessionInv(s)
  }

  lemma AnswerKeeps(a: Answer, e: AnswerEvent)
    requires AnswerInv(a) && AnswerNext(a, e).Some?
    ensures AnswerInv(AnswerNext(a, e).value)
  {
  }

  lemma SessionKeeps(s: Session, e: SessionEvent)
    requires SessionInv(s) && SessionNext(s, e).Some?
    ensures SessionInv(SessionNext(s, e).value)
  {
  }

  /** Every path through a handler keeps the account of its one handle. */
  lemma HandlerKeeps(x: Handler, e: HandlerEvent)
    requires HandlerInv(x) && HandlerNext(x, e).Some? && !Unstarted(x)
    ensures HandlerInv(HandlerNext(x, e).value) && !Unstarted(HandlerNext(x, e).value)
    ensures Begun(HandlerNext(x, e).value) == Begun(x)
    ensures Finished(x) ==> Finished(HandlerNext(x, e).value)
  {
    match (x, e)
    case (ForCall(a), CallEvent(e)) => AnswerKeeps(a, e);
    case (ForStream(s), StreamEvent(e)) => SessionKeeps(s, e);
  }

  /** Nothing is shut out. A handler returns, raises, or is cancelled, by
      stop() or otherwise; the answer that was asked for is sent, whatever the
      coroutine is doing; the await of it comes back, or is cancelled once the
      task was; and a task can be cancelled any time. */
  lemma AnswersOpen(a: Answer, encodable: bool)
    ensures a.phase.Handling? ==>
              && AnswerNext(a, HandlerReturns(encodable)).Some? && AnswerNext(a, HandlerRaises).Some?
              && AnswerNext(a, HandlerCancelled(false)).Some? && (a.withdrawn ==> AnswerNext(a, HandlerCancelled(true)).Some?)
    ensures a.sent.Some? && a.attempts == 0 ==> AnswerNext(a, SendRuns) == Some(a.(attempts := 1))
    ensures a.phase.Sending? && a.attempts > 0 ==> AnswerNext(a, SendReturns).Some?
    ensures a.phase.Sending? && a.asked ==> AnswerNext(a, SendCancelled).Some?
    ensures AnswerNext(a, AnswerAsked) == Some(a.(asked := true))
  {
  }

  /** A stream's handler the same, freeing its stream as it likes; each native
      operation begun comes back any way or is cancelled, and every free that
      was begun reaches the stream. */
  lemma SessionsOpen(s: Session, how: NativeEnd)
    ensures s.phase.Serving? ==>
              && SessionNext(s, UserFrees).Some? && SessionNext(s, SessionReturns).Some?
              && SessionNext(s, SessionRaises).Some? && SessionNext(s, SessionCancelled).Some?
    ensures s.userFrees > 0 ==> SessionNext(s, UserFreeSwaps).Some? && !SessionNext(s, UserFreeSwaps).value.live
    ensures s.phase.Closing? || s.phase.Aborting? ==>
              SessionNext(s, NativeEnds(how)).Some? && (s.asked ==> SessionNext(s, NativeCancelled).Some?)
    ensures s.finalFree.OnThread? ==> SessionNext(s, FinalFreeSwaps).Some? && !SessionNext(s, FinalFreeSwaps).value.live
    ensures s.phase.Freeing? ==>
              (s.finalFree.Swapped? ==> SessionNext(s, FreeReturns).Some?) && (s.asked ==> SessionNext(s, FreeCancelled).Some?)
    ensures SessionNext(s, SessionAsked) == Some(s.(asked := true))
  {
  }

  /** At most one settlement at any time; exactly one when a handler that began
      is done and its threads are; none of a task cancelled before it began. */
  lemma SettledOnce(x: Handler)
    requires HandlerInv(x)
    ensures Settlements(x) <= 1
    ensures Finished(x) && Quiet(x) ==> Settlements(x) == if Begun(x) then 1 else 0
    ensures Unstarted(x) ==> Settlements(x) == 0
  {
  }
}
