/** _answer_call, in one piece: how a served call's handler ends, and each await
    with it, decides the one answer its pending handle is given. */
module Answering {
  import opened Options
  import Handlers
  import Machines
  import Wire
  import WireLaws

  datatype Message = Result(json: string) | Error(detail: Handlers.Detail)

  /** The library's pending calls: a handle ends with its first answer, and is
      "answered" to any other. */
  class PendingCalls {
    var answers: map<nat, Message>
    ghost var attempts: seq<nat>

    constructor ()
      ensures answers == map[] && attempts == []
    {
      answers, attempts := map[], [];
    }

    method Answer(h: nat, m: Message) returns (taken: bool)
      modifies this
      ensures attempts == old(attempts) + [h]
      ensures taken <==> h !in old(answers)
      ensures answers == if taken then old(answers)[h := m] else old(answers)
    {
      attempts := attempts + [h];
      taken := h !in answers;
      if taken {
        answers := answers[h := m];
      }
    }
  }

  datatype HandlerEnd = Returns(value: Wire.Value) | Raises | Cancelled(withdrawn: bool)

  datatype CallEnd = Answered | AnsweredLate | CancelledError

  /** The answer a handler's end calls for. */
  function AnswerTo(handler: HandlerEnd): Message {
    match handler
    case Cancelled(withdrawn) => Error(if withdrawn then Handlers.Withdrawn else Handlers.Cancelled)
    case Raises => Error(Handlers.HandlerError)
    case Returns(value) =>
      match Wire.EncodePayload(value)
      case Ok(json) => Result(json)
      case Err(_) => Error(Handlers.HandlerError)
  }

  /** The task's own automaton when the handler starts, its task free to be
      cancelled, by stop() or by anyone. */
  function Begun(withdrawn: bool): Handlers.Answer {
    Handlers.Answer(Handlers.Handling, true, withdrawn, true, None, 0)
  }

  ghost predicate Follows(withdrawn: bool, trace: seq<Handlers.AnswerEvent>, a: Handlers.Answer) {
    Machines.Run(Handlers.AnswerNext, Begun(withdrawn), trace) == Some(a)
  }

  lemma Onwards(withdrawn: bool, trace: seq<Handlers.AnswerEvent>, a: Handlers.Answer, e: Handlers.AnswerEvent, b: Handlers.Answer)
    requires Follows(withdrawn, trace, a) && Handlers.AnswerNext(a, e) == Some(b)
    ensures Follows(withdrawn, trace + [e], b)
  {
    Machines.RunAppend(Handlers.AnswerNext, Begun(withdrawn), trace, [e]);
    assert [e][1..] == [];
  }

  /** How the handler's end looks to its automaton. */
  function FirstEvent(handler: HandlerEnd): Handlers.AnswerEvent {
    match handler
    case Cancelled(withdrawn) => Handlers.HandlerCancelled(withdrawn)
    case Raises => Handlers.HandlerRaises
    case Returns(value) => Handlers.HandlerReturns(Wire.EncodePayload(value).Ok?)
  }

  function TraceOf(handler: HandlerEnd, sendingCancelled: bool): seq<Handlers.AnswerEvent> {
    if handler.Cancelled? then [FirstEvent(handler)]
    else [FirstEvent(handler)] + [Handlers.SendRuns] + [if sendingCancelled then Handlers.SendCancelled else Handlers.SendReturns]
  }

  function ReplyOf(m: Message): Handlers.Reply {
    match m
    case Result(_) => Handlers.ResultReply
    case Error(detail) => Handlers.ErrorReply(detail)
  }

  predicate IsWithdrawn(handler: HandlerEnd) {
    handler.Cancelled? && handler.withdrawn
  }

  /** The task over, its one answer sent. */
  function Ended(handler: HandlerEnd): Handlers.Answer {
    Begun(IsWithdrawn(handler)).(phase := Handlers.Answered, sent := Some(ReplyOf(AnswerTo(handler))), attempts := 1)
  }

  lemma FirstFollows(handler: HandlerEnd)
    ensures var a := if handler.Cancelled? then Ended(handler) else Ended(handler).(phase := Handlers.Sending, attempts := 0);
            Follows(IsWithdrawn(handler), [FirstEvent(handler)], a)
  {
    var a := if handler.Cancelled? then Ended(handler) else Ended(handler).(phase := Handlers.Sending, attempts := 0);
    FirstNext(handler);
    Onwards(IsWithdrawn(handler), [], Begun(IsWithdrawn(handler)), FirstEvent(handler), a);
    assert [] + [FirstEvent(handler)] == [FirstEvent(handler)];
  }

  lemma FirstNext(handler: HandlerEnd)
    ensures Handlers.AnswerNext(Begun(IsWithdrawn(handler)), FirstEvent(handler)) ==
            Some(if handler.Cancelled? then Ended(handler) else Ended(handler).(phase := Handlers.Sending, attempts := 0))
  {
  }

  lemma TraceFollows(handler: HandlerEnd, sendingCancelled: bool)
    ensures Follows(IsWithdrawn(handler), TraceOf(handler, sendingCancelled), Ended(handler))
  {
    FirstFollows(handler);
    if !handler.Cancelled? {
      var first := [FirstEvent(handler)];
      var end := Ended(handler);
      var last := if sendingCancelled then Handlers.SendCancelled else Handlers.SendReturns;
      Onwards(false, first, end.(phase := Handlers.Sending, attempts := 0), Handlers.SendRuns, end.(phase := Handlers.Sending));
      Onwards(false, first + [Handlers.SendRuns], end.(phase := Handlers.Sending), last, end);
    }
  }

  /** Whatever the handler does and wherever the task is cancelled, one answer is
      attempted, the one the handler's end calls for; it stands if it is the
      first. The steps taken are a run of the answer's automaton, which ends
      having sent that answer, once. */
  method AnswerCall(calls: PendingCalls, h: nat, handler: HandlerEnd, sendingCancelled: bool)
    returns (end: CallEnd, ghost trace: seq<Handlers.AnswerEvent>, ghost a: Handlers.Answer)
    modifies calls
    ensures calls.attempts == old(calls.attempts) + [h]
    ensures calls.answers == if h in old(calls.answers) then old(calls.answers) else old(calls.answers)[h := AnswerTo(handler)]
    ensures end == if handler.Cancelled? || sendingCancelled then CancelledError
                   else if h in old(calls.answers) then AnsweredLate else Answered
    ensures Follows(IsWithdrawn(handler), trace, a) && a.phase.Answered? && a.attempts == 1
    ensures a.sent == Some(ReplyOf(AnswerTo(handler)))
    // What the answer is, and what it tells the automaton, for each end of the handler.
    ensures h !in old(calls.answers) ==>
              match handler
              case Cancelled(byStop) => calls.answers[h] == Error(if byStop then Handlers.Withdrawn else Handlers.Cancelled)
              case Raises => calls.answers[h] == Error(Handlers.HandlerError)
              case Returns(value) =>
                if Wire.EncodePayload(value).Ok? then calls.answers[h] == Result(Wire.EncodePayload(value).value)
                else calls.answers[h] == Error(Handlers.HandlerError)
    ensures match handler
            case Cancelled(byStop) => a.sent == Some(Handlers.ErrorReply(if byStop then Handlers.Withdrawn else Handlers.Cancelled))
            case Raises => a.sent == Some(Handlers.ErrorReply(Handlers.HandlerError))
            case Returns(value) =>
              a.sent == Some(if Wire.EncodePayload(value).Ok? then Handlers.ResultReply else Handlers.ErrorReply(Handlers.HandlerError))
  {
    TraceFollows(handler, sendingCancelled);
    trace, a := TraceOf(handler, sendingCancelled), Ended(handler);
    var message: Message;
    match handler {
      case Cancelled(byStop) =>
        // On the loop itself, before the cancellation goes on.
        var _ := calls.Answer(h, Error(if byStop then Handlers.Withdrawn else Handlers.Cancelled));
        return CancelledError, trace, a;
      case Raises => message := Error(Handlers.HandlerError);
      case Returns(value) =>
        var text := Wire.EncodePayload(value);
        message := if text.Ok? then Result(text.value) else Error(Handlers.HandlerError);
    }
    // On a thread of its own, which answers whether or not it is awaited.
    var taken := calls.Answer(h, message);
    end := if sendingCancelled then CancelledError else if taken then Answered else AnsweredLate;
  }

  /** A caller whose call was answered with its handler's value reads that value
      back exactly, tuples as lists and byte-likes as bytes, when no dict in it
      is a lone "$bytes" with a text; and a handler's value that cannot be sent
      is a handler error. */
  lemma CallerReadsResult(value: Wire.Value)
    requires Wire.IsPython(value)
    ensures AnswerTo(Returns(value)).Result? <==> Wire.EncodePayload(value).Ok?
    ensures AnswerTo(Returns(value)).Result? ==>
              (Wire.DecodePayload(AnswerTo(Returns(value)).json) == Some(WireLaws.Normal(value)) <==> !WireLaws.HasBareTag(value))
  {
    if Wire.EncodePayload(value).Ok? { WireLaws.RoundTrip(value); }
  }
}
