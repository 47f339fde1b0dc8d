/** A stream session's object: its handle, taken by the first free(), and every
    operation gated on it; and _run_session, which runs a handler over one. */
module Streams {
  import opened Options
  import Handlers
  import Machines
  import Wire

  datatype Operation =
    | Report | SendBytes | SendJson(text: string) | CloseSend | Reply(text: string) | Abort(code: string) | Close | Recv

  datatype StreamError = Closed | Refused(e: Wire.WireError)

  /** The library's side: operations begun, and frees, in order. */
  class Library {
    ghost var begun: seq<(nat, Operation)>
    var freed: seq<nat>

    constructor ()
      ensures begun == [] && freed == []
    {
      begun, freed := [], [];
    }

    method Begin(h: nat, op: Operation)
      modifies this`begun
      ensures begun == old(begun) + [(h, op)]
    {
      begun := begun + [(h, op)];
    }

    /** macula_stream_free. */
    method Free(h: nat)
      modifies this`freed
      ensures freed == old(freed) + [h]
    {
      freed := freed + [h];
    }
  }

  class Stream {
    const library: Library
    var handle: Option<nat>

    /** A handle fresh from the library, which no free has been called on. */
    constructor (library: Library, handle: nat)
      requires handle !in library.freed
      ensures this.library == library && this.handle == Some(handle)
      ensures Valid(handle)
    {
      this.library, this.handle := library, Some(handle);
      new;
      TimesIn(library.freed, handle);
    }

    /** The object that was made for h: while it has the handle the library has
        not been told to free it, and afterwards it was told once. */
    ghost predicate Valid(h: nat)
      reads this, library
    {
      && (handle == Some(h) || handle == None)
      && Times(library.freed, h) == (if handle.None? then 1 else 0)
    }

    /** close(), close_send(), abort(), send(), report() and recv(): begun only
        on a stream that was not freed. */
    method Begin(op: Operation) returns (r: Result<nat, StreamError>)
      modifies library`begun
      ensures r == if handle.None? then Err(Closed) else Ok(handle.value)
      ensures library.begun == old(library.begun) + if handle.None? then [] else [(handle.value, op)]
    {
      if handle.None? {
        return Err(Closed);
      }
      library.Begin(handle.value, op);
      r := Ok(handle.value);
    }

    /** send_value() and reply(): a freed stream is found out before a payload
        that cannot be sent. */
    method BeginWith(value: Wire.Value, reply: bool) returns (r: Result<nat, StreamError>)
      modifies library`begun
      ensures r.Err? <==> handle.None? || Wire.EncodePayload(value).Err?
      ensures r.Err? ==> library.begun == old(library.begun) &&
                         r.error == if handle.None? then Closed else Refused(Wire.EncodePayload(value).error)
      ensures r.Ok? ==> var text := Wire.EncodePayload(value).value;
                        library.begun == old(library.begun) + [(handle.value, if reply then Reply(text) else SendJson(text))]
    {
      if handle.None? {
        return Err(Closed);
      }
      match Wire.EncodePayload(value) {
        case Err(e) => r := Err(Refused(e));
        case Ok(text) =>
          library.Begin(handle.value, if reply then Reply(text) else SendJson(text));
          r := Ok(handle.value);
      }
    }

    /** free(): the first takes the handle and frees it, any other finds none. */
    method Free(ghost h: nat)
      requires Valid(h)
      modifies this`handle, library`freed
      ensures Valid(h) && handle == None
      ensures library.freed == old(library.freed) + if old(handle).Some? then [h] else []
    {
      if handle.Some? {
        var taken := handle.value;
        handle := None;
        TimesMore(library.freed, taken);
        library.Free(taken);
      }
    }
  }

  function Times(handles: seq<nat>, h: nat): nat {
    if |handles| == 0 then 0
    else Times(handles[..|handles| - 1], h) + if handles[|handles| - 1] == h then 1 else 0
  }

  lemma {:induction false} TimesIn(handles: seq<nat>, h: nat)
    ensures Times(handles, h) > 0 <==> h in handles
  {
    if |handles| > 0 {
      TimesIn(handles[..|handles| - 1], h);
      assert handles == handles[..|handles| - 1] + [handles[|handles| - 1]];
    }
  }

  lemma TimesMore(handles: seq<nat>, x: nat)
    ensures forall h :: Times(handles + [x], h) == Times(handles, h) + if x == h then 1 else 0
  {
    assert (handles + [x])[..|handles|] == handles;
  }

  // ---- Iterating ---------------------------------------------------------

  /** What one recv() gives: a frame, the end of the stream, nothing in time, or
      an error. */
  datatype Received<F> = Frame(f: F) | Eof | TimedOut | Fails(e: nat)

  datatype End = Stopped | Raised(e: nat)

  /** The frames before the first thing that is not one. */
  function FramesOf<F>(script: seq<Received<F>>): seq<F> {
    if |script| == 0 || !script[0].Frame? then [] else [script[0].f] + FramesOf(script[1..])
  }

  /** async for over a stream, received being what its recv() calls give and then
      the end of the stream: it yields the frames in order up to the first thing
      that is not one, and takes nothing after that. Waiting for ever it would
      never time out; if it does, iteration stops there, as at the end. */
  method Iterate<F>(received: seq<Received<F>>) returns (frames: seq<F>, end: End, taken: nat)
    ensures frames == FramesOf(received) && taken <= |received|
    ensures |frames| <= taken <= |frames| + 1
    ensures forall i :: 0 <= i < |frames| ==> received[i] == Frame(frames[i])
    ensures taken == |frames| ==> taken == |received| && end == Stopped
    ensures taken > |frames| ==> !received[taken - 1].Frame? &&
                                 end == if received[taken - 1].Fails? then Raised(received[taken - 1].e) else Stopped
  {
    frames, end, taken := [], Stopped, 0;
    assert received[0..] == received;
    while taken < |received|
      invariant taken == |frames| <= |received| && end == Stopped
      invariant FramesOf(received) == frames + FramesOf(received[taken..])
      invariant forall i :: 0 <= i < |frames| ==> received[i] == Frame(frames[i])
    {
      var next := received[taken];
      assert received[taken..][1..] == received[taken + 1..];
      taken := taken + 1;
      match next {
        case Frame(f) => frames := frames + [f];
        case Fails(e) =>
          end := Raised(e);
          return;
        case _ => return;
      }
    }
  }

  // ---- _run_session ------------------------------------------------------

  datatype HandlerEnd = Returns | Raises | Cancelled

  /** How an awaited operation ends. */
  datatype Await = Comes(how: Handlers.NativeEnd) | IsCancelled

  datatype SessionEnd = Finished | CancelledError | OtherError

  /** A session that has begun, and whose task may be cancelled at any await. */
  function Opened(): Handlers.Session {
    Handlers.Session(Handlers.Serving, true, true, true, 0, Handlers.NotStarted, 0)
  }

  /** The session as its automaton sees it, at this point of its trace. */
  ghost predicate Follows(trace: seq<Handlers.SessionEvent>, s: Handlers.Session) {
    Machines.Run(Handlers.SessionNext, Opened(), trace) == Some(s)
  }

  lemma Onwards(trace: seq<Handlers.SessionEvent>, s: Handlers.Session, e: Handlers.SessionEvent, t: Handlers.Session)
    requires Follows(trace, s) && Handlers.SessionNext(s, e) == Some(t)
    ensures Follows(trace + [e], t)
  {
    Machines.RunAppend(Handlers.SessionNext, Opened(), trace, [e]);
    assert [e][1..] == [];
  }

  /** The operations a session has begun on its way out. */
  function Farewell(handler: HandlerEnd, freedByHandler: bool, close: Await): seq<Operation> {
    if freedByHandler || handler.Cancelled? then []
    else if handler.Raises? then [Abort("handler_error")]
    else [Close] + if close == Comes(Handlers.OtherRaised) then [Abort("handler_error")] else []
  }

  function EndOf(handler: HandlerEnd, freedByHandler: bool, close: Await, abort: Await, free: Await): SessionEnd {
    if free.IsCancelled? || handler.Cancelled? then CancelledError
    else if freedByHandler then Finished
    else
      var abortEnd := if abort.IsCancelled? then CancelledError
                      else if abort.how.OtherRaised? then OtherError else Finished;
      if handler.Raises? || close == Comes(Handlers.OtherRaised) then abortEnd
      else if close.IsCancelled? then CancelledError else Finished
  }

  /** _run_session, with how its handler and each of its awaits end: on every
      path the stream is freed once, by the handler or by the finally clause,
      every operation is begun while it was not, and the steps taken are a run
      of the session's automaton. A handler cancelled while it waits may free
      the stream on its way out too. */
  method RunSession(stream: Stream, h: nat, handler: HandlerEnd, freesItself: bool, close: Await, abort: Await, free: Await)
    returns (end: SessionEnd, ghost trace: seq<Handlers.SessionEvent>, ghost s: Handlers.Session)
    requires stream.Valid(h) && stream.handle == Some(h)
    requires free.Comes? ==> free.how.Fine?
    modifies stream`handle, stream.library
    ensures stream.Valid(h) && stream.handle == None
    ensures stream.library.freed == old(stream.library.freed) + [h]
    ensures stream.library.begun == old(stream.library.begun) + On(h, Farewell(handler, freesItself, close))
    ensures end == EndOf(handler, freesItself, close, abort, free)
    ensures Follows(trace, s) && s.phase.Ended? && s.frees == 1 && Handlers.Quiet(Handlers.ForStream(s))
    // A close for a handler that returned, an abort for one that raised or for a close that failed, if the stream was live.
    ensures stream.library.begun == old(stream.library.begun)
                                    + (if handler.Returns? && !freesItself then [(h, Close)] else [])
                                    + (if !freesItself && (handler.Raises? || (handler.Returns? && close == Comes(Handlers.OtherRaised)))
                                       then [(h, Abort("handler_error"))] else [])
    // Cancelled if the handler was, or an await that was reached; another error only from the abort.
    ensures end == CancelledError <==>
            || handler.Cancelled? || free.IsCancelled?
            || (!freesItself && handler.Returns? && close.IsCancelled?)
            || (!freesItself && (handler.Raises? || (handler.Returns? && close == Comes(Handlers.OtherRaised))) && abort.IsCancelled?)
    ensures end == OtherError <==>
            && !freesItself && (handler.Raises? || (handler.Returns? && close == Comes(Handlers.OtherRaised)))
            && abort == Comes(Handlers.OtherRaised) && !free.IsCancelled?
  {
    trace, s := [], Opened();
    end := Finished;
    if freesItself {
      trace, s := HandlerFrees(stream, h, trace, s);
    }
    end, trace, s := Depart(stream, h, handler, close, abort, trace, s);
    trace, s := FinalFree(stream, h, free, trace, s);
    if free.IsCancelled? {
      end := CancelledError;
    }
  }

  function LeavingEvent(handler: HandlerEnd): Handlers.SessionEvent {
    match handler
    case Returns => Handlers.SessionReturns
    case Raises => Handlers.SessionRaises
    case Cancelled => Handlers.SessionCancelled
  }

  /** From the handler's end to the finally clause. */
  method Depart(stream: Stream, h: nat, handler: HandlerEnd, close: Await, abort: Await,
                ghost before: seq<Handlers.SessionEvent>, ghost s: Handlers.Session)
    returns (end: SessionEnd, ghost trace: seq<Handlers.SessionEvent>, ghost t: Handlers.Session)
    requires stream.Valid(h) && Follows(before, s)
    requires s == if stream.handle.Some? then Opened() else Opened().(live := false, frees := 1)
    modifies stream.library`begun
    ensures Follows(trace, t) && t == if stream.handle.Some? then Opened().(phase := Handlers.Freeing, finalFree := Handlers.OnThread) else Freed()
    ensures stream.library.begun == old(stream.library.begun) + On(h, Farewell(handler, stream.handle.None?, close))
    ensures end == EndOf(handler, stream.handle.None?, close, abort, Comes(Handlers.Fine))
  {
    t := Handlers.SessionNext(s, LeavingEvent(handler)).value;
    Onwards(before, s, LeavingEvent(handler), t);
    trace := before + [LeavingEvent(handler)];
    match handler {
      case Returns => end, trace, t := CloseOrAbort(stream, h, close, abort, trace, t);
      case Raises => end, trace, t := AbortSession(stream, h, abort, trace, t);
      case Cancelled => end := CancelledError;
    }
  }

  function On(h: nat, ops: seq<Operation>): (r: seq<(nat, Operation)>)
    ensures |r| == |ops|
  {
    seq(|ops|, i requires 0 <= i < |ops| => (h, ops[i]))
  }

  method HandlerFrees(stream: Stream, h: nat, ghost before: seq<Handlers.SessionEvent>, ghost s: Handlers.Session)
    returns (ghost trace: seq<Handlers.SessionEvent>, ghost t: Handlers.Session)
    requires stream.Valid(h) && stream.handle == Some(h) && Follows(before, s) && s == Opened()
    modifies stream`handle, stream.library`freed
    ensures stream.Valid(h) && stream.handle == None && stream.library.freed == old(stream.library.freed) + [h]
    ensures Follows(trace, t) && t == Opened().(live := false, frees := 1)
  {
    ghost var asked := s.(userFrees := 1);
    Onwards(before, s, Handlers.UserFrees, asked);
    t := s.(live := false, frees := 1);
    Onwards(before + [Handlers.UserFrees], asked, Handlers.UserFreeSwaps, t);
    trace := before + [Handlers.UserFrees] + [Handlers.UserFreeSwaps];
    stream.Free(h);
  }

  /** After the handler returned: close(), and abort() if that fails. */
  method CloseOrAbort(stream: Stream, h: nat, close: Await, abort: Await, ghost before: seq<Handlers.SessionEvent>,
                      ghost s: Handlers.Session)
    returns (end: SessionEnd, ghost trace: seq<Handlers.SessionEvent>, ghost t: Handlers.Session)
    requires stream.Valid(h) && Follows(before, s) && s.asked && s.userFrees == 0
    requires s == if stream.handle.Some? then Opened().(phase := Handlers.Closing) else Freed()
    modifies stream.library`begun
    ensures Follows(trace, t) && t == if stream.handle.Some? then Opened().(phase := Handlers.Freeing, finalFree := Handlers.OnThread) else Freed()
    ensures stream.library.begun == old(stream.library.begun) + On(h, Farewell(Returns, stream.handle.None?, close))
    ensures end == EndOf(Returns, stream.handle.None?, close, abort, Comes(Handlers.Fine))
  {
    trace, t := before, s;
    end := Finished;
    var begun := stream.Begin(Close);
    if begun.Ok? {
      match close {
        case IsCancelled =>
          end := CancelledError;
          t := Handlers.Finally(s);
          Onwards(before, s, Handlers.NativeCancelled, t);
          trace := before + [Handlers.NativeCancelled];
        case Comes(how) =>
          t := Handlers.SessionNext(s, Handlers.NativeEnds(how)).value;
          Onwards(before, s, Handlers.NativeEnds(how), t);
          trace := before + [Handlers.NativeEnds(how)];
          if how.OtherRaised? {
            end, trace, t := AbortSession(stream, h, abort, trace, t);
          }
      }
    }
  }

  /** A session whose handler freed its stream, on its way out. */
  ghost function Freed(): Handlers.Session {
    Handlers.Finally(Opened().(live := false, frees := 1))
  }

  method AbortSession(stream: Stream, h: nat, abort: Await, ghost before: seq<Handlers.SessionEvent>, ghost s: Handlers.Session)
    returns (end: SessionEnd, ghost trace: seq<Handlers.SessionEvent>, ghost t: Handlers.Session)
    requires stream.Valid(h) && Follows(before, s)
    requires s == if stream.handle.Some? then Opened().(phase := Handlers.Aborting) else Freed()
    modifies stream.library`begun
    ensures Follows(trace, t) && t == if stream.handle.Some? then Opened().(phase := Handlers.Freeing, finalFree := Handlers.OnThread) else Freed()
    ensures stream.library.begun == old(stream.library.begun) + On(h, Farewell(Raises, stream.handle.None?, abort))
    ensures end == EndOf(Raises, stream.handle.None?, abort, abort, Comes(Handlers.Fine))
  {
    trace, t := before, s;
    end := Finished;
    var begun := stream.Begin(Abort("handler_error"));
    if begun.Ok? {
      t := Handlers.Finally(s);
      match abort {
        case IsCancelled =>
          end := CancelledError;
          Onwards(before, s, Handlers.NativeCancelled, t);
          trace := before + [Handlers.NativeCancelled];
        case Comes(how) =>
          end := if how.OtherRaised? then OtherError else Finished;
          Onwards(before, s, Handlers.NativeEnds(how), t);
          trace := before + [Handlers.NativeEnds(how)];
      }
    }
  }

  /** The finally clause: free() on a thread of its own, which runs whether or
      not the await of it is cancelled. */
  method FinalFree(stream: Stream, h: nat, free: Await, ghost before: seq<Handlers.SessionEvent>, ghost s: Handlers.Session)
    returns (ghost trace: seq<Handlers.SessionEvent>, ghost t: Handlers.Session)
    requires stream.Valid(h) && Follows(before, s) && s.phase.Freeing? && s.finalFree.OnThread? && s.asked && s.userFrees == 0
    requires s.live == stream.handle.Some? && s.frees == (if s.live then 0 else 1)
    modifies stream`handle, stream.library`freed
    ensures stream.Valid(h) && stream.handle == None
    ensures stream.library.freed == old(stream.library.freed) + if old(stream.handle).Some? then [h] else []
    ensures Follows(trace, t) && t.phase.Ended? && t.frees == 1 && Handlers.Quiet(Handlers.ForStream(t))
  {
    ghost var swapped := Handlers.Swap(s).(finalFree := Handlers.Swapped);
    Onwards(before, s, Handlers.FinalFreeSwaps, swapped);
    stream.Free(h);
    t := swapped.(phase := Handlers.Ended);
    ghost var e := if free.IsCancelled? then Handlers.FreeCancelled else Handlers.FreeReturns;
    Onwards(before + [Handlers.FinalFreeSwaps], swapped, e, t);
    trace := before + [Handlers.FinalFreeSwaps] + [e];
  }
}
