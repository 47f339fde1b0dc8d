/** The promises of a served procedure, over every reachable state of every race
    of deliveries, handlers, deadlines, cancellations and stop(). */
module ServingLaws {
  import opened Options
  import Blocking
  import CallSpec
  import opened Handlers
  import opened Serving
  import opened ServingInvariant
  import Machines

  ghost predicate Reachable(s: Served) {
    exists streams: bool, schedule: seq<Action> :: Machines.Run(Next, Opened(streams), schedule) == Some(s)
  }

  lemma ReachableInv(s: Served)
    requires Reachable(s)
    ensures Inv(s)
  {
    var streams: bool, schedule: seq<Action> :| Machines.Run(Next, Opened(streams), schedule) == Some(s);
    OpenedInv(streams);
    forall t: Served, a: Action | Inv(t) && Next(t, a).Some? ensures Inv(Next(t, a).value) {
      StepKeeps(t, a);
    }
    Machines.RunKeeps(Next, Inv, Opened(streams), schedule);
  }

  // ---- Items -------------------------------------------------------------

  /** Conservation: an item taken from the inbox is always in exactly one of four
      places, and no other handle is in any. Which items are dropped is
      DroppedExactly's to say. */
  lemma Conservation(s: Served, h: nat)
    requires Reachable(s)
    ensures Places(InFlight(s), s.items.released, s.items.dropped, s.jobs, h) == if h in s.items.taken then 1 else 0
  {
    ReachableInv(s);
    CountIn(s.items.taken, h);
    assert Count(s.items.taken, h) <= 1;
  }

  /** The ledger only ever gains answers. */
  predicate Gains(s: Ledger, t: Ledger) {
    t.stops == s.stops && t.withdrawn == s.withdrawn && s.answers.Keys <= t.answers.Keys
  }

  lemma HandlerLedger(s: Served, job: nat, e: HandlerEvent)
    requires HandlerStep(s, job, e).Some?
    ensures var t := HandlerStep(s, job, e).value;
            t == s.(jobs := t.jobs, library := t.library) && |t.jobs| == |s.jobs| && Gains(s.library, t.library)
  {
  }

  lemma DiscardLedger(s: Served)
    requires DiscardStep(s).Some?
    ensures var t := DiscardStep(s).value;
            && t == s.(wait := t.wait, items := t.items, library := t.library) && t.items == s.items.(released := t.items.released)
            && Gains(s.library, t.library)
  {
  }

  /** The pump's turn has come to an item whose text gives no request. */
  predicate Refuses(s: Served) {
    && s.pump.Pumping? && !s.pumpAsked && s.wait.native.Some? && s.wait.native.value.Result?
    && s.wait.native.value.r.Item? && !s.wait.native.value.r.reading.Request?
  }

  /** The item it has come to. */
  function Refused(s: Served): Took
    requires Refuses(s)
    ensures Refused(s).Item?
  {
    s.wait.native.value.r
  }

  /** The only step that drops an item is the pump's, of one that gives no
      request; it ends the pump when the text does not decode, and only then. */
  lemma Dropped(s: Served, a: Action)
    requires Next(s, a).Some? && (Next(s, a).value.items.dropped != s.items.dropped
                                  || Next(s, a).value.items.unreadable != s.items.unreadable)
    ensures a.LoopTurn? && |s.ready| > 0 && s.ready[0].PumpTurn? && Refuses(s)
    ensures Next(s, a).value.items.dropped == s.items.dropped + [Refused(s).h]
    ensures Next(s, a).value.items.unreadable == s.items.unreadable + if Refused(s).reading.Unreadable? then 1 else 0
    ensures Next(s, a).value.pump.Over? <==> Refused(s).reading.Unreadable?
  {
    if a.LoopTurn? {
      if s.ready[0].PumpTurn? { PumpItems(s.(ready := s.ready[1..])); }
    } else if IsStop(a) {
      StopItems(s, a);
    } else {
      OtherItems(s, a);
    }
  }

  lemma OtherItems(s: Served, a: Action)
    requires !a.LoopTurn? && !IsStop(a) && Next(s, a).Some?
    ensures Next(s, a).value.items.dropped == s.items.dropped && Next(s, a).value.items.unreadable == s.items.unreadable
  {
    match a
    case NativeEnds(o) => NativeFrame(s, o);
    case JobStep(job, e) => HandlerLedger(s, job, e);
    case DiscardRuns => DiscardLedger(s);
    case _ =>
  }

  lemma PumpItems(s: Served)
    requires PumpStep(s).Some?
    ensures var t := PumpStep(s).value;
            if Refuses(s) then
              && t.items.dropped == s.items.dropped + [Refused(s).h]
              && t.items.unreadable == s.items.unreadable + (if Refused(s).reading.Unreadable? then 1 else 0)
              && (t.pump.Over? <==> Refused(s).reading.Unreadable?)
            else t.items == s.items
  {
  }

  lemma StopItems(s: Served, a: Action)
    requires IsStop(a) && StopStep(s, a).Some?
    ensures StopStep(s, a).value.items == s.items
  {
  }

  lemma PumpStaysOver(s: Served, a: Action)
    requires Next(s, a).Some? && s.pump.Over?
    ensures Next(s, a).value.pump.Over?
  {
    match a
    case LoopTurn =>
    case JobStep(_, _) =>
    case NativeEnds(_) =>
    case DiscardRuns =>
    case _ =>
  }

  ghost predicate DropInv(s: Served) {
    s.items.unreadable <= 1 && (s.items.unreadable > 0 ==> s.pump.Over?)
  }

  /** So at most one item that does not decode is ever taken from the inbox by
      the pump, and serving is over when it is. */
  lemma AtMostOneUnreadable(s: Served)
    requires Reachable(s)
    ensures s.items.unreadable <= 1 && (s.items.unreadable > 0 ==> s.pump.Over?)
  {
    var streams: bool, schedule: seq<Action> :| Machines.Run(Next, Opened(streams), schedule) == Some(s);
    forall t: Served, a: Action | DropInv(t) && Next(t, a).Some? ensures DropInv(Next(t, a).value) {
      if Next(t, a).value.items.unreadable != t.items.unreadable {
        Dropped(t, a);
      } else if t.pump.Over? {
        PumpStaysOver(t, a);
      }
    }
    Machines.RunKeeps(Next, DropInv, Opened(streams), schedule);
  }

  /** Step k of a run is the pump's turn on the item h, whose text gives no
      request. */
  ghost predicate DropsAt(streams: bool, schedule: seq<Action>, k: nat, h: nat) {
    && k < |schedule| && Machines.Run(Next, Opened(streams), schedule[..k]).Some?
    && var s := Machines.Run(Next, Opened(streams), schedule[..k]).value;
       && schedule[k].LoopTurn? && |s.ready| > 0 && s.ready[0].PumpTurn?
       && Refuses(s) && Refused(s).h == h
  }

  ghost predicate HasDropped(s: Served, h: nat) {
    h in s.items.dropped
  }

  lemma DropStays(s: Served, a: Action, h: nat)
    requires Next(s, a).Some? && HasDropped(s, h)
    ensures HasDropped(Next(s, a).value, h)
  {
    if Next(s, a).value.items.dropped != s.items.dropped { Dropped(s, a); }
  }

  /** An item is dropped, neither dispatched nor released, exactly when at some
      step of the run the pump's turn came to it and its text gave no request. */
  lemma DroppedExactly(streams: bool, schedule: seq<Action>, h: nat)
    requires Machines.Run(Next, Opened(streams), schedule).Some?
    ensures h in Machines.Run(Next, Opened(streams), schedule).value.items.dropped <==>
            exists k: nat :: DropsAt(streams, schedule, k, h)
  {
    var end := Machines.Run(Next, Opened(streams), schedule).value;
    if HasDropped(end, h) { DropHappened(streams, schedule, h); }
    forall k: nat | DropsAt(streams, schedule, k, h) ensures HasDropped(end, h) {
      DropLasts(streams, schedule, k, h);
    }
  }

  lemma DropHappened(streams: bool, schedule: seq<Action>, h: nat)
    requires Machines.Run(Next, Opened(streams), schedule).Some?
    requires HasDropped(Machines.Run(Next, Opened(streams), schedule).value, h)
    ensures exists k: nat :: DropsAt(streams, schedule, k, h)
  {
    var has := (s: Served) => HasDropped(s, h);
    Machines.TurningPoint(Next, has, Opened(streams), schedule);
    var k: nat :| Machines.TurnsAt(Next, has, Opened(streams), schedule, k);
    Dropped(Machines.Run(Next, Opened(streams), schedule[..k]).value, schedule[k]);
    assert DropsAt(streams, schedule, k, h);
  }

  lemma DropLasts(streams: bool, schedule: seq<Action>, k: nat, h: nat)
    requires Machines.Run(Next, Opened(streams), schedule).Some? && DropsAt(streams, schedule, k, h)
    ensures HasDropped(Machines.Run(Next, Opened(streams), schedule).value, h)
  {
    var has := (t: Served) => HasDropped(t, h);
    var s := Machines.Run(Next, Opened(streams), schedule[..k]).value;
    Machines.RunOn(Next, Opened(streams), schedule, k);
    assert schedule[k..][1..] == schedule[k + 1..];
    PumpItems(s.(ready := s.ready[1..]));
    forall t: Served, a: Action | has(t) && Next(t, a).Some? ensures has(Next(t, a).value) {
      DropStays(t, a, h);
    }
    Machines.RunKeeps(Next, has, Next(s, schedule[k]).value, schedule[k + 1..]);
  }

  // ---- Dispatch before withdrawal ----------------------------------------

  /** Every task's first step is its own code's: none is cancelled before it has
      begun, so none leaves its item unsettled. By the time stop() cancels the
      tasks, and whenever the pump is over, all have begun. */
  lemma DispatchStartsFirst(s: Served, job: nat)
    requires Reachable(s) && job < |s.jobs|
    ensures Unstarted(s.jobs[job].handler) || Begun(s.jobs[job].handler)
    ensures s.pump.Over? || s.stop.AwaitingTasks? || StopOver(s.stop) ==> Begun(s.jobs[job].handler)
  {
    ReachableInv(s);
    assert JobInv(s.streams, s.jobs[job].handler);
    if s.pump.Over? { NoneUnstarted(s.jobs); }
  }

  // ---- Settled once ------------------------------------------------------

  /** How often an item's handle was settled: its call answered or its stream
      freed, by its handler or by the release. */
  function Settled(released: seq<nat>, jobs: seq<Job>, h: nat): nat {
    Count(released, h) + ByHandlers(jobs, h)
  }

  function ByHandlers(jobs: seq<Job>, h: nat): nat {
    if |jobs| == 0 then 0
    else
      var job := jobs[|jobs| - 1];
      ByHandlers(jobs[..|jobs| - 1], h) + (if job.h == h then Settlements(job.handler) else 0)
  }

  /** Nothing is left to happen: stop() is over, no wait owes an outcome, and no
      thread of a handler runs. */
  ghost predicate AllQuiet(s: Served) {
    StopOver(s.stop) && !Waits(s) && forall i :: 0 <= i < |s.jobs| ==> Quiet(s.jobs[i].handler)
  }

  lemma {:induction false} HandlersSettle(streams: bool, jobs: seq<Job>, h: nat)
    requires JobsInv(streams, jobs)
    ensures ByHandlers(jobs, h) <= Owned(jobs, h)
    ensures AllFinished(jobs) && (forall i :: 0 <= i < |jobs| ==> Quiet(jobs[i].handler) && Begun(jobs[i].handler)) ==>
              ByHandlers(jobs, h) == Owned(jobs, h)
  {
    if |jobs| > 0 {
      HandlersSettle(streams, jobs[..|jobs| - 1], h);
      assert JobInv(streams, jobs[|jobs| - 1].handler);
      SettledOnce(jobs[|jobs| - 1].handler);
    }
  }

  /** One settlement per item: never two, whatever handlers, releases, deadlines
      and withdrawals race; and when all is quiet exactly one, but for an item
      whose text gave no request, which gets none. */
  lemma SettledExactlyOnce(s: Served, h: nat)
    requires Reachable(s)
    ensures Settled(s.items.released, s.jobs, h) <= 1
    ensures h !in s.items.taken ==> Settled(s.items.released, s.jobs, h) == 0
    ensures AllQuiet(s) && h in s.items.taken ==> Settled(s.items.released, s.jobs, h) == if h in s.items.dropped then 0 else 1
  {
    ReachableInv(s);
    Conservation(s, h);
    HandlersSettle(s.streams, s.jobs, h);
    CountIn(s.items.dropped, h);
    if AllQuiet(s) {
      NoneUnstarted(s.jobs);
      assert forall i :: 0 <= i < |s.jobs| ==> JobInv(s.streams, s.jobs[i].handler);
      assert InFlight(s) == None;
    }
  }

  /** A pending call keeps its first answer: no later attempt changes it. */
  lemma FirstAnswerStays(s: Served, a: Action, h: nat)
    requires Next(s, a).Some? && h in s.library.answers
    ensures h in Next(s, a).value.library.answers && Next(s, a).value.library.answers[h] == s.library.answers[h]
  {
    match a
    case NativeEnds(o) => NativeAnswer(s, o, h);
    case LoopTurn => LoopAnswer(s);
    case JobStep(job, e) => HandlerAnswer(s, job, e, h);
    case DiscardRuns => DiscardAnswer(s, h);
    case WaitLands =>
    case Deadline(_) =>
    case PumpCancelled =>
    case _ => StopAnswer(s, a, h);
  }

  lemma NativeAnswer(s: Served, o: Blocking.Outcome<Took>, h: nat)
    requires NativeStep(s, o).Some? && h in s.library.answers
    ensures h in NativeStep(s, o).value.library.answers && NativeStep(s, o).value.library.answers[h] == s.library.answers[h]
  {
  }

  lemma LoopAnswer(s: Served)
    requires LoopStep(s).Some?
    ensures LoopStep(s).value.library == s.library && LoopStep(s).value.streams == s.streams
  {
    var rest := s.(ready := s.ready[1..]);
    if s.ready[0].PumpTurn? { PumpFrame(rest); }
  }

  lemma HandlerAnswer(s: Served, job: nat, e: HandlerEvent, h: nat)
    requires HandlerStep(s, job, e).Some? && h in s.library.answers
    ensures h in HandlerStep(s, job, e).value.library.answers && HandlerStep(s, job, e).value.library.answers[h] == s.library.answers[h]
  {
  }

  lemma DiscardAnswer(s: Served, h: nat)
    requires DiscardStep(s).Some? && h in s.library.answers
    ensures h in DiscardStep(s).value.library.answers && DiscardStep(s).value.library.answers[h] == s.library.answers[h]
  {
  }

  lemma StopAnswer(s: Served, a: Action, h: nat)
    requires IsStop(a) && StopStep(s, a).Some? && h in s.library.answers
    ensures h in StopStep(s, a).value.library.answers && StopStep(s, a).value.library.answers[h] == s.library.answers[h]
  {
  }

  /** Whose doing an answer was: on record as ours, it was made by the item's
      handler or its release. */
  ghost predicate OursMade(s: Served) {
    forall h :: h in s.library.answers && s.library.answers[h] == Us ==> Made(s, h)
  }

  ghost predicate Made(s: Served, h: nat) {
    h in s.items.released || exists i :: SettledBy(s.jobs, i, h)
  }

  ghost predicate SettledBy(jobs: seq<Job>, i: int, h: nat) {
    0 <= i < |jobs| && jobs[i].h == h && Settlements(jobs[i].handler) > 0
  }

  /** No settlement made is unmade. */
  ghost predicate NoneUnmade(s: Served, t: Served) {
    && |s.jobs| <= |t.jobs|
    && (forall i :: 0 <= i < |s.jobs| ==> t.jobs[i].h == s.jobs[i].h
                                          && Settlements(t.jobs[i].handler) >= Settlements(s.jobs[i].handler))
    && (forall h :: h in s.items.released ==> h in t.items.released)
  }

  lemma MadeStays(s: Served, t: Served, h: nat)
    requires NoneUnmade(s, t) && Made(s, h)
    ensures Made(t, h)
  {
    if h !in s.items.released {
      var i :| SettledBy(s.jobs, i, h);
      assert SettledBy(t.jobs, i, h);
    }
  }

  lemma OursCarry(s: Served, t: Served)
    requires OursMade(s) && NoneUnmade(s, t)
    requires forall h :: h in t.library.answers && t.library.answers[h] == Us ==>
               (h in s.library.answers && s.library.answers[h] == Us) || Made(t, h)
    ensures OursMade(t)
  {
    forall h | h in t.library.answers && t.library.answers[h] == Us ensures Made(t, h) {
      if h in s.library.answers && s.library.answers[h] == Us { MadeStays(s, t, h); }
    }
  }

  lemma OursHandler(s: Served, job: nat, e: HandlerEvent)
    requires Inv(s) && OursMade(s) && HandlerStep(s, job, e).Some?
    ensures OursMade(HandlerStep(s, job, e).value)
  {
    var t := HandlerStep(s, job, e).value;
    assert JobInv(s.streams, s.jobs[job].handler);
    SettlementsGrow(s.jobs[job].handler, e);
    if Settlements(t.jobs[job].handler) > 0 { assert SettledBy(t.jobs, job, s.jobs[job].h); }
    OursCarry(s, t);
  }

  lemma SettlementsGrow(x: Handler, e: HandlerEvent)
    requires HandlerNext(x, e).Some? && HandlerInv(x)
    ensures Settlements(HandlerNext(x, e).value) >= Settlements(x)
  {
  }

  lemma OursDiscard(s: Served)
    requires OursMade(s) && DiscardStep(s).Some?
    ensures OursMade(DiscardStep(s).value)
  {
    OursCarry(s, DiscardStep(s).value);
  }

  lemma OursLoop(s: Served)
    requires Inv(s) && OursMade(s) && LoopStep(s).Some?
    ensures OursMade(LoopStep(s).value)
  {
    LoopAnswer(s);
    if s.ready[0].PumpTurn? {
      PumpFrame(s.(ready := s.ready[1..]));
      PumpJobs(s.(ready := s.ready[1..]));
    } else {
      assert s.ready[0] in s.ready;
      FreshStarts(s.streams);
    }
    OursCarry(s, LoopStep(s).value);
  }

  lemma OursStop(s: Served, a: Action)
    requires Inv(s) && OursMade(s) && IsStop(a) && StopStep(s, a).Some?
    ensures OursMade(StopStep(s, a).value)
  {
    StopItems(s, a);
    if a.StopSeesPumpOver? {
      NoneUnstarted(s.jobs);
      WithdrawAllKeeps(s.streams, s.jobs);
    }
    OursCarry(s, StopStep(s, a).value);
  }

  lemma OursKeeps(s: Served, a: Action)
    requires Inv(s) && OursMade(s) && Next(s, a).Some?
    ensures OursMade(Next(s, a).value)
  {
    match a
    case NativeEnds(o) =>
      NativeFrame(s, o);
      NativeOurs(s, o);
      OursCarry(s, NativeStep(s, o).value);
    case LoopTurn => OursLoop(s);
    case JobStep(job, e) => OursHandler(s, job, e);
    case DiscardRuns => OursDiscard(s);
    case WaitLands => OursCarry(s, LandStep(s).value);
    case Deadline(_) => OursCarry(s, Next(s, a).value);
    case PumpCancelled => OursCarry(s, CancelPump(s));
    case _ => OursStop(s, a);
  }

  lemma NativeOurs(s: Served, o: Blocking.Outcome<Took>)
    requires NativeStep(s, o).Some?
    ensures var t := NativeStep(s, o).value;
            forall h :: h in t.library.answers && t.library.answers[h] == Us ==> h in s.library.answers && s.library.answers[h] == Us
  {
  }

  /** A call on record as answered by this side was settled by it, once: by its
      handler or by its release. */
  lemma OursIsSettled(s: Served, h: nat)
    requires Reachable(s) && h in s.library.answers && s.library.answers[h] == Us
    ensures Settled(s.items.released, s.jobs, h) == 1
  {
    var streams: bool, schedule: seq<Action> :| Machines.Run(Next, Opened(streams), schedule) == Some(s);
    OpenedInv(streams);
    forall t: Served, a: Action | InvAndOurs(t) && Next(t, a).Some? ensures InvAndOurs(Next(t, a).value) {
      StepKeeps(t, a);
      OursKeeps(t, a);
    }
    Machines.RunKeeps(Next, InvAndOurs, Opened(streams), schedule);
    SettledExactlyOnce(s, h);
    CountIn(s.items.released, h);
    if h !in s.items.released {
      var i :| SettledBy(s.jobs, i, h);
      ByHandlersCounts(s.jobs, i, h);
    }
  }

  ghost predicate InvAndOurs(s: Served) {
    Inv(s) && OursMade(s)
  }

  lemma {:induction false} ByHandlersCounts(jobs: seq<Job>, i: int, h: nat)
    requires SettledBy(jobs, i, h)
    ensures ByHandlers(jobs, h) > 0
  {
    var last := |jobs| - 1;
    if i < last {
      assert SettledBy(jobs[..last], i, h);
      ByHandlersCounts(jobs[..last], i, h);
    }
  }

  /** And no call its handler settled, or that was released, waits for an
      answer. */
  lemma SettledIsAnswered(s: Served, h: nat)
    requires Reachable(s) && !s.streams && Settled(s.items.released, s.jobs, h) > 0
    ensures h in s.library.answers
  {
    ReachableInv(s);
    CountIn(s.items.released, h);
    if Count(s.items.released, h) == 0 {
      ByHandlerIn(s.jobs, h);
    }
  }

  /** No caller is left waiting: once the procedure is withdrawn, every call ever
      taken from its inbox has its answer, dispatched, released or dropped, and
      one taken after that has it at once. */
  lemma NobodyWaits(s: Served, h: nat)
    requires Reachable(s) && !s.streams && s.library.withdrawn && h in s.items.taken
    ensures h in s.library.answers
  {
    var streams: bool, schedule: seq<Action> :| Machines.Run(Next, Opened(streams), schedule) == Some(s);
    forall t: Served, a: Action | AllAnswered(t) && Next(t, a).Some? ensures AllAnswered(Next(t, a).value) {
      AnsweredKeeps(t, a);
    }
    Machines.RunKeeps(Next, AllAnswered, Opened(streams), schedule);
  }

  ghost predicate AllAnswered(s: Served) {
    !s.streams && s.library.withdrawn ==> forall h :: h in s.items.taken ==> h in s.library.answers
  }

  lemma AnsweredKeeps(s: Served, a: Action)
    requires AllAnswered(s) && Next(s, a).Some?
    ensures AllAnswered(Next(s, a).value)
  {
    match a
    case LoopTurn =>
      LoopAnswer(s);
      if s.ready[0].PumpTurn? { PumpTaken(s.(ready := s.ready[1..])); }
    case JobStep(job, e) => HandlerLedger(s, job, e);
    case DiscardRuns => DiscardLedger(s);
    case NativeEnds(o) => NativeLedger(s, o);
    case WaitLands =>
    case PumpCancelled =>
    case Deadline(_) =>
    case _ => StopLedger(s, a);
  }

  lemma NativeLedger(s: Served, o: Blocking.Outcome<Took>)
    requires AllAnswered(s) && NativeStep(s, o).Some?
    ensures AllAnswered(NativeStep(s, o).value)
  {
  }

  lemma StopLedger(s: Served, a: Action)
    requires AllAnswered(s) && IsStop(a) && StopStep(s, a).Some?
    ensures AllAnswered(StopStep(s, a).value)
  {
  }

  lemma PumpTaken(s: Served)
    requires PumpStep(s).Some?
    ensures var t := PumpStep(s).value; t.items.taken == s.items.taken && t.streams == s.streams && t.library == s.library
  {
    PumpItems(s);
  }

  lemma {:induction false} ByHandlerIn(jobs: seq<Job>, h: nat)
    requires ByHandlers(jobs, h) > 0
    ensures exists i :: 0 <= i < |jobs| && jobs[i].h == h && Settlements(jobs[i].handler) > 0
  {
    var last := |jobs| - 1;
    if jobs[last].h != h || Settlements(jobs[last].handler) == 0 {
      ByHandlerIn(jobs[..last], h);
      var i :| 0 <= i < last && jobs[..last][i].h == h && Settlements(jobs[..last][i].handler) > 0;
      assert jobs[i].h == h;
    }
  }

  // ---- stop() ------------------------------------------------------------

  /** When the stop() that took the handle returns or raises, the pump is over,
      every task is done, the library was told to stop once, and it raised
      exactly what had stopped the pump early. */
  lemma StopIsQuiescent(s: Served)
    requires Reachable(s) && StopOver(s.stop)
    ensures s.pump.Over? && s.ready == [] && AllFinished(s.jobs) && s.library.stops == 1 && s.library.withdrawn && !s.handle
    ensures s.stop.RaisedFailure? <==> s.failure
  {
    ReachableInv(s);
  }

  /** From then on nothing is dispatched, nothing is stopped again, and no other
      stop() has anything to do. */
  lemma QuietForGood(s: Served, a: Action)
    requires Reachable(s) && StopOver(s.stop) && Next(s, a).Some?
    ensures var t := Next(s, a).value;
            |t.jobs| == |s.jobs| && t.stop == s.stop && t.library.stops == s.library.stops && t.failure == s.failure && t.pump.Over?
    ensures a.StopCalled? ==> Next(s, a) == Some(s)
  {
    ReachableInv(s);
    match a
    case NativeEnds(o) => NativeFrame(s, o);
    case JobStep(job, e) => HandlerLedger(s, job, e);
    case DiscardRuns => DiscardLedger(s);
    case LoopTurn =>
    case WaitLands =>
    case Deadline(_) =>
    case PumpCancelled =>
    case _ => StopIsOver(s, a);
  }

  lemma StopIsOver(s: Served, a: Action)
    requires StopOver(s.stop) && !s.handle && IsStop(a) && StopStep(s, a).Some?
    ensures a.StopCalled? && StopStep(s, a) == Some(s)
  {
  }

  /** _failure is set only by a pump that failed while the handle was live. */
  lemma FailureWhileLive(s: Served, a: Action)
    requires Next(s, a).Some? && !s.failure && Next(s, a).value.failure
    ensures a.LoopTurn? && Fails(s)
  {
    if a.LoopTurn? {
      if s.ready[0].PumpTurn? { PumpFailure(s.(ready := s.ready[1..])); }
    } else if IsStop(a) {
      StopFailure(s, a);
    }
  }

  /** It is the pump's turn, with the handle live, and its wait raised or gave
      it a text that does not decode. */
  predicate Fails(s: Served) {
    && s.handle && |s.ready| > 0 && s.ready[0].PumpTurn? && PumpFails(s)
  }

  predicate PumpFails(s: Served) {
    && s.pump.Pumping? && !s.pumpAsked && s.wait.native.Some?
    && (s.wait.native.value.Raises? || (s.wait.native.value.r.Item? && s.wait.native.value.r.reading.Unreadable?))
  }

  lemma PumpFailure(s: Served)
    requires PumpStep(s).Some?
    ensures PumpStep(s).value.failure == (s.failure || (s.handle && PumpFails(s)))
  {
  }

  lemma StopFailure(s: Served, a: Action)
    requires IsStop(a) && StopStep(s, a).Some?
    ensures StopStep(s, a).value.failure == s.failure
  {
  }

  lemma FailureStays(s: Served, a: Action)
    requires Next(s, a).Some? && s.failure
    ensures Next(s, a).value.failure
  {
    match a
    case LoopTurn => if s.ready[0].PumpTurn? { PumpFailure(s.(ready := s.ready[1..])); }
    case JobStep(_, _) =>
    case NativeEnds(_) =>
    case DiscardRuns =>
    case _ =>
  }

  predicate HasFailed(s: Served) {
    s.failure
  }

  /** Step k of a run is a turn in which the pump fails with the handle live. */
  ghost predicate FailedLive(streams: bool, schedule: seq<Action>, k: nat) {
    && k < |schedule| && schedule[k].LoopTurn? && Machines.Run(Next, Opened(streams), schedule[..k]).Some?
    && Fails(Machines.Run(Next, Opened(streams), schedule[..k]).value)
  }

  /** stop() raises exactly when, earlier in the run, the pump's wait raised or
      gave it a text that does not decode while the handle was live: what its
      own withdrawal brings about is never raised. */
  lemma RaisesExactlyFailures(streams: bool, schedule: seq<Action>)
    requires Machines.Run(Next, Opened(streams), schedule).Some?
    requires StopOver(Machines.Run(Next, Opened(streams), schedule).value.stop)
    ensures Machines.Run(Next, Opened(streams), schedule).value.stop.RaisedFailure? <==>
            exists k: nat :: FailedLive(streams, schedule, k)
  {
    var end := Machines.Run(Next, Opened(streams), schedule).value;
    assert Reachable(end);
    StopIsQuiescent(end);
    if HasFailed(end) {
      FailureHappened(streams, schedule);
    }
    forall k: nat | FailedLive(streams, schedule, k) ensures HasFailed(end) {
      FailureLasts(streams, schedule, k);
    }
  }

  lemma FailureHappened(streams: bool, schedule: seq<Action>)
    requires Machines.Run(Next, Opened(streams), schedule).Some?
    requires HasFailed(Machines.Run(Next, Opened(streams), schedule).value)
    ensures exists k: nat :: FailedLive(streams, schedule, k)
  {
    Machines.TurningPoint(Next, HasFailed, Opened(streams), schedule);
    var k: nat :| Machines.TurnsAt(Next, HasFailed, Opened(streams), schedule, k);
    FailureWhileLive(Machines.Run(Next, Opened(streams), schedule[..k]).value, schedule[k]);
    assert FailedLive(streams, schedule, k);
  }

  lemma FailureLasts(streams: bool, schedule: seq<Action>, k: nat)
    requires Machines.Run(Next, Opened(streams), schedule).Some? && FailedLive(streams, schedule, k)
    ensures HasFailed(Machines.Run(Next, Opened(streams), schedule).value)
  {
    var s := Machines.Run(Next, Opened(streams), schedule[..k]).value;
    Machines.RunOn(Next, Opened(streams), schedule, k);
    assert schedule[k..][1..] == schedule[k + 1..];
    PumpFailure(s.(ready := s.ready[1..]));
    forall t: Served, a: Action | HasFailed(t) && Next(t, a).Some? ensures HasFailed(Next(t, a).value) {
      FailureStays(t, a);
    }
    Machines.RunKeeps(Next, HasFailed, Next(s, schedule[k]).value, schedule[k + 1..]);
  }

  /** stop() never waits for nothing: in each of its phases something it waits
      for can happen. */
  lemma StopGoesOn(s: Served)
    requires Reachable(s)
    ensures s.stop.Withdrawing? ==> Next(s, StopRuns).Some? || Next(s, StopWithdrawn).Some?
    ensures s.stop.AwaitingPump? ==> Next(s, StopSeesPumpOver).Some? || Next(s, LoopTurn).Some?
    ensures s.stop.AwaitingTasks? && AllFinished(s.jobs) ==> Next(s, StopSeesTasksOver).Some?
  {
    ReachableInv(s);
    if s.stop.AwaitingPump? && !s.pump.Over? {
      QueueRuns(s);
    }
  }

  /** A pump that was cancelled always gets its turn. */
  lemma QueueRuns(s: Served)
    requires ControlInv(s) && !s.pump.Over? && s.pumpAsked
    ensures LoopStep(s).Some?
  {
    assert PumpTurn in s.ready;
    if s.ready[0].FirstStep? {
      assert FirstStep(s.ready[0].job) in s.ready;
      FreshStarts(s.streams);
    }
  }

  // ---- The pump's wait ---------------------------------------------------

  /** The pump's wait does what a blocking call does and nothing else: each step
      moves it as CallSpec says, or leaves it, or starts the next one after it
      was delivered. */
  lemma WaitIsACall(s: Served, a: Action)
    requires Reachable(s) && Next(s, a).Some?
    ensures var w, v := s.wait, Next(s, a).value.wait;
            || v == w
            || CallSpec.SpecStep(Blocking.Blocking(true), Next(s, a).value.pumpAsked, w, v)
            || (v == NewWait() && exists mid :: CallSpec.Delivers(w, mid))
  {
    ReachableInv(s);
    if a.LoopTurn? {
      LoopWait(s);
    } else if IsStop(a) {
      StopWait(s, a);
    } else if a.DiscardRuns? {
      DiscardWait(s);
    } else if a.NativeEnds? {
      NativeWait(s, a.o);
    }
  }

  lemma DiscardWait(s: Served)
    requires DiscardStep(s).Some?
    ensures var w, v := s.wait, DiscardStep(s).value.wait;
            CallSpec.Releases(Blocking.Blocking(true), w, v) || CallSpec.Drops(Blocking.Blocking(true), w, v)
  {
  }

  lemma NativeWait(s: Served, o: Blocking.Outcome<Took>)
    requires NativeStep(s, o).Some?
    ensures CallSpec.NativeEnds(s.wait, NativeStep(s, o).value.wait)
  {
  }

  lemma StopWait(s: Served, a: Action)
    requires IsStop(a) && StopStep(s, a).Some?
    ensures StopStep(s, a).value.wait == s.wait
  {
  }

  lemma LoopWait(s: Served)
    requires PumpInv(s) && LoopStep(s).Some?
    ensures var w, v := s.wait, LoopStep(s).value.wait;
            || v == w
            || CallSpec.SpecStep(Blocking.Blocking(true), LoopStep(s).value.pumpAsked, w, v)
            || (v == NewWait() && exists mid :: CallSpec.Delivers(w, mid))
  {
    if s.wait.native.Some? && s.wait.native.value.Result? && s.wait.fate.Awaiting? {
      assert CallSpec.Delivers(s.wait, s.wait.(fate := CallSpec.Delivered(s.wait.native.value.r)));
    }
  }
}
