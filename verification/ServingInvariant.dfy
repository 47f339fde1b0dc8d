/** What every step of a served procedure keeps. */
module ServingInvariant {
  import opened Options
  import Blocking
  import CallSpec
  import opened Handlers
  import opened Serving

  // ---- The ready queue ---------------------------------------------------

  /** First in, first out: the first steps of the tasks not yet started, each
      once, and the pump's turn, if queued, behind them all. */
  ghost predicate QueueInv(ready: seq<Entry>, jobs: seq<Job>) {
    && (forall i :: 0 <= i < |ready| && ready[i].PumpTurn? ==> i == |ready| - 1)
    && (forall i, k :: 0 <= i < k < |ready| ==> ready[i] != ready[k])
    && (forall j: nat :: FirstStep(j) in ready <==> j < |jobs| && Unstarted(jobs[j].handler))
  }

  ghost predicate PumpInv(s: Served) {
    && (s.pump.NotStarted? ==> s.ready == [PumpTurn] && s.jobs == [] && s.wait == NewWait())
    && (s.pump.Over? ==> s.ready == [])
    && (s.pump.Pumping? ==> s.wait.fate.Awaiting?)
    && (s.pump.Pumping? && s.pumpAsked ==> PumpTurn in s.ready)
    && (s.pump.Pumping? && PumpTurn in s.ready ==> s.pumpAsked || s.wait.native.Some?)
    && (s.pump.Over? && s.wait.fate.Awaiting? ==> s.wait.native.None?)
    && (s.wait.fate.CancelledOwing? ==> s.pump.Over?)
    && (s.failure ==> s.pump.Over?)
  }

  /** Every task either waits for its first step, or began with its own code. */
  ghost predicate JobInv(streams: bool, x: Handler) {
    && HandlerInv(x)
    && (x.ForStream? <==> streams)
    && (if Unstarted(x) then x == Fresh(streams) else Begun(x))
  }

  ghost predicate JobsInv(streams: bool, jobs: seq<Job>) {
    forall i :: 0 <= i < |jobs| ==> JobInv(streams, jobs[i].handler)
  }

  ghost predicate AllFinished(jobs: seq<Job>) {
    forall i :: 0 <= i < |jobs| ==> Finished(jobs[i].handler)
  }

  ghost predicate StopInv(s: Served) {
    && (s.handle <==> s.stop.NotAsked?)
    && s.library.stops == (if s.handle then 0 else 1)
    && (s.library.withdrawn ==> !s.handle)
    && (s.stop.AwaitingPump? || s.stop.AwaitingTasks? || StopOver(s.stop) ==> s.library.withdrawn)
    && (s.stop.AwaitingPump? && !s.pump.Over? ==> s.pumpAsked)
    && (s.stop.AwaitingTasks? || StopOver(s.stop) ==> s.pump.Over?)
    && (StopOver(s.stop) ==> AllFinished(s.jobs) && (s.failure <==> s.stop.RaisedFailure?))
  }

  predicate StopOver(stop: Stop) {
    stop.Returned? || stop.RaisedFailure?
  }

  // ---- Where the items are -----------------------------------------------

  function Count(handles: seq<nat>, h: nat): nat {
    if |handles| == 0 then 0
    else Count(handles[..|handles| - 1], h) + (if handles[|handles| - 1] == h then 1 else 0)
  }

  function Owned(jobs: seq<Job>, h: nat): nat {
    if |jobs| == 0 then 0
    else Owned(jobs[..|jobs| - 1], h) + (if jobs[|jobs| - 1].h == h then 1 else 0)
  }

  /** Taken by the library's call, and not yet anyone's. */
  function InFlight(s: Served): Option<nat> {
    if Waits(s) && s.wait.native.Some? && s.wait.native.value.Result? && s.wait.native.value.r.Item?
    then Some(s.wait.native.value.r.h) else None
  }

  /** In how many places an item is: in flight, released, dropped because its
      text gives no request, or owned by a dispatch task. */
  function Places(inFlight: Option<nat>, released: seq<nat>, dropped: seq<nat>, jobs: seq<Job>, h: nat): nat {
    (if inFlight == Some(h) then 1 else 0) + Count(released, h) + Count(dropped, h) + Owned(jobs, h)
  }

  /** Each item is taken once at most, and is in one place from then on. */
  ghost predicate Account(inFlight: Option<nat>, released: seq<nat>, dropped: seq<nat>, jobs: seq<Job>, taken: seq<nat>) {
    forall h :: Places(inFlight, released, dropped, jobs, h) == Count(taken, h) <= 1
  }

  ghost predicate PlacesInv(s: Served) {
    Account(InFlight(s), s.items.released, s.items.dropped, s.jobs, s.items.taken)
  }

  /** A call's first answer is on record once its handler or its release has
      made one. */
  ghost predicate AnswersInv(jobs: seq<Job>, released: seq<nat>, answers: map<nat, Answerer>) {
    && (forall i :: 0 <= i < |jobs| && Settlements(jobs[i].handler) > 0 ==> jobs[i].h in answers)
    && (forall i :: 0 <= i < |released| ==> released[i] in answers)
  }

  /** Who may run next, and how far each part has come. */
  ghost predicate ControlInv(s: Served) {
    QueueInv(s.ready, s.jobs) && PumpInv(s) && JobsInv(s.streams, s.jobs) && StopInv(s)
  }

  ghost predicate Inv(s: Served) {
    && ControlInv(s)
    && PlacesInv(s)
    && AnswersRecorded(s)
  }

  ghost predicate AnswersRecorded(s: Served) {
    !s.streams ==> AnswersInv(s.jobs, s.items.released, s.library.answers)
  }

  lemma OpenedInv(streams: bool)
    ensures Inv(Opened(streams))
  {
  }

  /** What the answers are looked up for: nothing else in a state matters. */
  ghost predicate AnswersKept(s: Served, t: Served) {
    && s.library.answers.Keys <= t.library.answers.Keys
    && |t.jobs| == |s.jobs| && t.items.released == s.items.released
    && forall i :: 0 <= i < |s.jobs| ==> t.jobs[i].h == s.jobs[i].h && Settlements(t.jobs[i].handler) == Settlements(s.jobs[i].handler)
  }

  // ---- Lemmas on the parts -----------------------------------------------

  lemma CountMore(handles: seq<nat>, x: nat)
    ensures forall h :: Count(handles + [x], h) == Count(handles, h) + (if x == h then 1 else 0)
  {
    assert (handles + [x])[..|handles|] == handles;
  }

  lemma {:induction false} CountIn(handles: seq<nat>, h: nat)
    ensures Count(handles, h) > 0 <==> h in handles
  {
    if |handles| > 0 {
      CountIn(handles[..|handles| - 1], h);
      assert handles == handles[..|handles| - 1] + [handles[|handles| - 1]];
    }
  }

  lemma OwnedMore(jobs: seq<Job>, job: Job)
    ensures forall h :: Owned(jobs + [job], h) == Owned(jobs, h) + (if job.h == h then 1 else 0)
  {
    assert (jobs + [job])[..|jobs|] == jobs;
  }

  /** Replacing handlers moves no handle. */
  lemma {:induction false} OwnedKept(jobs: seq<Job>, others: seq<Job>, h: nat)
    requires |jobs| == |others| && forall i :: 0 <= i < |jobs| ==> jobs[i].h == others[i].h
    ensures Owned(jobs, h) == Owned(others, h)
  {
    if |jobs| > 0 {
      OwnedKept(jobs[..|jobs| - 1], others[..|jobs| - 1], h);
    }
  }

  lemma AccountTake(released: seq<nat>, dropped: seq<nat>, jobs: seq<Job>, taken: seq<nat>, h: nat)
    requires Account(None, released, dropped, jobs, taken) && h !in taken
    ensures Account(Some(h), released, dropped, jobs, taken + [h])
  {
    CountMore(taken, h);
    CountIn(taken, h);
  }

  lemma AccountRelease(released: seq<nat>, dropped: seq<nat>, jobs: seq<Job>, taken: seq<nat>, h: nat)
    requires Account(Some(h), released, dropped, jobs, taken)
    ensures Account(None, released + [h], dropped, jobs, taken)
  {
    CountMore(released, h);
  }

  lemma AccountDrop(released: seq<nat>, dropped: seq<nat>, jobs: seq<Job>, taken: seq<nat>, h: nat)
    requires Account(Some(h), released, dropped, jobs, taken)
    ensures Account(None, released, dropped + [h], jobs, taken)
  {
    CountMore(dropped, h);
  }

  lemma AccountDispatch(released: seq<nat>, dropped: seq<nat>, jobs: seq<Job>, taken: seq<nat>, job: Job)
    requires Account(Some(job.h), released, dropped, jobs, taken)
    ensures Account(None, released, dropped, jobs + [job], taken)
  {
    OwnedMore(jobs, job);
  }

  lemma AccountKept(inFlight: Option<nat>, released: seq<nat>, dropped: seq<nat>, jobs: seq<Job>, others: seq<Job>, taken: seq<nat>)
    requires |jobs| == |others| && forall i :: 0 <= i < |jobs| ==> jobs[i].h == others[i].h
    requires Account(inFlight, released, dropped, jobs, taken)
    ensures Account(inFlight, released, dropped, others, taken)
  {
    forall h ensures Owned(jobs, h) == Owned(others, h) { OwnedKept(jobs, others, h); }
  }

  lemma QueueTail(ready: seq<Entry>, jobs: seq<Job>)
    requires QueueInv(ready, jobs) && |ready| > 0
    ensures forall e :: e in ready[1..] <==> e in ready && e != ready[0]
  {
    forall e ensures e in ready[1..] <==> e in ready && e != ready[0] {
      if e in ready && e != ready[0] {
        var i :| 0 <= i < |ready| && ready[i] == e;
        assert ready[1..][i - 1] == e;
      }
    }
  }

  /** The pump's turn comes up only when every task it dispatched has taken its
      first step. */
  lemma PumpTurnAlone(ready: seq<Entry>, jobs: seq<Job>)
    requires QueueInv(ready, jobs) && |ready| > 0 && ready[0].PumpTurn?
    ensures ready == [PumpTurn] && ready[1..] == []
    ensures forall i :: 0 <= i < |jobs| ==> !Unstarted(jobs[i].handler)
  {
    forall i: nat | i < |jobs| ensures !Unstarted(jobs[i].handler) {
      assert FirstStep(i) !in ready;
    }
  }

  lemma QueuePump(ready: seq<Entry>, jobs: seq<Job>)
    requires QueueInv(ready, jobs) && PumpTurn !in ready
    ensures QueueInv(ready + [PumpTurn], jobs)
  {
    forall e ensures e in ready + [PumpTurn] <==> e in ready || e == PumpTurn {
    }
  }

  lemma QueueEmpty(jobs: seq<Job>)
    requires forall i :: 0 <= i < |jobs| ==> !Unstarted(jobs[i].handler)
    ensures QueueInv([], jobs)
  {
  }

  /** A job that was started leaves the queue as it is. */
  lemma QueueJob(ready: seq<Entry>, jobs: seq<Job>, others: seq<Job>)
    requires QueueInv(ready, jobs) && |others| == |jobs|
    requires forall i :: 0 <= i < |jobs| ==> (Unstarted(others[i].handler) <==> Unstarted(jobs[i].handler))
    ensures QueueInv(ready, others)
  {
  }

  // ---- The library's call, the shield and the discard --------------------

  /** The wait's native call is over; who took or answered what is no matter
      here. */
  lemma OverControl(s: Served, o: Blocking.Outcome<Took>, items: Items, answers: map<nat, Answerer>)
    requires ControlInv(s) && Waits(s)
    ensures ControlInv(s.(wait := s.wait.(native := Some(o)), items := items, library := s.library.(answers := answers)))
  {
  }

  /** It moves the wait, and what was taken and answered. */
  lemma NativeFrame(s: Served, o: Blocking.Outcome<Took>)
    requires NativeStep(s, o).Some?
    ensures var t := NativeStep(s, o).value;
            && Waits(s) && t.items == s.items.(taken := t.items.taken) && s.library.answers.Keys <= t.library.answers.Keys
            && t == s.(wait := s.wait.(native := Some(o)), items := t.items, library := s.library.(answers := t.library.answers))
  {
  }

  lemma NativeControl(s: Served, o: Blocking.Outcome<Took>)
    requires ControlInv(s) && NativeStep(s, o).Some?
    ensures ControlInv(NativeStep(s, o).value)
  {
    NativeFrame(s, o);
    OverControl(s, o, NativeStep(s, o).value.items, NativeStep(s, o).value.library.answers);
  }

  lemma NativeAnswers(s: Served, o: Blocking.Outcome<Took>)
    requires AnswersRecorded(s) && NativeStep(s, o).Some?
    ensures AnswersRecorded(NativeStep(s, o).value)
  {
    NativeFrame(s, o);
    AnswersCarry(s, NativeStep(s, o).value);
  }

  lemma NativePlaces(s: Served, o: Blocking.Outcome<Took>)
    requires PlacesInv(s) && NativeStep(s, o).Some?
    ensures PlacesInv(NativeStep(s, o).value)
  {
    assert InFlight(s) == None;
    if o.Result? && o.r.Item? {
      AccountTake(s.items.released, s.items.dropped, s.jobs, s.items.taken, o.r.h);
    }
  }

  lemma LandControl(s: Served)
    requires ControlInv(s) && LandStep(s).Some?
    ensures ControlInv(LandStep(s).value)
  {
    QueuePump(s.ready, s.jobs);
  }

  /** The outcome nobody awaited is disposed of. */
  lemma DisposedControl(s: Served, fate: CallSpec.Fate<Took>, items: Items, library: Ledger)
    requires ControlInv(s) && s.wait.fate.CancelledOwing? && !fate.CancelledOwing? && !fate.Awaiting?
    requires library == s.library.(answers := library.answers)
    ensures ControlInv(s.(wait := s.wait.(fate := fate), items := items, library := library))
  {
  }

  lemma DiscardControl(s: Served)
    requires ControlInv(s) && DiscardStep(s).Some?
    ensures ControlInv(DiscardStep(s).value)
  {
    match s.wait.native.value
    case Raises(_) => DisposedControl(s, CallSpec.CancelledDropped, s.items, s.library);
    case Result(t) =>
      if t.Item? {
        var items := s.items.(released := s.items.released + [t.h]);
        DisposedControl(s, CallSpec.CancelledReleased(t), items, AnswerWith(s, t.h, Us));
      } else {
        DisposedControl(s, CallSpec.CancelledReleased(t), s.items, s.library);
      }
  }

  lemma DiscardPlaces(s: Served)
    requires PlacesInv(s) && DiscardStep(s).Some?
    ensures PlacesInv(DiscardStep(s).value)
  {
    if s.wait.native.value.Result? && s.wait.native.value.r.Item? {
      AccountRelease(s.items.released, s.items.dropped, s.jobs, s.items.taken, s.wait.native.value.r.h);
    }
  }

  // ---- The event loop ----------------------------------------------------

  lemma FreshStarts(streams: bool)
    ensures Start(Fresh(streams)).Some?
    ensures var x := Start(Fresh(streams)).value; JobInv(streams, x) && !Unstarted(x) && !Finished(x) && Settlements(x) == 0
    ensures Settlements(Fresh(streams)) == 0 && HandlerInv(Fresh(streams)) && Unstarted(Fresh(streams)) && !Finished(Fresh(streams))
  {
  }

  /** A task's first step: the queue is one shorter, and the task one of those
      that have begun. */
  lemma FirstStepControl(s: Served)
    requires ControlInv(s) && |s.ready| > 0 && s.ready[0].FirstStep? && LoopStep(s).Some?
    ensures ControlInv(LoopStep(s).value)
  {
    var job := s.ready[0].job;
    assert FirstStep(job) in s.ready;
    FreshStarts(s.streams);
    FirstStepQueue(s.ready, s.jobs, Start(Fresh(s.streams)).value);
  }

  lemma FirstStepQueue(ready: seq<Entry>, jobs: seq<Job>, x: Handler)
    requires QueueInv(ready, jobs) && |ready| > 0 && ready[0].FirstStep? && !Unstarted(x)
    ensures ready[0].job < |jobs|
    ensures var j := ready[0].job; QueueInv(ready[1..], jobs[j := jobs[j].(handler := x)])
  {
    assert FirstStep(ready[0].job) in ready;
    QueueTail(ready, jobs);
  }

  lemma FirstStepPlaces(s: Served)
    requires PlacesInv(s) && |s.ready| > 0 && s.ready[0].FirstStep? && LoopStep(s).Some?
    ensures PlacesInv(LoopStep(s).value)
  {
    AccountKept(InFlight(s), s.items.released, s.items.dropped, s.jobs, LoopStep(s).value.jobs, s.items.taken);
  }

  lemma PumpStartControl(s: Served)
    requires ControlInv(s) && s.pump.NotStarted? && LoopStep(s).Some?
    ensures ControlInv(LoopStep(s).value)
  {
    QueueEmpty(s.jobs);
  }

  /** The pump's own turn has come: nothing else is ready. */
  ghost predicate PumpsTurn(s: Served) {
    ControlInv(s) && s.pump.Pumping? && s.ready == [PumpTurn]
  }

  /** It ends, whatever it makes of its wait. */
  lemma EndControl(s: Served, wait: CallSpec.Spec<Took>, failure: bool, items: Items)
    requires PumpsTurn(s) && !wait.fate.Awaiting?
    ensures ControlInv(s.(ready := [], pump := Over, wait := wait, failure := failure, items := items))
  {
    PumpTurnAlone(s.ready, s.jobs);
    QueueEmpty(s.jobs);
  }

  /** It waits again. */
  lemma WaitControl(s: Served, items: Items)
    requires PumpsTurn(s) && !s.pumpAsked
    ensures ControlInv(s.(ready := [], wait := NewWait(), items := items))
  {
    PumpTurnAlone(s.ready, s.jobs);
    QueueEmpty(s.jobs);
  }

  /** It dispatches a task and waits again. */
  lemma DispatchControl(s: Served, h: nat)
    requires PumpsTurn(s) && !s.pumpAsked
    ensures ControlInv(s.(ready := [FirstStep(|s.jobs|)], wait := NewWait(), jobs := s.jobs + [Job(h, Fresh(s.streams))]))
  {
    PumpTurnAlone(s.ready, s.jobs);
    QueueEmpty(s.jobs);
    DispatchQueue(s.jobs, Job(h, Fresh(s.streams)));
    FreshStarts(s.streams);
  }

  /** The pump's own turn, its wait cancelled or ended. */
  lemma PumpTurnControl(s: Served)
    requires ControlInv(s) && s.pump.Pumping? && |s.ready| > 0 && s.ready[0].PumpTurn? && LoopStep(s).Some?
    ensures ControlInv(LoopStep(s).value)
  {
    PumpTurnAlone(s.ready, s.jobs);
    var rest := s.(ready := []);
    if s.pumpAsked {
      EndControl(s, PumpCancelledOut(rest).wait, s.failure, s.items);
    } else {
      match s.wait.native.value
      case Raises(e) => EndControl(s, PumpRaised(rest, e).wait, s.failure || s.handle, s.items);
      case Result(t) => TakeControl(s, t);
    }
  }

  lemma TakeControl(s: Served, t: Took)
    requires PumpsTurn(s) && !s.pumpAsked
    ensures ControlInv(Take(s.(ready := [], wait := s.wait.(fate := CallSpec.Delivered(t))), t))
  {
    var wait := s.wait.(fate := CallSpec.Delivered(t));
    match t
    case NoText(true) => EndControl(s, wait, s.failure, s.items);
    case NoText(false) => WaitControl(s, s.items);
    case Item(h, Request) => DispatchControl(s, h);
    case Item(h, NullItem) => WaitControl(s, Drop(s, h));
    case Item(h, Unreadable) => EndControl(s, wait, s.failure || s.handle, Drop(s, h).(unreadable := s.items.unreadable + 1));
  }

  predicate Dispatches(s: Served) {
    !s.pumpAsked && s.wait.native.Some? && s.wait.native.value.Result? && s.wait.native.value.r.Item?
    && s.wait.native.value.r.reading.Request?
  }

  lemma DispatchQueue(jobs: seq<Job>, job: Job)
    requires QueueInv([], jobs) && Unstarted(job.handler)
    ensures QueueInv([FirstStep(|jobs|)], jobs + [job])
  {
    forall i: nat ensures FirstStep(i) in [FirstStep(|jobs|)] <==> i < |jobs + [job]| && Unstarted((jobs + [job])[i].handler) {
      if i < |jobs| {
        assert FirstStep(i) !in [];
      }
    }
  }

  lemma PumpTurnPlaces(s: Served)
    requires PumpInv(s) && PlacesInv(s) && |s.ready| > 0 && s.ready[0].PumpTurn? && LoopStep(s).Some?
    ensures PlacesInv(LoopStep(s).value)
  {
    var rest := s.(ready := s.ready[1..]);
    if s.pump.Pumping? && !s.pumpAsked && s.wait.native.value.Result? {
      TakePlaces(rest, s.wait.native.value.r);
    }
  }

  /** What taking an item does to the account of items. */
  lemma TakeAccount(s: Served, t: Took)
    requires s.pump.Pumping?
    ensures var u := Take(s.(wait := s.wait.(fate := CallSpec.Delivered(t))), t);
            && u.items.released == s.items.released && u.items.taken == s.items.taken && InFlight(u) == None
            && u.items.dropped == (if t.Item? && !t.reading.Request? then s.items.dropped + [t.h] else s.items.dropped)
            && u.jobs == (if t.Item? && t.reading.Request? then s.jobs + [Job(t.h, Fresh(s.streams))] else s.jobs)
  {
  }

  lemma TakePlaces(s: Served, t: Took)
    requires s.pump.Pumping? && s.wait.fate.Awaiting? && s.wait.native == Some(Blocking.Result(t)) && PlacesInv(s)
    ensures PlacesInv(Take(s.(wait := s.wait.(fate := CallSpec.Delivered(t))), t))
  {
    TakeAccount(s, t);
    TakeMoves(s.items.released, s.items.dropped, s.jobs, s.items.taken, t, s.streams);
  }

  lemma TakeMoves(released: seq<nat>, dropped: seq<nat>, jobs: seq<Job>, taken: seq<nat>, t: Took, streams: bool)
    requires Account(if t.Item? then Some(t.h) else None, released, dropped, jobs, taken)
    ensures Account(None, released, if t.Item? && !t.reading.Request? then dropped + [t.h] else dropped,
                    if t.Item? && t.reading.Request? then jobs + [Job(t.h, Fresh(streams))] else jobs, taken)
  {
    if t.Item? {
      if t.reading.Request? {
        AccountDispatch(released, dropped, jobs, taken, Job(t.h, Fresh(streams)));
      } else {
        AccountDrop(released, dropped, jobs, taken, t.h);
      }
    }
  }

  // ---- The handlers ------------------------------------------------------

  lemma HandlerControl(s: Served, job: nat, e: HandlerEvent)
    requires ControlInv(s) && HandlerStep(s, job, e).Some?
    ensures ControlInv(HandlerStep(s, job, e).value)
  {
    var x := s.jobs[job].handler;
    assert JobInv(s.streams, x);
    HandlerKeeps(x, e);
    KindOf(x, e);
    QueueJob(s.ready, s.jobs, HandlerStep(s, job, e).value.jobs);
  }

  lemma KindOf(x: Handler, e: HandlerEvent)
    requires HandlerNext(x, e).Some?
    ensures HandlerNext(x, e).value.ForStream? <==> x.ForStream?
  {
  }

  lemma HandlerPlaces(s: Served, job: nat, e: HandlerEvent)
    requires PlacesInv(s) && HandlerStep(s, job, e).Some?
    ensures PlacesInv(HandlerStep(s, job, e).value)
  {
    AccountKept(InFlight(s), s.items.released, s.items.dropped, s.jobs, HandlerStep(s, job, e).value.jobs, s.items.taken);
  }

  // ---- stop() ------------------------------------------------------------

  lemma CancelPumpControl(s: Served)
    requires ControlInv(s)
    ensures ControlInv(CancelPump(s))
  {
    if !s.pump.Over? && PumpTurn !in s.ready { QueuePump(s.ready, s.jobs); }
  }

  lemma StopControl(s: Served, a: Action)
    requires ControlInv(s) && (a.StopCalled? || a.StopRuns? || a.StopSeesTasksOver?) && StopStep(s, a).Some?
    ensures ControlInv(StopStep(s, a).value)
  {
    assert a.StopSeesTasksOver? ==> AllFinished(s.jobs);
  }

  lemma StopWithdrawnControl(s: Served)
    requires ControlInv(s) && StopStep(s, StopWithdrawn).Some?
    ensures ControlInv(StopStep(s, StopWithdrawn).value)
  {
    CancelPumpControl(s);
    var c := CancelPump(s);
    assert c.handle == s.handle && c.library.stops == s.library.stops && c.library.withdrawn;
  }

  lemma WithdrawKeeps(streams: bool, x: Handler)
    requires JobInv(streams, x) && !Unstarted(x)
    ensures JobInv(streams, Withdraw(x)) && !Unstarted(Withdraw(x)) && Settlements(Withdraw(x)) == Settlements(x)
    ensures Finished(Withdraw(x)) <==> Finished(x)
  {
  }

  lemma WithdrawAllKeeps(streams: bool, jobs: seq<Job>)
    requires JobsInv(streams, jobs) && forall i :: 0 <= i < |jobs| ==> !Unstarted(jobs[i].handler)
    ensures JobsInv(streams, WithdrawAll(jobs))
    ensures forall i :: 0 <= i < |jobs| ==> WithdrawAll(jobs)[i].h == jobs[i].h && !Unstarted(WithdrawAll(jobs)[i].handler)
                                            && Settlements(WithdrawAll(jobs)[i].handler) == Settlements(jobs[i].handler)
  {
    forall i | 0 <= i < |jobs| ensures JobInv(streams, WithdrawAll(jobs)[i].handler) && !Unstarted(WithdrawAll(jobs)[i].handler)
                                       && Settlements(WithdrawAll(jobs)[i].handler) == Settlements(jobs[i].handler) {
      WithdrawKeeps(streams, jobs[i].handler);
    }
  }

  lemma NoneUnstarted(jobs: seq<Job>)
    requires QueueInv([], jobs)
    ensures forall i :: 0 <= i < |jobs| ==> !Unstarted(jobs[i].handler)
  {
    forall i: nat | i < |jobs| ensures !Unstarted(jobs[i].handler) {
      assert FirstStep(i) !in [];
    }
  }

  /** stop() cancels the tasks only when every one of them has begun. */
  lemma StopTasksControl(s: Served)
    requires ControlInv(s) && StopStep(s, StopSeesPumpOver).Some?
    ensures ControlInv(StopStep(s, StopSeesPumpOver).value)
  {
    NoneUnstarted(s.jobs);
    WithdrawAllKeeps(s.streams, s.jobs);
    QueueJob(s.ready, s.jobs, WithdrawAll(s.jobs));
  }

  lemma StopPlaces(s: Served, a: Action)
    requires PlacesInv(s) && (a.StopCalled? || a.StopRuns? || a.StopWithdrawn? || a.StopSeesTasksOver?) && StopStep(s, a).Some?
    ensures PlacesInv(StopStep(s, a).value)
  {
  }

  lemma StopTasksPlaces(s: Served)
    requires PlacesInv(s) && StopStep(s, StopSeesPumpOver).Some?
    ensures PlacesInv(StopStep(s, StopSeesPumpOver).value)
  {
    AccountKept(InFlight(s), s.items.released, s.items.dropped, s.jobs, WithdrawAll(s.jobs), s.items.taken);
  }

  // ---- Who answered ------------------------------------------------------

  lemma AnswersCarry(s: Served, t: Served)
    requires AnswersRecorded(s) && AnswersKept(s, t) && t.streams == s.streams
    ensures AnswersRecorded(t)
  {
  }

  lemma FirstStepAnswers(s: Served)
    requires AnswersRecorded(s) && ControlInv(s) && |s.ready| > 0 && s.ready[0].FirstStep? && LoopStep(s).Some?
    ensures AnswersRecorded(LoopStep(s).value)
  {
    FreshStarts(s.streams);
    assert FirstStep(s.ready[0].job) in s.ready;
    AnswersCarry(s, LoopStep(s).value);
  }

  lemma PumpTurnAnswers(s: Served)
    requires AnswersRecorded(s) && |s.ready| > 0 && s.ready[0].PumpTurn? && LoopStep(s).Some?
    ensures AnswersRecorded(LoopStep(s).value)
  {
    FreshStarts(s.streams);
    PumpFrame(s.(ready := s.ready[1..]));
    PumpJobs(s.(ready := s.ready[1..]));
  }

  /** The pump's turn adds at most one task, a fresh one, and answers nothing. */
  lemma PumpJobs(s: Served)
    requires PumpStep(s).Some?
    ensures PumpStep(s).value.jobs ==
            if s.pump.Pumping? && Dispatches(s) then s.jobs + [Job(s.wait.native.value.r.h, Fresh(s.streams))] else s.jobs
  {
  }

  lemma PumpFrame(s: Served)
    requires PumpStep(s).Some?
    ensures PumpStep(s).value.streams == s.streams
    ensures PumpStep(s).value.items.released == s.items.released
    ensures PumpStep(s).value.library == s.library
  {
    if s.pump.Pumping? && !s.pumpAsked && s.wait.native.value.Result? {
      var t := s.wait.native.value.r;
      TakeFrame(s.(wait := s.wait.(fate := CallSpec.Delivered(t))), t);
    }
  }

  lemma TakeFrame(s: Served, t: Took)
    ensures Take(s, t).streams == s.streams
    ensures Take(s, t).items.released == s.items.released
    ensures Take(s, t).library == s.library
  {
  }

  lemma HandlerAnswers(s: Served, job: nat, e: HandlerEvent)
    requires AnswersRecorded(s) && HandlerStep(s, job, e).Some?
    ensures AnswersRecorded(HandlerStep(s, job, e).value)
  {
  }

  lemma DiscardAnswers(s: Served)
    requires AnswersRecorded(s) && DiscardStep(s).Some?
    ensures AnswersRecorded(DiscardStep(s).value)
  {
  }

  lemma StopAnswers(s: Served, a: Action)
    requires ControlInv(s) && AnswersRecorded(s)
    requires (a.StopCalled? || a.StopRuns? || a.StopWithdrawn? || a.StopSeesPumpOver? || a.StopSeesTasksOver?) && StopStep(s, a).Some?
    ensures AnswersRecorded(StopStep(s, a).value)
  {
    var t := StopStep(s, a).value;
    if a.StopSeesPumpOver? {
      NoneUnstarted(s.jobs);
      WithdrawAllKeeps(s.streams, s.jobs);
    }
    AnswersCarry(s, t);
  }

  // ---- Every step --------------------------------------------------------

  predicate IsStop(a: Action) {
    a.StopCalled? || a.StopRuns? || a.StopWithdrawn? || a.StopSeesPumpOver? || a.StopSeesTasksOver?
  }

  lemma LoopKeeps(s: Served)
    requires Inv(s) && LoopStep(s).Some?
    ensures Inv(LoopStep(s).value)
  {
    if s.ready[0].FirstStep? {
      FirstStepAnswers(s);
      FirstStepControl(s);
      FirstStepPlaces(s);
    } else {
      if s.pump.Pumping? { PumpTurnControl(s); } else { PumpStartControl(s); }
      PumpTurnPlaces(s);
      PumpTurnAnswers(s);
    }
  }

  lemma StopKeeps(s: Served, a: Action)
    requires Inv(s) && IsStop(a) && StopStep(s, a).Some?
    ensures Inv(StopStep(s, a).value)
  {
    StopAnswers(s, a);
    if a.StopSeesPumpOver? {
      StopTasksControl(s);
      StopTasksPlaces(s);
    } else {
      StopPlaces(s, a);
      if a.StopWithdrawn? { StopWithdrawnControl(s); } else { StopControl(s, a); }
    }
  }

  lemma NativeKeeps(s: Served, o: Blocking.Outcome<Took>)
    requires Inv(s) && NativeStep(s, o).Some?
    ensures Inv(NativeStep(s, o).value)
  {
    NativeControl(s, o);
    NativePlaces(s, o);
    NativeAnswers(s, o);
  }

  lemma LandKeeps(s: Served)
    requires Inv(s) && LandStep(s).Some?
    ensures Inv(LandStep(s).value)
  {
    LandControl(s);
  }

  lemma HandlerStepKeeps(s: Served, job: nat, e: HandlerEvent)
    requires Inv(s) && HandlerStep(s, job, e).Some?
    ensures Inv(HandlerStep(s, job, e).value)
  {
    HandlerControl(s, job, e);
    HandlerPlaces(s, job, e);
    HandlerAnswers(s, job, e);
  }

  lemma DiscardKeeps(s: Served)
    requires Inv(s) && DiscardStep(s).Some?
    ensures Inv(DiscardStep(s).value)
  {
    DiscardControl(s);
    DiscardPlaces(s);
    DiscardAnswers(s);
  }

  lemma DeadlineKeeps(s: Served, h: nat)
    requires Inv(s) && h in s.items.taken
    ensures Inv(s.(library := AnswerWith(s, h, Library)))
  {
    AnswersCarry(s, s.(library := AnswerWith(s, h, Library)));
  }

  lemma CancelPumpKeeps(s: Served)
    requires Inv(s)
    ensures Inv(CancelPump(s))
  {
    CancelPumpControl(s);
    AnswersCarry(s, CancelPump(s));
  }

  /** Every step of a served procedure keeps its invariant. */
  lemma StepKeeps(s: Served, a: Action)
    requires Inv(s) && Next(s, a).Some?
    ensures Inv(Next(s, a).value)
  {
    match a
    case NativeEnds(o) => NativeKeeps(s, o);
    case WaitLands => LandKeeps(s);
    case LoopTurn => LoopKeeps(s);
    case JobStep(job, e) => HandlerStepKeeps(s, job, e);
    case DiscardRuns => DiscardKeeps(s);
    case Deadline(h) => DeadlineKeeps(s, h);
    case PumpCancelled => CancelPumpKeeps(s);
    case _ => StopKeeps(s, a);
  }
}
