/** What each turn of the pump does, when the pump is over, who answers a call,
    and that nothing the environment may do is ever shut out. */
module ServingSteps {
  import opened Options
  import Blocking
  import opened Handlers
  import opened Serving
  import opened ServingInvariant
  import opened ServingLaws
  import Machines

  // ---- The end of the pump -----------------------------------------------

  /** A turn in which the pump starts with no handle, or finds itself cancelled,
      its wait raised, a text that does not decode, or the inbox closed. */
  predicate EndsPump(s: Served) {
    && |s.ready| > 0 && s.ready[0].PumpTurn?
    && (s.pumpAsked || (s.pump.NotStarted? && !s.handle) || (s.pump.Pumping? && WaitEnds(s.wait.native)))
  }

  predicate WaitEnds(native: Option<Blocking.Outcome<Took>>) {
    native.Some? &&
    match native.value
    case Raises(_) => true
    case Result(NoText(closed)) => closed
    case Result(Item(_, reading)) => reading.Unreadable?
  }

  lemma PumpEnds(s: Served)
    requires PumpStep(s).Some?
    ensures PumpStep(s).value.pump.Over? <==> s.pumpAsked || (s.pump.NotStarted? && !s.handle) || (s.pump.Pumping? && WaitEnds(s.wait.native))
  {
  }

  predicate IsOver(s: Served) {
    s.pump.Over?
  }

  /** Only such a turn ends the pump. */
  lemma OverBecause(s: Served, a: Action)
    requires Next(s, a).Some? && !s.pump.Over? && Next(s, a).value.pump.Over?
    ensures a.LoopTurn? && EndsPump(s)
  {
    match a
    case LoopTurn => if s.ready[0].PumpTurn? { PumpEnds(s.(ready := s.ready[1..])); }
    case JobStep(job, e) => HandlerLedger(s, job, e);
    case NativeEnds(o) => NativeFrame(s, o);
    case DiscardRuns => DiscardLedger(s);
    case WaitLands =>
    case Deadline(_) =>
    case PumpCancelled =>
    case _ => StopPump(s, a);
  }

  lemma StopPump(s: Served, a: Action)
    requires IsStop(a) && StopStep(s, a).Some?
    ensures StopStep(s, a).value.pump == s.pump
  {
  }

  ghost predicate EndsAt(streams: bool, schedule: seq<Action>, k: nat) {
    && k < |schedule| && schedule[k].LoopTurn? && Machines.Run(Next, Opened(streams), schedule[..k]).Some?
    && EndsPump(Machines.Run(Next, Opened(streams), schedule[..k]).value)
  }

  /** In every run, the pump is over exactly when at some step its turn came and
      it had been cancelled, or began with the handle gone, or its wait had
      raised, given it a text that does not decode, or found the inbox closed. */
  lemma PumpOverExactly(streams: bool, schedule: seq<Action>)
    requires Machines.Run(Next, Opened(streams), schedule).Some?
    ensures Machines.Run(Next, Opened(streams), schedule).value.pump.Over? <==> exists k: nat :: EndsAt(streams, schedule, k)
  {
    var end := Machines.Run(Next, Opened(streams), schedule).value;
    if IsOver(end) { OverHappened(streams, schedule); }
    forall k: nat | EndsAt(streams, schedule, k) ensures IsOver(end) {
      OverLasts(streams, schedule, k);
    }
  }

  lemma OverHappened(streams: bool, schedule: seq<Action>)
    requires Machines.Run(Next, Opened(streams), schedule).Some? && IsOver(Machines.Run(Next, Opened(streams), schedule).value)
    ensures exists k: nat :: EndsAt(streams, schedule, k)
  {
    Machines.TurningPoint(Next, IsOver, Opened(streams), schedule);
    var k: nat :| Machines.TurnsAt(Next, IsOver, Opened(streams), schedule, k);
    OverBecause(Machines.Run(Next, Opened(streams), schedule[..k]).value, schedule[k]);
    assert EndsAt(streams, schedule, k);
  }

  lemma OverLasts(streams: bool, schedule: seq<Action>, k: nat)
    requires Machines.Run(Next, Opened(streams), schedule).Some? && EndsAt(streams, schedule, k)
    ensures IsOver(Machines.Run(Next, Opened(streams), schedule).value)
  {
    var s := Machines.Run(Next, Opened(streams), schedule[..k]).value;
    Machines.RunOn(Next, Opened(streams), schedule, k);
    assert schedule[k..][1..] == schedule[k + 1..];
    PumpEnds(s.(ready := s.ready[1..]));
    forall t: Served, a: Action | IsOver(t) && Next(t, a).Some? ensures IsOver(Next(t, a).value) {
      PumpStaysOver(t, a);
    }
    Machines.RunKeeps(Next, IsOver, Next(s, schedule[k]).value, schedule[k + 1..]);
  }

  /** The pump's turn on a wait that gave no text: it is over exactly when the
      inbox was closed, and otherwise waits anew; either way nothing is
      dispatched, dropped or failed. */
  lemma NoTextDecides(s: Served, closed: bool)
    requires s.pump.Pumping? && !s.pumpAsked && s.ready == [PumpTurn] && s.wait.native == Some(Blocking.Result(NoText(closed)))
    ensures LoopStep(s).Some?
    ensures var t := LoopStep(s).value;
            && (t.pump.Over? <==> closed) && (t.pump.Pumping? <==> !closed)
            && (!closed ==> t.wait.native.None? && t.wait.fate.Awaiting?)
            && t.ready == [] && t.jobs == s.jobs && t.items == s.items && t.library == s.library
            && t.failure == s.failure && t.handle == s.handle && t.stop == s.stop
  {
  }

  /** The pump's first turn, and a turn in which it finds itself cancelled. */
  lemma StartDecides(s: Served)
    requires |s.ready| > 0 && s.ready[0].PumpTurn? && s.pump.NotStarted?
    ensures LoopStep(s).Some?
    ensures var t := LoopStep(s).value;
            t.ready == s.ready[1..] && t.jobs == s.jobs && t.items == s.items && t.failure == s.failure
            && t.pump == if s.handle && !s.pumpAsked then Pumping else Over
  {
  }

  // ---- Nothing is shut out -----------------------------------------------

  /** Whatever the state, a handler that has begun can take every step its own
      machine allows, and takes just that. */
  lemma TasksOpen(s: Served, job: nat, e: HandlerEvent)
    requires job < |s.jobs| && !Unstarted(s.jobs[job].handler) && HandlerNext(s.jobs[job].handler, e).Some?
    ensures Next(s, JobStep(job, e)).Some?
    ensures Next(s, JobStep(job, e)).value.jobs == s.jobs[job := Job(s.jobs[job].h, HandlerNext(s.jobs[job].handler, e).value)]
  {
  }

  /** Deadlines fall for any call taken, the pump's task can be cancelled and
      stop() called at any time, and the library's stop runs and returns once
      stop() has asked for it. */
  lemma OthersOpen(s: Served, h: nat)
    ensures h in s.items.taken ==> Next(s, Deadline(h)).Some? && (!s.streams ==> h in Next(s, Deadline(h)).value.library.answers)
    ensures Next(s, PumpCancelled).Some? && (!s.pump.Over? ==> Next(s, PumpCancelled).value.pumpAsked)
    ensures Next(s, StopCalled).Some? && !Next(s, StopCalled).value.handle
    ensures s.stop.Withdrawing? && !s.library.withdrawn ==> Next(s, StopRuns).Some? && Next(s, StopRuns).value.library.withdrawn
    ensures s.stop.Withdrawing? && s.library.withdrawn ==> Next(s, StopWithdrawn).Some? && Next(s, StopWithdrawn).value.stop.AwaitingPump?
  {
  }

  /** The library's call can come back in any way it may, whether or not the
      pump still waits for it, and an outcome that has come back reaches the
      pump. */
  lemma WaitsOpen(s: Served, o: Blocking.Outcome<Took>)
    requires Waits(s) && (o.Result? && o.r.Item? ==> o.r.h !in s.items.taken)
    ensures s.wait.native.None? ==> Next(s, Action.NativeEnds(o)).Some? && Next(s, Action.NativeEnds(o)).value.wait.native == Some(o)
    ensures s.pump.Pumping? && s.wait.native.Some? && PumpTurn !in s.ready ==>
              Next(s, WaitLands).Some? && Next(s, WaitLands).value.ready == s.ready + [PumpTurn]
  {
  }

  // ---- Who answers -------------------------------------------------------

  /** An answer goes on record as this side's exactly when the step that put it
      there settled the call: a handler's or a release's. Every other answer is
      the library's. */
  lemma WhoAnswers(s: Served, a: Action, h: nat)
    requires Reachable(s) && Next(s, a).Some? && h !in s.library.answers && h in Next(s, a).value.library.answers
    ensures var t := Next(s, a).value;
            && (t.library.answers[h] == Us <==> Settled(t.items.released, t.jobs, h) > Settled(s.items.released, s.jobs, h))
            && (t.library.answers[h] == Us ==> a.JobStep? || a.DiscardRuns?)
            && (t.library.answers[h] == Library ==> a.NativeEnds? || a.Deadline? || a.StopRuns?)
  {
    ReachableInv(s);
    match a
    case JobStep(job, e) => HandlerIsUs(s, job, e, h);
    case DiscardRuns => DiscardIsUs(s, h);
    case LoopTurn => LoopAnswer(s);
    case NativeEnds(o) => NativeIsLibrary(s, o, h);
    case WaitLands =>
    case PumpCancelled =>
    case Deadline(_) =>
    case _ => StopIsLibrary(s, a, h);
  }

  lemma {:induction false} ByHandlersMore(jobs: seq<Job>, job: nat, x: Handler, h: nat)
    requires job < |jobs| && jobs[job].h == h && Settlements(x) > Settlements(jobs[job].handler)
    ensures ByHandlers(jobs[job := Job(h, x)], h) > ByHandlers(jobs, h)
  {
    var others := jobs[job := Job(h, x)];
    var last := |jobs| - 1;
    if job == last {
      assert others[..last] == jobs[..last];
    } else {
      ByHandlersMore(jobs[..last], job, x, h);
      assert others[..last] == jobs[..last][job := Job(h, x)];
    }
  }

  lemma HandlerIsUs(s: Served, job: nat, e: HandlerEvent, h: nat)
    requires HandlerStep(s, job, e).Some? && h !in s.library.answers && h in HandlerStep(s, job, e).value.library.answers
    ensures var t := HandlerStep(s, job, e).value;
            t.library.answers[h] == Us && Settled(t.items.released, t.jobs, h) > Settled(s.items.released, s.jobs, h)
  {
    var t := HandlerStep(s, job, e).value;
    HandlerLedger(s, job, e);
    assert s.jobs[job].h == h;
    ByHandlersMore(s.jobs, job, t.jobs[job].handler, h);
  }

  lemma DiscardIsUs(s: Served, h: nat)
    requires DiscardStep(s).Some? && h !in s.library.answers && h in DiscardStep(s).value.library.answers
    ensures var t := DiscardStep(s).value;
            t.library.answers[h] == Us && Settled(t.items.released, t.jobs, h) > Settled(s.items.released, s.jobs, h)
  {
    CountMore(s.items.released, h);
  }

  lemma NativeIsLibrary(s: Served, o: Blocking.Outcome<Took>, h: nat)
    requires NativeStep(s, o).Some? && h !in s.library.answers && h in NativeStep(s, o).value.library.answers
    ensures var t := NativeStep(s, o).value;
            t.library.answers[h] == Library && t.jobs == s.jobs && t.items.released == s.items.released
  {
  }

  lemma StopIsLibrary(s: Served, a: Action, h: nat)
    requires Inv(s) && IsStop(a) && StopStep(s, a).Some? && h !in s.library.answers && h in StopStep(s, a).value.library.answers
    ensures var t := StopStep(s, a).value;
            a.StopRuns? && t.library.answers[h] == Library && t.jobs == s.jobs && t.items == s.items
  {
  }
}
