/** The Served object: its handle, its pump, its dispatched tasks and the ready
    queue they share. Each method is one uninterrupted piece of its code, proved
    to be the step of Serving it is written as. */
module ServingObjects {
  import opened Options
  import Blocking
  import CallSpec
  import Handlers
  import opened Serving
  import Inv = ServingInvariant

  class ServedProcedure {
    const streams: bool

    var handle: Option<nat>
    var ready: seq<Entry>
    var pump: Pump
    var pumpAsked: bool
    var wait: CallSpec.Spec<Took>
    var tasks: seq<Job>
    var failure: bool
    var stop: Stop
    ghost var taken: seq<nat>
    var released: seq<nat>
    ghost var dropped: seq<nat>
    ghost var unreadable: nat
    ghost var stops: nat
    ghost var withdrawn: bool
    ghost var answers: map<nat, Answerer>

    /** The procedure as Serving speaks of it. */
    ghost function View(): Served
      reads this
    {
      Served(streams, handle.Some?, ready, pump, pumpAsked, wait, tasks, failure, stop,
             Items(taken, released, dropped, unreadable), Ledger(stops, withdrawn, answers))
    }

    constructor (handle: nat, streams: bool)
      ensures View() == Opened(streams) && this.handle == Some(handle)
    {
      this.handle, this.streams := Some(handle), streams;
      ready, pump, pumpAsked, wait := [PumpTurn], NotStarted, false, CallSpec.Spec(None, CallSpec.Awaiting);
      tasks, failure, stop := [], false, NotAsked;
      taken, released, dropped, unreadable := [], [], [], 0;
      stops, withdrawn, answers := 0, false, map[];
    }

    // ---- The pump --------------------------------------------------------

    /** _serve, up to its first wait. */
    method PumpStarts()
      requires pump.NotStarted?
      modifies this`pump
      ensures PumpStep(old(View())) == Some(View())
      ensures pump == if pumpAsked || handle.None? then Over else Pumping
    {
      pump := if pumpAsked || handle.None? then Over else Pumping;
    }

    /** A cancellation is thrown into the wait, whose outcome is now nobody's. */
    method PumpIsCancelled()
      requires pump.Pumping? && pumpAsked
      modifies this`pump, this`wait
      ensures PumpStep(old(View())) == Some(View())
      ensures pump.Over? && wait.fate.CancelledOwing? && wait.native == old(wait).native
    {
      pump := Over;
      wait := wait.(fate := CallSpec.CancelledOwing);
    }

    /** The wait raised: a failure, unless stop() withdrew the procedure under
        it. */
    method PumpFails()
      requires pump.Pumping? && !pumpAsked && wait.native.Some? && wait.native.value.Raises?
      modifies this`pump, this`wait, this`failure
      ensures PumpStep(old(View())) == Some(View())
      ensures pump.Over? && failure == (old(failure) || handle.Some?)
    {
      wait := wait.(fate := CallSpec.Failed(CallSpec.Reported(Blocking.Blocking(true), wait.native.value.e)));
      pump := Over;
      if handle.Some? {
        failure := true;
      }
    }

    /** The wait came back: the pump returns, waits again, or takes an item. */
    method PumpTakes()
      requires pump.Pumping? && !pumpAsked && wait.native.Some? && wait.native.value.Result?
      modifies this`pump, this`wait, this`ready, this`tasks, this`failure, this`dropped, this`unreadable
      ensures PumpStep(old(View())) == Some(View())
      ensures old(wait).native.value.r.NoText? ==>
                && pump == (if old(wait).native.value.r.closed then Over else Pumping)
                && (pump.Pumping? ==> wait.native.None? && wait.fate.Awaiting?)
                && tasks == old(tasks) && ready == old(ready) && failure == old(failure) && dropped == old(dropped)
      ensures old(wait).native.value.r.Item? ==>
                (pump.Over? <==> old(wait).native.value.r.reading.Unreadable?)
                && |tasks| == |old(tasks)| + if old(wait).native.value.r.reading.Request? then 1 else 0
    {
      var t := wait.native.value.r;
      wait := wait.(fate := CallSpec.Delivered(t));
      if t.Item? {
        TakeItem(t.h, t.reading);
      } else if t.closed {
        pump := Over;
      } else {
        wait := NewWait();
      }
    }

    /** An item is dispatched if its text gives a request; else it is dropped,
        and one that does not decode ends serving. */
    method TakeItem(h: nat, reading: Reading)
      modifies this`pump, this`wait, this`ready, this`tasks, this`failure, this`dropped, this`unreadable
      ensures View() == Take(old(View()), Item(h, reading))
      ensures tasks == if reading.Request? then old(tasks) + [Job(h, Handlers.Fresh(streams))] else old(tasks)
      ensures dropped == if reading.Request? then old(dropped) else old(dropped) + [h]
      ensures pump == if reading.Unreadable? then Over else old(pump)
      ensures failure == (old(failure) || (reading.Unreadable? && handle.Some?))
    {
      if reading.Request? {
        Dispatch(h);
      } else {
        DropItem(h, reading);
      }
    }

    method DropItem(h: nat, reading: Reading)
      requires !reading.Request?
      modifies this`pump, this`wait, this`failure, this`dropped, this`unreadable
      ensures View() == Take(old(View()), Item(h, reading))
      ensures dropped == old(dropped) + [h] && pump == if reading.Unreadable? then Over else old(pump)
      ensures failure == (old(failure) || (reading.Unreadable? && handle.Some?))
    {
      dropped := dropped + [h];
      if reading.NullItem? {
        wait := NewWait();
      } else {
        unreadable := unreadable + 1;
        pump, failure := Over, failure || handle.Some?;
      }
    }

    /** create_task: the task is owned before anything else can run. */
    method Dispatch(h: nat)
      modifies this`ready, this`tasks, this`wait
      ensures tasks == old(tasks) + [Job(h, Handlers.Fresh(streams))]
      ensures ready == old(ready) + [FirstStep(|old(tasks)|)] && wait == NewWait()
    {
      ready := ready + [FirstStep(|tasks|)];
      tasks := tasks + [Job(h, Handlers.Fresh(streams))];
      wait := NewWait();
    }

    method PumpRuns()
      requires PumpStep(View()).Some?
      modifies this`pump, this`wait, this`ready, this`tasks, this`failure, this`dropped, this`unreadable
      ensures PumpStep(old(View())) == Some(View()) && handle == old(handle)
    {
      if pump.NotStarted? {
        PumpStarts();
      } else if pumpAsked {
        PumpIsCancelled();
      } else if wait.native.value.Raises? {
        PumpFails();
      } else {
        PumpTakes();
      }
    }

    // ---- The event loop --------------------------------------------------

    /** A dispatch task takes its first step. */
    method TaskStarts(job: nat)
      requires job < |tasks| && Handlers.Start(tasks[job].handler).Some?
      modifies this`tasks
      ensures FirstStepOf(old(View()), job) == Some(View())
    {
      tasks := tasks[job := tasks[job].(handler := Handlers.Start(tasks[job].handler).value)];
    }

    /** A task that has begun takes one more step. */
    method TaskStep(job: nat, e: Handlers.HandlerEvent)
      requires HandlerStep(View(), job, e).Some?
      modifies this`tasks, this`answers
      ensures HandlerStep(old(View()), job, e) == Some(View())
    {
      var x := Handlers.HandlerNext(tasks[job].handler, e).value;
      if Handlers.Settlements(x) > Handlers.Settlements(tasks[job].handler) {
        answers := AnswerWith(View(), tasks[job].h, Us).answers;
      }
      tasks := tasks[job := tasks[job].(handler := x)];
    }

    method LoopRuns()
      requires LoopStep(View()).Some?
      modifies this`pump, this`wait, this`ready, this`tasks, this`failure, this`dropped, this`unreadable
      ensures LoopStep(old(View())) == Some(View()) && handle == old(handle)
    {
      var entry := ready[0];
      ready := ready[1..];
      match entry {
        case FirstStep(job) => TaskStarts(job);
        case PumpTurn => PumpRuns();
      }
    }

    /** The loop runs until nothing is ready. Every dispatched task has then
        begun, and the pump is over or waits, uncancelled, for its library's
        call. */
    method RunUntilIdle()
      requires Inv.Inv(View())
      modifies this`pump, this`wait, this`ready, this`tasks, this`failure, this`dropped, this`unreadable
      ensures Inv.Inv(View()) && handle == old(handle) && ready == []
      ensures handle.None? ==> failure == old(failure)
      ensures stops == old(stops) && withdrawn == old(withdrawn)
      ensures stop == old(stop) && (old(pumpAsked) ==> pump.Over?)
      ensures forall i :: 0 <= i < |tasks| ==> Handlers.Begun(tasks[i].handler)
    {
      while |ready| > 0
        invariant Inv.Inv(View()) && handle == old(handle) && stop == old(stop) && pumpAsked == old(pumpAsked)
        invariant (handle.None? ==> failure == old(failure)) && stops == old(stops) && withdrawn == old(withdrawn)
        decreases |ready| + if PumpTurn in ready then 1 else 0
      {
        ghost var before := View();
        TurnCanRun(View());
        Inv.LoopKeeps(View());
        TurnShortens(View());
        LoopRuns();
        assert View() == LoopStep(before).value;
      }
      AllBegun(View());
    }

    // ---- stop() ----------------------------------------------------------

    /** The check and the swap: only one stop() finds the handle. */
    method StopTakesHandle() returns (h: Option<nat>)
      modifies this`handle, this`stop, this`stops
      ensures StopStep(old(View()), StopCalled) == Some(View())
      ensures h == old(handle) && handle == None
      ensures h.None? ==> View() == old(View())
    {
      h := handle;
      if handle.Some? {
        handle, stop, stops := None, Withdrawing, stops + 1;
      }
    }

    /** macula_served_stop runs, on its thread. */
    method LibraryWithdraws()
      requires stop.Withdrawing? && !withdrawn
      modifies this`withdrawn, this`answers
      ensures StopStep(old(View()), StopRuns) == Some(View())
      ensures withdrawn && (!streams ==> forall h :: h in taken ==> h in answers)
    {
      answers, withdrawn := EndAll(View()).answers, true;
    }

    /** Back from macula_served_stop: the pump is cancelled. */
    method CancelThePump()
      requires stop.Withdrawing? && withdrawn
      modifies this`stop, this`pumpAsked, this`ready
      ensures StopStep(old(View()), StopWithdrawn) == Some(View())
      ensures pump.Over? || (pumpAsked && PumpTurn in ready)
      ensures stop == AwaitingPump && (old(pump).Over? ==> ready == old(ready))
    {
      if !pump.Over? {
        pumpAsked := true;
        if PumpTurn !in ready {
          ready := ready + [PumpTurn];
        }
      }
      stop := AwaitingPump;
    }

    /** The pump gathered: every task is cancelled, one after the other. */
    method CancelTheTasks()
      requires stop.AwaitingPump? && pump.Over?
      modifies this`stop, this`tasks
      ensures StopStep(old(View()), StopSeesPumpOver) == Some(View())
      ensures stop == AwaitingTasks && |tasks| == |old(tasks)|
      ensures forall i :: 0 <= i < |tasks| ==> tasks[i].h == old(tasks)[i].h && IsWithdrawn(old(tasks)[i].handler, tasks[i].handler)
    {
      for i := 0 to |tasks|
        invariant |tasks| == |old(tasks)|
        invariant forall k :: 0 <= k < i ==> tasks[k] == old(tasks)[k].(handler := Handlers.Withdraw(old(tasks)[k].handler))
        invariant forall k :: i <= k < |tasks| ==> tasks[k] == old(tasks)[k]
      {
        tasks := tasks[i := tasks[i].(handler := Handlers.Withdraw(tasks[i].handler))];
      }
      assert tasks == WithdrawAll(old(tasks));
      stop := AwaitingTasks;
    }

    /** The tasks gathered: stop() returns, or raises what had stopped the pump
        early. */
    method StopEnds() returns (raises: bool)
      requires stop.AwaitingTasks? && Inv.AllFinished(tasks)
      modifies this`stop
      ensures StopStep(old(View()), StopSeesTasksOver) == Some(View())
      ensures raises == failure
      ensures stop == if failure then RaisedFailure else Returned
    {
      raises := failure;
      stop := if failure then RaisedFailure else Returned;
    }

    /** discard, of an outcome that landed when the pump no longer waited. */
    method Release()
      requires wait.fate.CancelledOwing? && wait.native.Some?
      modifies this`wait, this`released, this`answers
      ensures DiscardStep(old(View())) == Some(View()) && handle == old(handle)
      ensures released == old(released) + if wait.native.value.Result? && wait.native.value.r.Item? then [wait.native.value.r.h] else []
    {
      match wait.native.value {
        case Raises(_) => wait := wait.(fate := CallSpec.CancelledDropped);
        case Result(t) =>
          wait := wait.(fate := CallSpec.CancelledReleased(t));
          if t.Item? {
            answers := AnswerWith(View(), t.h, Us).answers;
            released := released + [t.h];
          }
      }
    }
  }

  /** y is x cancelled as withdrawn; one that is done is left alone. */
  predicate IsWithdrawn(x: Handlers.Handler, y: Handlers.Handler) {
    if Handlers.Finished(x) then y == x
    else
      match x
      case ForCall(a) => y == Handlers.ForCall(a.(asked := true, withdrawn := true))
      case ForStream(t) => y == Handlers.ForStream(t.(asked := true))
  }

  /** Under the invariant a ready entry can always run. */
  lemma TurnCanRun(s: Served)
    requires Inv.Inv(s) && |s.ready| > 0
    ensures LoopStep(s).Some?
  {
    if s.ready[0].FirstStep? {
      assert FirstStep(s.ready[0].job) in s.ready;
      Inv.FreshStarts(s.streams);
    } else {
      assert PumpTurn in s.ready;
    }
  }

  lemma TurnShortens(s: Served)
    requires Inv.Inv(s) && |s.ready| > 0 && LoopStep(s).Some?
    ensures var t := LoopStep(s).value;
            |t.ready| + (if PumpTurn in t.ready then 1 else 0) < |s.ready| + (if PumpTurn in s.ready then 1 else 0)
    ensures LoopStep(s).value.stop == s.stop && LoopStep(s).value.pumpAsked == s.pumpAsked
    ensures !s.handle ==> LoopStep(s).value.failure == s.failure
    ensures LoopStep(s).value.library.stops == s.library.stops && LoopStep(s).value.library.withdrawn == s.library.withdrawn
  {
    if s.ready[0].PumpTurn? {
      Inv.PumpTurnAlone(s.ready, s.jobs);
    }
  }

  lemma AllBegun(s: Served)
    requires Inv.Inv(s) && s.ready == []
    ensures forall i :: 0 <= i < |s.jobs| ==> Handlers.Begun(s.jobs[i].handler)
    ensures s.pumpAsked ==> s.pump.Over?
  {
    forall i: nat | i < |s.jobs| ensures Handlers.Begun(s.jobs[i].handler) {
      assert FirstStep(i) !in s.ready;
      assert Inv.JobInv(s.streams, s.jobs[i].handler);
    }
  }
}
