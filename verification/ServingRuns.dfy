/** stop() run from its call to its end, on the objects, with handlers that end
    as soon as they are cancelled. */
module ServingRuns {
  import opened Options
  import Handlers
  import opened Serving
  import Inv = ServingInvariant
  import opened ServingObjects

  /** Cancelled as withdrawn, unless it is done. */
  predicate AskedToEnd(x: Handlers.Handler) {
    match x
    case ForCall(a) => a.phase.Answered? || (a.asked && a.withdrawn)
    case ForStream(s) => s.phase.Ended? || s.asked
  }

  /** The next event of a handler on its shortest way out. */
  function WayOut(x: Handlers.Handler): Handlers.HandlerEvent {
    match x
    case ForCall(a) =>
      Handlers.CallEvent(if a.phase.Handling? then Handlers.HandlerCancelled(true) else Handlers.SendCancelled)
    case ForStream(s) =>
      Handlers.StreamEvent(if s.phase.Serving? then Handlers.SessionCancelled
                           else if s.phase.Freeing? then Handlers.FreeCancelled
                           else Handlers.NativeCancelled)
  }

  function StepsOut(x: Handlers.Handler): nat {
    match x
    case ForCall(a) => if a.phase.Answered? then 0 else 1
    case ForStream(s) => if s.phase.Ended? then 0 else if s.phase.Freeing? then 1 else 2
  }

  lemma OnTheWayOut(x: Handlers.Handler)
    requires Handlers.HandlerInv(x) && AskedToEnd(x) && !Handlers.Unstarted(x) && !Handlers.Finished(x)
    ensures Handlers.HandlerNext(x, WayOut(x)).Some?
    ensures var y := Handlers.HandlerNext(x, WayOut(x)).value; AskedToEnd(y) && StepsOut(y) < StepsOut(x)
  {
  }

  lemma WithdrawnAsked(jobs: seq<Job>)
    ensures forall i :: 0 <= i < |jobs| ==> AskedToEnd(WithdrawAll(jobs)[i].handler)
  {
  }

  /** A cancelled task's handler runs to its end; no other task moves. */
  method EndTask(served: ServedProcedure, job: nat)
    requires Inv.Inv(served.View()) && job < |served.tasks|
    requires AskedToEnd(served.tasks[job].handler) && !Handlers.Unstarted(served.tasks[job].handler)
    modifies served`tasks, served`answers
    ensures Inv.Inv(served.View())
    ensures |served.tasks| == |old(served.tasks)| && Handlers.Finished(served.tasks[job].handler)
    ensures forall i :: 0 <= i < |served.tasks| && i != job ==> served.tasks[i] == old(served.tasks)[i]
  {
    while !Handlers.Finished(served.tasks[job].handler)
      invariant Inv.Inv(served.View()) && |served.tasks| == |old(served.tasks)|
      invariant AskedToEnd(served.tasks[job].handler) && !Handlers.Unstarted(served.tasks[job].handler)
      invariant forall i :: 0 <= i < |served.tasks| && i != job ==> served.tasks[i] == old(served.tasks)[i]
      decreases StepsOut(served.tasks[job].handler)
    {
      ghost var s := served.View();
      var e := WayOut(served.tasks[job].handler);
      assert Inv.JobInv(s.streams, s.jobs[job].handler);
      OnTheWayOut(served.tasks[job].handler);
      Handlers.HandlerKeeps(served.tasks[job].handler, e);
      Inv.HandlerStepKeeps(s, job, e);
      served.TaskStep(job, e);
    }
  }

  /** The whole of stop(). It leaves the pump over, nothing ready and every task
      done, the library told once; and it raises exactly when the pump had
      failed before it was called. Called again, it does nothing. */
  method Stop(served: ServedProcedure) returns (raises: bool)
    requires Inv.Inv(served.View())
    modifies served
    ensures Inv.Inv(served.View()) && served.handle == None
    ensures old(served.handle).None? ==> !raises && served.View() == old(served.View())
    ensures old(served.handle).Some? ==>
              && Inv.StopOver(served.stop) && served.pump.Over? && served.ready == [] && Inv.AllFinished(served.tasks)
              && served.stops == 1 && served.withdrawn && (raises <==> old(served.failure))
  {
    ghost var s := served.View();
    Inv.StopKeeps(s, StopCalled);
    var h := served.StopTakesHandle();
    if h.None? {
      return false;
    }
    Withdraw(served);
    served.RunUntilIdle();
    raises := EndAllTasks(served);
  }

  /** The second half: the pump is over, the tasks are cancelled and end. */
  method EndAllTasks(served: ServedProcedure) returns (raises: bool)
    requires Inv.Inv(served.View()) && served.stop.AwaitingPump? && served.pump.Over?
    modifies served
    ensures Inv.Inv(served.View()) && Inv.StopOver(served.stop) && served.handle == old(served.handle)
    ensures raises == old(served.failure)
  {
    CancelTasks(served);
    EndTasks(served);
    StopEndsKeeps(served.View());
    raises := served.StopEnds();
  }

  method CancelTasks(served: ServedProcedure)
    requires Inv.Inv(served.View()) && served.stop.AwaitingPump? && served.pump.Over?
    modifies served`stop, served`tasks
    ensures Inv.Inv(served.View()) && served.stop.AwaitingTasks?
    ensures forall i :: 0 <= i < |served.tasks| ==> AskedToEnd(served.tasks[i].handler) && !Handlers.Unstarted(served.tasks[i].handler)
  {
    Inv.StopKeeps(served.View(), StopSeesPumpOver);
    WithdrawnAsked(served.tasks);
    served.CancelTheTasks();
    Inv.NoneUnstarted(served.tasks);
  }

  method Withdraw(served: ServedProcedure)
    requires Inv.Inv(served.View()) && served.stop.Withdrawing? && !served.withdrawn
    modifies served
    ensures Inv.Inv(served.View()) && served.handle == old(served.handle) && served.stop.AwaitingPump?
    ensures served.stops == old(served.stops) && served.withdrawn && served.failure == old(served.failure)
    ensures served.pumpAsked || served.pump.Over?
  {
    Inv.StopKeeps(served.View(), StopRuns);
    served.LibraryWithdraws();
    Inv.StopKeeps(served.View(), StopWithdrawn);
    served.CancelThePump();
  }

  method EndTasks(served: ServedProcedure)
    requires Inv.Inv(served.View())
    requires forall i :: 0 <= i < |served.tasks| ==> AskedToEnd(served.tasks[i].handler) && !Handlers.Unstarted(served.tasks[i].handler)
    modifies served`tasks, served`answers
    ensures Inv.Inv(served.View()) && Inv.AllFinished(served.tasks)
  {
    for i := 0 to |served.tasks|
      invariant |served.tasks| == |old(served.tasks)| && Inv.Inv(served.View())
      invariant forall k :: 0 <= k < i ==> Handlers.Finished(served.tasks[k].handler)
      invariant forall k :: i <= k < |served.tasks| ==> served.tasks[k] == old(served.tasks)[k]
    {
      EndTask(served, i);
    }
  }

  lemma StopEndsKeeps(s: Served)
    requires Inv.Inv(s) && s.stop.AwaitingTasks? && Inv.AllFinished(s.jobs)
    ensures StopStep(s, StopSeesTasksOver).Some? && Inv.Inv(StopStep(s, StopSeesTasksOver).value)
  {
    Inv.StopKeeps(s, StopSeesTasksOver);
  }
}
