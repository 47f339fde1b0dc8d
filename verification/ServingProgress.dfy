/** What can always still happen to a served procedure: its wait takes every step
    a blocking call can, and stop() ends after a few steps. */
module ServingProgress {
  import opened Options
  import Blocking
  import CallSpec
  import opened Handlers
  import opened Serving
  import opened ServingInvariant
  import opened ServingLaws
  import Machines

  const DISCARDING := Blocking.Blocking(true)

  // ---- The pump's wait ---------------------------------------------------

  /** The loop works off its queue until the pump's turn, and the wait is as it
      was. */
  ghost predicate ComesToTurn(s: Served, schedule: seq<Action>, t: Served) {
    && Machines.Run(Next, s, schedule) == Some(t) && Inv(t) && t.ready == [PumpTurn]
    && t.wait == s.wait && t.pump == s.pump && t.pumpAsked == s.pumpAsked
  }

  lemma {:induction false} QueueDrains(s: Served)
    requires Inv(s) && PumpTurn in s.ready
    ensures exists schedule, t :: ComesToTurn(s, schedule, t)
    decreases |s.ready|
  {
    if s.ready == [PumpTurn] {
      assert ComesToTurn(s, [], s);
    } else {
      FirstStepRuns(s);
      LoopKeeps(s);
      var u := LoopStep(s).value;
      QueueDrains(u);
      var schedule, t :| ComesToTurn(u, schedule, t);
      OneBefore(s, LoopTurn, u, schedule, t);
    }
  }

  lemma OneBefore(s: Served, a: Action, u: Served, schedule: seq<Action>, t: Served)
    requires Next(s, a) == Some(u) && ComesToTurn(u, schedule, t)
    requires u.wait == s.wait && u.pump == s.pump && u.pumpAsked == s.pumpAsked
    ensures ComesToTurn(s, [a] + schedule, t)
  {
    assert ([a] + schedule)[1..] == schedule;
  }

  lemma FirstStepRuns(s: Served)
    requires Inv(s) && PumpTurn in s.ready && s.ready != [PumpTurn]
    ensures LoopStep(s).Some? && LoopStep(s).value.ready == s.ready[1..] && PumpTurn in s.ready[1..]
    ensures var u := LoopStep(s).value; u.wait == s.wait && u.pump == s.pump && u.pumpAsked == s.pumpAsked
  {
    QueueTail(s.ready, s.jobs);
    assert s.ready[0] in s.ready;
    FreshStarts(s.streams);
  }

  /** The wait v is what u has, or was delivered and followed by the next one. */
  predicate Arrives(u: Served, v: CallSpec.Spec<Took>) {
    u.wait == v || (v.fate.Delivered? && u.wait == NewWait())
  }

  ghost predicate Takes(s: Served, schedule: seq<Action>, t: Served, a: Action, v: CallSpec.Spec<Took>) {
    && Machines.Run(Next, s, schedule) == Some(t) && t.wait == s.wait
    && Next(t, a).Some? && Arrives(Next(t, a).value, v)
  }

  /** Every step a blocking call with a discard can take in the pump's place is
      open to its wait, after turns of the loop that leave the wait alone: its
      native call ends as it may, with a new item or none; its outcome is
      delivered or raised unless the pump was cancelled; it is cancelled; and
      what nobody awaits is released or dropped. */
  lemma EveryCallStep(s: Served, v: CallSpec.Spec<Took>)
    requires Reachable(s) && Waits(s) && CallSpec.SpecStep(DISCARDING, true, s.wait, v)
    requires CallSpec.Delivers(s.wait, v) || CallSpec.Fails(DISCARDING, s.wait, v) ==> !s.pumpAsked
    requires CallSpec.NativeEnds(s.wait, v) && v.native.value.Result? && v.native.value.r.Item? ==> v.native.value.r.h !in s.items.taken
    ensures exists schedule, t, a :: Takes(s, schedule, t, a, v)
  {
    ReachableInv(s);
    if CallSpec.NativeEnds(s.wait, v) {
      NativeOpen(s, v);
    } else if CallSpec.Delivers(s.wait, v) || CallSpec.Fails(DISCARDING, s.wait, v) {
      OutcomeOpen(s, v);
    } else if CallSpec.Cancels(DISCARDING, true, s.wait, v) {
      CancelOpen(s, v);
    } else {
      DisposalOpen(s, v);
    }
  }

  lemma NativeOpen(s: Served, v: CallSpec.Spec<Took>)
    requires Waits(s) && CallSpec.NativeEnds(s.wait, v)
    requires v.native.value.Result? && v.native.value.r.Item? ==> v.native.value.r.h !in s.items.taken
    ensures exists schedule, t, a :: Takes(s, schedule, t, a, v)
  {
    var a := Action.NativeEnds(v.native.value);
    NativeMay(s, v.native.value);
    assert Takes(s, [], s, a, v);
  }

  lemma NativeMay(s: Served, o: Blocking.Outcome<Took>)
    requires Waits(s) && s.wait.native.None? && (o.Result? && o.r.Item? ==> o.r.h !in s.items.taken)
    ensures NativeStep(s, o).Some? && NativeStep(s, o).value.wait == s.wait.(native := Some(o))
  {
  }

  lemma DisposalOpen(s: Served, v: CallSpec.Spec<Took>)
    requires CallSpec.Releases(DISCARDING, s.wait, v) || CallSpec.Drops(DISCARDING, s.wait, v)
    ensures exists schedule, t, a :: Takes(s, schedule, t, a, v)
  {
    assert DiscardStep(s).Some? && DiscardStep(s).value.wait == v;
    assert Takes(s, [], s, DiscardRuns, v);
  }

  lemma CancelOpen(s: Served, v: CallSpec.Spec<Took>)
    requires Inv(s) && Waits(s) && CallSpec.Cancels(DISCARDING, true, s.wait, v)
    ensures exists schedule, t, a :: Takes(s, schedule, t, a, v)
  {
    var u := CancelPump(s);
    CancelPumpKeeps(s);
    QueueDrains(u);
    var schedule, t :| ComesToTurn(u, schedule, t);
    assert t.ready[1..] == [];
    assert LoopStep(t) == Some(PumpCancelledOut(t.(ready := [])));
    assert ([PumpCancelled] + schedule)[1..] == schedule;
    assert Takes(s, [PumpCancelled] + schedule, t, LoopTurn, v);
  }

  lemma OutcomeOpen(s: Served, v: CallSpec.Spec<Took>)
    requires Inv(s) && Waits(s) && !s.pumpAsked
    requires CallSpec.Delivers(s.wait, v) || CallSpec.Fails(DISCARDING, s.wait, v)
    ensures exists schedule, t, a :: Takes(s, schedule, t, a, v)
  {
    if PumpTurn in s.ready {
      QueueDrains(s);
      var schedule, t :| ComesToTurn(s, schedule, t);
      TurnTakes(t, v);
      assert Takes(s, schedule, t, LoopTurn, v);
    } else {
      var u := s.(ready := s.ready + [PumpTurn]);
      LandKeeps(s);
      assert u.ready[|s.ready|] == PumpTurn;
      QueueDrains(u);
      var schedule, t :| ComesToTurn(u, schedule, t);
      TurnTakes(t, v);
      assert ([WaitLands] + schedule)[1..] == schedule;
      assert Takes(s, [WaitLands] + schedule, t, LoopTurn, v);
    }
  }

  lemma TurnTakes(t: Served, v: CallSpec.Spec<Took>)
    requires t.pump.Pumping? && !t.pumpAsked && t.ready == [PumpTurn]
    requires CallSpec.Delivers(t.wait, v) || CallSpec.Fails(DISCARDING, t.wait, v)
    ensures LoopStep(t).Some? && Arrives(LoopStep(t).value, v)
  {
    var rest := t.(ready := []);
    assert t.ready[1..] == [];
    match t.wait.native.value
    case Raises(e) => assert LoopStep(t) == Some(PumpRaised(rest, e));
    case Result(took) => assert LoopStep(t) == Some(Take(rest.(wait := v), took));
  }

  // ---- stop() ------------------------------------------------------------

  predicate StopGathers(s: Served) {
    s.stop.AwaitingPump? || s.stop.AwaitingTasks? || StopOver(s.stop)
  }

  /** Not stop()'s steps, nor any it waits for but its handlers'. */
  predicate IsOthers(a: Action) {
    a.JobStep? || a.Deadline? || a.PumpCancelled? || a.StopCalled?
  }

  function WaitRank(s: Served): nat {
    if !Waits(s) then 0 else if s.wait.native.None? then 2 else 1
  }

  /** A bound on the steps left until stop() is over, its handlers' apart. */
  function StopRank(s: Served): nat {
    (if s.stop.AwaitingPump? then 2 else if s.stop.AwaitingTasks? then 1 else 0) + |s.ready| + WaitRank(s)
  }

  const MAX_STOP_STEPS := 6

  lemma LoopRanks(s: Served)
    requires Inv(s) && StopGathers(s) && LoopStep(s).Some?
    ensures LoopStep(s).value.stop == s.stop && StopRank(LoopStep(s).value) < StopRank(s)
  {
    if s.ready[0].PumpTurn? {
      PumpTurnAlone(s.ready, s.jobs);
    }
  }

  lemma StopStepRanks(s: Served, a: Action)
    requires Inv(s) && StopGathers(s) && IsStop(a) && StopStep(s, a).Some?
    ensures StopGathers(StopStep(s, a).value)
    ensures if a.StopCalled? then StopStep(s, a).value == s else StopRank(StopStep(s, a).value) < StopRank(s)
  {
  }

  lemma DiscardRanks(s: Served)
    requires DiscardStep(s).Some?
    ensures DiscardStep(s).value.stop == s.stop && StopRank(DiscardStep(s).value) < StopRank(s)
  {
    DiscardLedger(s);
  }

  /** A pump that was told to end is not told again. */
  lemma CancelRanks(s: Served)
    requires PumpInv(s) && StopInv(s) && StopGathers(s)
    ensures CancelPump(s) == s
  {
  }

  /** Once the pump was told to end, every step but the handlers' and other
      people's brings stop() nearer its end. */
  lemma StopRanks(s: Served, a: Action)
    requires Inv(s) && StopGathers(s) && Next(s, a).Some?
    ensures StopGathers(Next(s, a).value)
    ensures if IsOthers(a) then StopRank(Next(s, a).value) == StopRank(s) else StopRank(Next(s, a).value) < StopRank(s)
  {
    match a
    case LoopTurn => LoopRanks(s);
    case NativeEnds(o) => NativeFrame(s, o);
    case JobStep(job, e) => HandlerLedger(s, job, e);
    case DiscardRuns => DiscardRanks(s);
    case WaitLands =>
    case Deadline(_) =>
    case PumpCancelled => CancelRanks(s);
    case _ => StopStepRanks(s, a);
  }

  function StopSteps(schedule: seq<Action>): nat {
    if |schedule| == 0 then 0 else (if IsOthers(schedule[0]) then 0 else 1) + StopSteps(schedule[1..])
  }

  lemma {:induction false} FewStopSteps(s: Served, schedule: seq<Action>)
    requires Inv(s) && StopGathers(s) && Machines.Run(Next, s, schedule).Some?
    ensures StopSteps(schedule) + StopRank(Machines.Run(Next, s, schedule).value) <= StopRank(s)
    decreases |schedule|
  {
    if |schedule| > 0 {
      StepKeeps(s, schedule[0]);
      StopRanks(s, schedule[0]);
      FewStopSteps(Next(s, schedule[0]).value, schedule[1..]);
    }
  }

  /** At most a dispatched task and the pump are ever ready at once. */
  ghost predicate QueueShort(s: Served) {
    |s.ready| <= if PumpTurn in s.ready then 2 else 1
  }

  ghost predicate InvAndShort(s: Served) {
    Inv(s) && QueueShort(s)
  }

  lemma LoopShort(s: Served)
    requires Inv(s) && QueueShort(s) && LoopStep(s).Some?
    ensures QueueShort(LoopStep(s).value)
  {
    if s.ready[0].PumpTurn? {
      PumpTurnAlone(s.ready, s.jobs);
    } else {
      QueueTail(s.ready, s.jobs);
    }
  }

  lemma ShortKeeps(s: Served, a: Action)
    requires Inv(s) && QueueShort(s) && Next(s, a).Some?
    ensures QueueShort(Next(s, a).value)
  {
    match a
    case LoopTurn => LoopShort(s);
    case NativeEnds(o) => NativeFrame(s, o);
    case JobStep(job, e) => HandlerLedger(s, job, e);
    case DiscardRuns => DiscardLedger(s);
    case WaitLands => Queued(s.ready);
    case Deadline(_) =>
    case PumpCancelled => Queued(s.ready);
    case StopWithdrawn => Queued(s.ready);
    case _ => StopReady(s, a);
  }

  lemma Queued(ready: seq<Entry>)
    ensures PumpTurn in ready + [PumpTurn]
  {
    assert (ready + [PumpTurn])[|ready|] == PumpTurn;
  }

  lemma StopReady(s: Served, a: Action)
    requires IsStop(a) && !a.StopWithdrawn? && StopStep(s, a).Some?
    ensures StopStep(s, a).value.ready == s.ready
  {
  }

  lemma ReachableShort(s: Served)
    requires Reachable(s)
    ensures Inv(s) && QueueShort(s)
  {
    var streams: bool, schedule: seq<Action> :| Machines.Run(Next, Opened(streams), schedule) == Some(s);
    OpenedInv(streams);
    forall t: Served, a: Action | InvAndShort(t) && Next(t, a).Some? ensures InvAndShort(Next(t, a).value) {
      StepKeeps(t, a);
      ShortKeeps(t, a);
    }
    Machines.RunKeeps(Next, InvAndShort, Opened(streams), schedule);
  }

  /** stop() ends. From when its withdrawal has come back, in every run, at most
      six steps are taken by it, the loop, the pump's last native call and its
      release, whatever handlers, deadlines and cancellations do in between; and
      as long as it is not over, either such a step can be taken or one of its
      handlers has not ended. */
  lemma StopEnds(s: Served, schedule: seq<Action>)
    requires Reachable(s) && StopGathers(s) && Machines.Run(Next, s, schedule).Some?
    ensures StopSteps(schedule) <= MAX_STOP_STEPS
    ensures var t := Machines.Run(Next, s, schedule).value;
            StopOver(t.stop) || !AllFinished(t.jobs) || exists a :: !IsOthers(a) && Next(t, a).Some?
  {
    ReachableShort(s);
    FewStopSteps(s, schedule);
    forall t: Served, a: Action | Gathering(t) && Next(t, a).Some? ensures Gathering(Next(t, a).value) {
      StepKeeps(t, a);
      StopRanks(t, a);
    }
    Machines.RunKeeps(Next, Gathering, s, schedule);
    NotStuck(Machines.Run(Next, s, schedule).value);
  }

  ghost predicate Gathering(s: Served) {
    Inv(s) && StopGathers(s)
  }

  lemma NotStuck(t: Served)
    requires Inv(t) && StopGathers(t)
    ensures StopOver(t.stop) || !AllFinished(t.jobs) || exists a :: !IsOthers(a) && Next(t, a).Some?
  {
    if t.stop.AwaitingPump? {
      if t.pump.Over? {
        assert StopStep(t, StopSeesPumpOver).Some?;
        assert Next(t, StopSeesPumpOver).Some?;
      } else {
        QueueRuns(t);
        assert Next(t, LoopTurn).Some?;
      }
    } else if t.stop.AwaitingTasks? && AllFinished(t.jobs) {
      assert Next(t, StopSeesTasksOver).Some?;
    }
  }
}
