/** A call's objects run to their end, whatever state they are in and whenever
    the task was cancelled: the thread first, then what the loop has left. */
module CallRuns {
  import opened Options
  import opened Blocking
  import opened BlockingInvariant
  import BlockingLaws
  import opened BlockingSystem
  import opened BlockingObjects
  import CallSpec
  import Machines

  /** One step took the call and its tokens from c and table to here. */
  ghost predicate Took<R>(table: Table, c: Call<R>, a: Action<R>, call: RunningCall<R>)
    reads call, call.cancels
  {
    && call.cancels.Valid()
    && !a.ECancel? && Next(c, a) == Some(call.View())
    && (a.WNew? ==> a.h !in table)
    && call.cancels.table == TableNext(table, c, a)
  }

  /** The thread's next step; o is how its native call ends. */
  method ThreadStep<R>(call: RunningCall<R>, o: Outcome<R>) returns (ghost a: Action<R>)
    requires CallInv(call.View()) && call.cancels.Valid() && Agrees(call.cancels.table, call.View()) && !call.worker.Exited?
    modifies call, call.cancels
    ensures Took(old(call.cancels.table), old(call.View()), a, call)
    ensures call.past.native == if old(call.worker).Inside? then Some(o) else old(call.past.native)
  {
    if StillToCheck(call.worker) {
      var step := TokenStep(call);
      a := step;
    } else {
      var step := NativeStep(call, o);
      a := step;
    }
  }

  method TokenStep<R>(call: RunningCall<R>) returns (ghost a: Action<R>)
    requires CallInv(call.View()) && call.cancels.Valid() && Agrees(call.cancels.table, call.View()) && StillToCheck(call.worker)
    modifies call, call.cancels
    ensures Took(old(call.cancels.table), old(call.View()), a, call) && call.past.native == old(call.past.native)
  {
    match call.worker {
      case New =>
        var h := call.NewToken();
        a := WNew(h);
      case Append =>
        call.AppendToken();
        a := WAppend;
      case Check =>
        call.CheckFlag();
        a := WCheck;
      case CancelOwn =>
        call.CancelOwnToken();
        a := WCancel;
    }
  }

  method NativeStep<R>(call: RunningCall<R>, o: Outcome<R>) returns (ghost a: Action<R>)
    requires CallInv(call.View()) && call.cancels.Valid() && Agrees(call.cancels.table, call.View())
    requires !StillToCheck(call.worker) && !call.worker.Exited?
    modifies call, call.cancels
    ensures Took(old(call.cancels.table), old(call.View()), a, call)
    ensures call.past.native == if old(call.worker).Inside? then Some(o) else old(call.past.native)
  {
    if call.worker.Enter? {
      call.EnterCall();
      a := WEnter;
    } else if call.worker.Inside? {
      call.CallEnds(o);
      a := WReturn(o);
    } else {
      var step := HandBackStep(call);
      a := step;
    }
  }

  method HandBackStep<R>(call: RunningCall<R>) returns (ghost a: Action<R>)
    requires CallInv(call.View()) && call.cancels.Valid() && Agrees(call.cancels.table, call.View())
    requires call.worker.Classify? || call.worker.Free? || call.worker.Post?
    modifies call, call.cancels
    ensures Took(old(call.cancels.table), old(call.View()), a, call) && call.past.native == old(call.past.native)
  {
    match call.worker {
      case Classify(_) =>
        call.ClassifyCancelled();
        a := WClassify;
      case Free(_) =>
        call.FreeOwnToken();
        a := WFree;
      case Post(_) =>
        call.PostOutcome();
        a := WPost;
    }
  }

  /** The next line of _end_the_call. */
  method EndStepOnce<R>(call: RunningCall<R>) returns (ghost a: Action<R>)
    requires CallInv(call.View()) && call.cancels.Valid() && Agrees(call.cancels.table, call.View()) && Ending(call.task)
    modifies call, call.cancels
    ensures Took(old(call.cancels.table), old(call.View()), a, call) && call.past.native == old(call.past.native)
  {
    match call.task {
      case EndCheck =>
        call.EndCheckDone();
        a := LEndCheck;
      case EndSet =>
        call.EndSetFlag();
        a := LEndSet;
      case EndRead =>
        call.EndReadToken();
        a := LEndRead;
      case EndCancel(_) =>
        call.EndCancelToken();
        a := LEndCancel;
      case EndRegister =>
        call.EndRegisterDiscard();
        a := LEndRegister;
    }
  }

  /** A callback that is scheduled. */
  method CallbackStep<R>(call: RunningCall<R>) returns (ghost a: Action<R>)
    requires CallInv(call.View()) && call.cancels.Valid() && call.worker.Exited? && !Ending(call.task)
    requires !BlockingLaws.Over(call.View())
    modifies call
    ensures Took(old(call.cancels.table), old(call.View()), a, call) && call.past.native == old(call.past.native)
  {
    if call.settle.Scheduled? || call.consume.Scheduled? || call.innerDone.Scheduled? {
      var step := FutureStep(call);
      a := step;
    } else {
      var step := ShieldStep(call);
      a := step;
    }
  }

  predicate IsCallback<R>(a: Action<R>) {
    !IsWorker(a) && !IsEnd(a) && !a.ECancel?
  }

  method FutureStep<R>(call: RunningCall<R>) returns (ghost a: Action<R>)
    requires LoopInv(call.View()) && call.cancels.Valid()
    requires call.settle.Scheduled? || call.consume.Scheduled? || call.innerDone.Scheduled?
    modifies call
    ensures IsCallback(a) && LoopStep(old(call.View()), a) == Some(call.View()) && call.past == old(call.past)
  {
    if call.settle.Scheduled? {
      call.RunSettle();
      a := LSettle;
    } else if call.consume.Scheduled? {
      call.RunConsume();
      a := LConsume;
    } else {
      call.RunInnerDone();
      a := LInnerDone;
    }
  }

  method ShieldStep<R>(call: RunningCall<R>) returns (ghost a: Action<R>)
    requires call.cancels.Valid()
    requires call.outerDone.Scheduled? || call.handOver.Scheduled? || (call.wake.Scheduled? && call.task.Waiting?)
    modifies call
    ensures IsCallback(a) && LoopStep(old(call.View()), a) == Some(call.View()) && call.past == old(call.past)
  {
    if call.outerDone.Scheduled? {
      call.RunOuterDone();
      a := LOuterDone;
    } else if call.handOver.Scheduled? {
      call.RunHandOver();
      a := LHandOver;
    } else {
      call.Wake();
      a := LWake;
    }
  }

  /** Whether the call's objects have anything left to run. */
  predicate NothingLeft<R>(call: RunningCall<R>): (b: bool)
    reads call
    ensures b == BlockingLaws.Over(call.View())
  {
    && call.worker.Exited? && call.settle.Ran? && call.consume.Ran? && call.outerDone.Ran? && call.wake.Ran?
    && (call.innerDone.Ran? || call.innerDone.Removed?)
    && (call.handOver.Absent? || call.handOver.Ran?)
    && !Ending(call.task)
  }

  /** What the call can do next, the thread before the loop. */
  method AnyStep<R>(call: RunningCall<R>, o: Outcome<R>) returns (ghost a: Action<R>)
    requires CallInv(call.View()) && call.cancels.Valid() && Agrees(call.cancels.table, call.View())
    requires !BlockingLaws.Over(call.View())
    modifies call, call.cancels
    ensures Took(old(call.cancels.table), old(call.View()), a, call)
    ensures call.past.native == if old(call.worker).Inside? then Some(o) else old(call.past.native)
  {
    if !call.worker.Exited? {
      var step := ThreadStep(call, o);
      a := step;
    } else if Ending(call.task) {
      var step := EndStepOnce(call);
      a := step;
    } else {
      var step := CallbackStep(call);
      a := step;
    }
  }

  /** Nothing in the table but the call's own token has moved. */
  ghost predicate OthersKept<R>(before: Table, table: Table, c: Call<R>) {
    forall h :: h in before && c.token != Some(h) ==> h in table && table[h] == before[h]
  }

  /** From any state its invariant allows, a call's objects reach their end in
      no more steps than its rank: every callback run, its token freed once and
      no other touched, and the await's outcome the one its native call's end
      and its cancellation call for. */
  method RunToEnd<R>(call: RunningCall<R>, o: Outcome<R>) returns (ghost schedule: seq<Action<R>>)
    requires CallInv(call.View()) && call.cancels.Valid() && Agrees(call.cancels.table, call.View())
    modifies call, call.cancels
    ensures Machines.Run(Next, old(call.View()), schedule) == Some(call.View())
    ensures BlockingLaws.Over(call.View()) && |schedule| <= BlockingLaws.Rank(old(call.View()))
    ensures call.past.native == if old(call.past.native).Some? then old(call.past.native) else Some(o)
    ensures call.past.asked == old(call.past.asked)
    ensures CallSpec.FateOf(call.View()) == CallSpec.FateAtEnd(call.kind, call.past.asked, call.past.native.value)
    ensures call.kind.Blocking? ==> call.token.Some? && call.token.value in call.cancels.table
                                    && call.cancels.table[call.token.value].frees == 1
    ensures OthersKept(old(call.cancels.table), call.cancels.table, call.View())
  {
    schedule := [];
    ghost var start, before := call.View(), call.cancels.table;
    while !NothingLeft(call)
      invariant call.cancels.Valid() && OnTheWay(start, before, schedule, call.View(), call.cancels.table, o)
      decreases BlockingLaws.Rank(call.View())
    {
      ghost var c, table := call.View(), call.cancels.table;
      var a := AnyStep(call, o);
      OneStep(start, before, schedule, table, c, a, call.View(), o);
      schedule := schedule + [a];
    }
    EndsWell(call.View());
  }

  /** A run of the call from start has come to c, and its tokens with it. */
  ghost predicate OnTheWay<R>(start: Call<R>, before: Table, schedule: seq<Action<R>>, c: Call<R>, table: Table, o: Outcome<R>) {
    && CallInv(c) && Agrees(table, c) && OthersKept(before, table, c)
    && Machines.Run(Next, start, schedule) == Some(c)
    && |schedule| + BlockingLaws.Rank(c) <= BlockingLaws.Rank(start)
    && c.past.asked == start.past.asked
    && c.past.native == if start.past.native.Some? then start.past.native else if c.past.native.None? then None else Some(o)
  }

  lemma OneStep<R>(start: Call<R>, before: Table, schedule: seq<Action<R>>, table: Table, c: Call<R>, a: Action<R>, d: Call<R>,
                   o: Outcome<R>)
    requires OnTheWay(start, before, schedule, c, table, o)
    requires !a.ECancel? && Next(c, a) == Some(d) && (a.WNew? ==> a.h !in table)
    requires d.past.native == if c.worker.Inside? then Some(o) else c.past.native
    ensures OnTheWay(start, before, schedule + [a], d, TableNext(table, c, a), o)
    ensures BlockingLaws.Rank(d) < BlockingLaws.Rank(c)
  {
    StepKeeps(c, a);
    BlockingLaws.StepRanks(c, a);
    TokensKept(before, table, c, a);
    CallSpec.KindKept(c, a);
    RunOneMore(start, schedule, c, a, d);
    if c.worker.Inside? { InsideNone(c); }
  }

  lemma InsideNone<R>(c: Call<R>)
    requires CallInv(c) && c.worker.Inside?
    ensures c.past.native.None?
  {
  }

  lemma TokensKept<R>(before: Table, table: Table, c: Call<R>, a: Action<R>)
    requires CallInv(c) && Next(c, a).Some? && Agrees(table, c) && OthersKept(before, table, c) && (a.WNew? ==> a.h !in table)
    ensures Agrees(TableNext(table, c, a), Next(c, a).value) && OthersKept(before, TableNext(table, c, a), Next(c, a).value)
  {
    OnlyOwnToken(table, c, a);
  }

  lemma RunOneMore<R>(start: Call<R>, schedule: seq<Action<R>>, c: Call<R>, a: Action<R>, d: Call<R>)
    requires Machines.Run(Next, start, schedule) == Some(c) && Next(c, a) == Some(d)
    ensures Machines.Run(Next, start, schedule + [a]) == Some(d)
  {
    Machines.RunAppend(Next, start, schedule, [a]);
    assert [a][1..] == [];
  }

  lemma EndsWell<R>(c: Call<R>)
    requires CallInv(c) && BlockingLaws.Over(c)
    ensures c.past.native.Some? && CallSpec.FateOf(c) == CallSpec.FateAtEnd(c.kind, c.past.asked, c.past.native.value)
    ensures c.kind.Blocking? ==> c.token.Some? && c.past.frees == 1
  {
    BlockingLaws.OutcomeOf(c);
    BlockingLaws.CancelledIffAsked(c);
    CallSpec.FateOfOver(c);
  }
}
