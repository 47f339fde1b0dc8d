/** The promises of run_blocking and run_native, over every reachable state of
    any number of concurrent calls: a result ends up in exactly one place, a
    cancellation is never lost nor mistaken for the library's own, tokens are
    each call's own, and every call winds down. */
module BlockingLaws {
  import opened Options
  import opened Blocking
  import opened BlockingInvariant
  import opened BlockingSystem
  import Machines

  /** Nothing of the call is left to run, on its thread or on the loop. */
  predicate Over<R>(c: Call<R>) {
    && c.worker.Exited? && c.settle.Ran? && c.consume.Ran? && c.outerDone.Ran? && c.wake.Ran?
    && (c.innerDone.Ran? || c.innerDone.Removed?)
    && (c.handOver.Absent? || c.handOver.Ran?)
    && !Ending(c.task)
  }

  // ---- Results -----------------------------------------------------------

  /** How many places the call's result has gone to. */
  function Receivers<R>(c: Call<R>): nat {
    (if c.task.Returned? then 1 else 0) + |c.discarded|
  }

  /** With a discard, a native result goes to exactly one place: the awaiting
      caller or one discard. At no point has it gone to two, no other value
      ever goes anywhere, and an error goes to no discard. */
  lemma ExactlyOnce<R(!new)>(s: Sys<R>, id: nat)
    requires Reachable(s) && id in s.calls
    ensures var c := s.calls[id];
            && Receivers(c) <= 1
            && (c.task.Returned? ==> c.past.native == Some(Result(c.task.r)))
            && (forall r <- c.discarded :: c.past.native == Some(Result(r)))
            && (Over(c) && c.kind == Blocking(true) ==> c.past.native.Some? && Receivers(c) == if c.past.native.value.Result? then 1 else 0)
  {
    ReachableInv(s);
    ResultPlaces(s.calls[id]);
  }

  lemma ResultPlaces<R>(c: Call<R>)
    requires CallInv(c)
    ensures Receivers(c) <= 1
    ensures c.task.Returned? ==> c.past.native == Some(Result(c.task.r))
    ensures forall r <- c.discarded :: c.past.native == Some(Result(r))
    ensures Over(c) ==> c.past.native.Some?
    ensures Over(c) ==> Receivers(c) == if c.past.native.value.Result? && (c.task.CancelledOut? ==> c.kind == Blocking(true)) then 1 else 0
  {
    OutcomeOf(c);
  }

  /** The outcome the loop sees is a result exactly when the native call's is,
      and the same one. */
  lemma OutcomeOf<R>(c: Call<R>)
    requires CallInv(c)
    ensures c.inner.Done? ==> c.past.native.Some? && (c.inner.o.Result? <==> c.past.native.value.Result?)
    ensures c.inner.Done? && c.inner.o.Result? ==> c.past.native == Some(c.inner.o)
    ensures !c.inner.Cancelled?
  {
  }

  /** A handle a native call made is lost exactly when the task was cancelled
      and the call had no discard: never for connect, open_stream and
      subscribe_group, always for a cancelled subscribe, serve or serve_stream
      that succeeds. */
  lemma LostExactlyWhen<R(!new)>(s: Sys<R>, id: nat)
    requires Reachable(s) && id in s.calls && Over(s.calls[id])
    ensures var c := s.calls[id];
            c.past.native.Some? && (c.past.native.value.Result? && Receivers(c) == 0 <==>
            c.past.native.value.Result? && c.past.asked && c.kind != Blocking(true))
  {
    ReachableInv(s);
    ResultPlaces(s.calls[id]);
    CancelledIffAsked(s.calls[id]);
  }

  /** A run_native whose task is cancelled while its native call runs: the
      states it goes through before that call returns. */
  function Entered<R>(): Call<R> {
    Started(Native).(worker := Inside)
  }

  function Asked<R>(): Call<R> {
    Entered().(outer := Cancelled, outerDone := Scheduled, wake := Scheduled, past := Past(true, None, 0, false, 0))
  }

  function Left<R>(): Call<R> {
    Asked().(wake := Ran, task := CancelledOut)
  }

  function Abandoned<R>(): Call<R> {
    Left().(outerDone := Ran, innerDone := Removed)
  }

  /** And after it did. */
  function Answered<R>(r: R): Call<R> {
    Abandoned().(worker := Post(Result(r)), past := Past(true, Some(Result(r)), 0, false, 0))
  }

  function Posted<R>(r: R): Call<R> {
    Answered(r).(worker := Exited, posted := Some(Result(r)), settle := Scheduled)
  }

  function Settled<R>(r: R): Call<R> {
    Posted(r).(inner := Done(Result(r)), consume := Scheduled, settle := Ran)
  }

  function LostResult<R>(r: R): Call<R> {
    Settled(r).(consume := Ran)
  }

  lemma AskedRun<R(!new)>()
    ensures Machines.Run(Next, Started(Native), [WEnter, ECancel]) == Some(Asked<R>())
  {
    Machines.RunTwo(Next, Started<R>(Native), WEnter, Entered(), ECancel, Asked());
  }

  lemma LeftRun<R(!new)>()
    ensures Machines.Run(Next, Asked(), [LWake, LOuterDone]) == Some(Abandoned<R>())
  {
    Machines.RunTwo(Next, Asked<R>(), LWake, Left(), LOuterDone, Abandoned());
  }

  lemma AbandonedRun<R(!new)>()
    ensures Machines.Run(Next, Started(Native), [WEnter, ECancel] + [LWake, LOuterDone]) == Some(Abandoned<R>())
  {
    AskedRun<R>();
    LeftRun<R>();
    Machines.RunAppend(Next, Started<R>(Native), [WEnter, ECancel], [LWake, LOuterDone]);
  }

  lemma AnsweredRun<R(!new)>(r: R)
    ensures Machines.Run(Next, Abandoned(), [WReturn(Result(r)), WPost]) == Some(Posted(r))
  {
    Machines.RunTwo(Next, Abandoned(), WReturn(Result(r)), Answered(r), WPost, Posted(r));
  }

  lemma LostRun<R(!new)>(r: R)
    ensures Machines.Run(Next, Posted(r), [LSettle, LConsume]) == Some(LostResult(r))
  {
    Machines.RunTwo(Next, Posted(r), LSettle, Settled(r), LConsume, LostResult(r));
  }

  lemma AbandonedEnds<R(!new)>(r: R)
    ensures Machines.Run(Next, Abandoned(), [WReturn(Result(r)), WPost] + [LSettle, LConsume]) == Some(LostResult(r))
  {
    AnsweredRun(r);
    LostRun(r);
    Machines.RunAppend(Next, Abandoned(), [WReturn(Result(r)), WPost], [LSettle, LConsume]);
  }

  function LosingSchedule<R>(r: R): seq<Action<R>> {
    [WEnter, ECancel] + [LWake, LOuterDone] + ([WReturn(Result(r)), WPost] + [LSettle, LConsume])
  }

  /** And it does happen: a handle made by a native call without a discard, its
      task cancelled meanwhile, goes to nobody. */
  lemma LostWithoutDiscard<R(!new)>(r: R)
    ensures var end := Machines.Run(Next, Started(Native), LosingSchedule(r));
            end.Some? && Over(end.value) && end.value.past.native == Some(Result(r)) && Receivers(end.value) == 0
  {
    AbandonedRun<R>();
    AbandonedEnds(r);
    Machines.RunAppend(Next, Started<R>(Native), [WEnter, ECancel] + [LWake, LOuterDone],
                       [WReturn(Result(r)), WPost] + [LSettle, LConsume]);
  }

  // ---- Cancellation ------------------------------------------------------

  lemma CancelledIffAsked<R>(c: Call<R>)
    requires CallInv(c)
    ensures c.task.CancelledOut? ==> c.past.asked
    ensures c.past.asked ==> !c.task.Returned? && !c.task.Raised?
    ensures Over(c) ==> (c.task.CancelledOut? <==> c.past.asked) && !c.task.Waiting?
  {
  }

  /** The await raises CancelledError exactly when the task was cancelled while
      it waited, however often and however late. */
  lemma CancelledErrorIffCancelled<R(!new)>(s: Sys<R>, id: nat)
    requires Reachable(s) && id in s.calls
    ensures var c := s.calls[id];
            && (c.task.CancelledOut? ==> c.past.asked)
            && (c.past.asked ==> !c.task.Returned? && !c.task.Raised?)
            && (Over(c) ==> (c.task.CancelledOut? <==> c.past.asked))
  {
    ReachableInv(s);
    CancelledIffAsked(s.calls[id]);
  }

  /** No lost cancellation: once _end_the_call is past its token check, a native
      call that is about to start or running has its token cancelled, and is
      cancelled once or twice, never zero times. */
  lemma NoLostCancellation<R(!new)>(s: Sys<R>, id: nat)
    requires Reachable(s) && id in s.calls
    requires var c := s.calls[id]; c.kind.Blocking? && (c.task.EndRegister? || c.task.CancelledOut?)
    ensures var c := s.calls[id];
            && (c.worker.Enter? || c.worker.Inside? ==> c.token.Some? && c.token.value in s.table && s.table[c.token.value].cancelled)
            && (c.inner.Pending? && !StillToCheck(c.worker) ==> 1 <= c.past.cancels <= 2)
            && (c.inner.Pending? ==> c.flag)
  {
    ReachableInv(s);
    var c := s.calls[id];
    assert c.inner.Pending? || !(c.worker.Enter? || c.worker.Inside?);
    if c.token.Some? { assert Owns(s, id, c.token.value); }
  }

  /** The library's own "cancelled" never passes for the task's: it comes out of
      run_blocking as a MaculaError, and the handler that would turn one into a
      CancelledError is never reached. */
  lemma NativeCancelledStaysInside<R(!new)>(s: Sys<R>, id: nat)
    requires Reachable(s) && id in s.calls && s.calls[id].kind.Blocking?
    ensures var c := s.calls[id];
            && (c.task.Raised? ==> !c.task.e.NativeCancelled?)
            && (c.task.Waiting? && c.outer.Done? && c.outer.o.Raises? ==> !c.outer.o.e.NativeCancelled?)
            && (Over(c) && !c.past.asked && c.past.native.Some? && c.past.native.value.Raises? ==>
                  c.task == Raised(if c.past.native.value.e.NativeCancelled? then MaculaError(c.past.native.value.e.message)
                                   else c.past.native.value.e))
  {
    ReachableInv(s);
    CancelledIffAsked(s.calls[id]);
    OutcomeOf(s.calls[id]);
  }

  // ---- Tokens ------------------------------------------------------------

  /** Every token belongs to one call; it is freed at most once, never while its
      native call may still run, and by the end exactly once. */
  lemma TokenLife<R(!new)>(s: Sys<R>, h: nat)
    requires Reachable(s) && h in s.table
    ensures exists id :: Owns(s, id, h)
                         && (forall other :: Owns(s, other, h) ==> other == id)
                         && s.table[h].frees <= 1
                         && (s.table[h].frees > 0 ==> s.calls[id].past.native.Some?)
                         && (Over(s.calls[id]) ==> s.table[h].frees == 1)
                         && (s.table[h].cancelled ==> s.calls[id].past.asked)
  {
    ReachableInv(s);
    var id :| Owns(s, id, h);
    assert CallInv(s.calls[id]);
  }

  /** No step of a call moves another call's token. */
  lemma OthersTokens<R(!new)>(s: Sys<R>, id: nat, a: Action<R>, other: nat, h: nat)
    requires Reachable(s) && SysNext(s, Act(id, a)).Some? && other != id && Owns(s, other, h)
    ensures var t := SysNext(s, Act(id, a)).value; h in s.table && h in t.table && t.table[h] == s.table[h]
  {
    ReachableInv(s);
    OneOwner(s, id, other, h);
    OwnsAgrees(s, id);
    OnlyOwnToken(s.table, s.calls[id], a);
    assert h in s.table by { OwnsAgrees(s, other); }
  }

  lemma OwnsAgrees<R>(s: Sys<R>, id: nat)
    requires TokensAgree(s) && id in s.calls
    ensures Agrees(s.table, s.calls[id])
  {
    if s.calls[id].token.Some? { assert Owns(s, id, s.calls[id].token.value); }
  }

  lemma OneOwner<R>(s: Sys<R>, id: nat, other: nat, h: nat)
    requires TokensAgree(s) && Owns(s, other, h) && id in s.calls && id != other
    ensures s.calls[id].token != Some(h)
  {
    assert Owns(s, id, h) ==> id == other;
  }

  // ---- Winding down ------------------------------------------------------

  function WorkerRank<R>(w: Worker<R>): nat {
    match w
    case New => 9
    case Append => 8
    case Check => 7
    case CancelOwn => 6
    case Enter => 5
    case Inside => 4
    case Classify(_) => 3
    case Free(_) => 2
    case Post(_) => 1
    case Exited => 0
  }

  function TaskRank<R>(t: Task<R>): nat {
    match t
    case Waiting => 12
    case EndCheck => 10
    case EndSet => 8
    case EndRead => 6
    case EndCancel(_) => 4
    case EndRegister => 2
    case _ => 0
  }

  function CallbackRank(k: Callback): nat {
    if k.Armed? || k.Scheduled? then 1 else 0
  }

  function FutureRank(settle: Callback, consume: Callback, innerDone: Callback, handOver: Callback): nat {
    (if settle.Ran? then 0 else 1) + CallbackRank(consume) + CallbackRank(innerDone) + CallbackRank(handOver)
  }

  function ShieldRank(outerDone: Callback, wake: Callback): nat {
    CallbackRank(outerDone) + CallbackRank(wake)
  }

  /** A bound on the steps a call has left. */
  function Rank<R>(c: Call<R>): nat {
    WorkerRank(c.worker) + TaskRank(c.task) + FutureRank(c.settle, c.consume, c.innerDone, c.handOver)
    + ShieldRank(c.outerDone, c.wake)
  }

  const MAX_STEPS := 26

  lemma WorkerRanks<R>(c: Call<R>, a: Action<R>)
    requires IsWorker(a) && WorkerStep(c, a).Some? && (a.WPost? ==> !c.settle.Ran?)
    ensures Rank(WorkerStep(c, a).value) < Rank(c)
  {
  }

  lemma EndRanks<R>(c: Call<R>, a: Action<R>)
    requires IsEnd(a) && EndStep(c, a).Some?
    ensures Rank(EndStep(c, a).value) < Rank(c)
  {
  }

  /** Every step of its own lowers a call's rank; cancelling its task does not
      raise it. */
  lemma StepRanks<R>(c: Call<R>, a: Action<R>)
    requires CallInv(c) && Next(c, a).Some?
    ensures if a.ECancel? then Rank(Next(c, a).value) == Rank(c) else Rank(Next(c, a).value) < Rank(c)
  {
    if IsWorker(a) { WorkerRanks(c, a); }
    else if IsEnd(a) { EndRanks(c, a); }
    else if a.LSettle? { SettleRanks(c); }
    else if a.LInnerDone? { ShieldRanks(c); }
    else if a.LWake? { WakeRanks(c); }
    else if !a.ECancel? { CallbackRanks(c, a); }
  }

  /** Settling the future schedules callbacks that were armed. */
  lemma SettleRanks<R>(c: Call<R>)
    requires LoopStep(c, LSettle).Some?
    ensures Rank(LoopStep(c, LSettle).value) < Rank(c)
  {
    var d := LoopStep(c, LSettle).value;
    FutureScheduled(c.consume, c.innerDone, c.handOver);
    SameElsewhere(c, d);
  }

  /** Of two calls that differ in what is left on the future and the shield, the
      one with less left ranks lower. */
  lemma SameElsewhere<R>(c: Call<R>, d: Call<R>)
    requires d.worker == c.worker && d.task == c.task
    requires FutureRank(d.settle, d.consume, d.innerDone, d.handOver) < FutureRank(c.settle, c.consume, c.innerDone, c.handOver)
    requires ShieldRank(d.outerDone, d.wake) == ShieldRank(c.outerDone, c.wake)
    ensures Rank(d) < Rank(c)
  {
  }

  lemma CallbackRanks<R>(c: Call<R>, a: Action<R>)
    requires (a.LConsume? || a.LOuterDone? || a.LHandOver?) && LoopStep(c, a).Some?
    ensures Rank(LoopStep(c, a).value) < Rank(c)
  {
  }

  lemma ShieldRanks<R>(c: Call<R>)
    requires LoopStep(c, LInnerDone).Some?
    ensures Rank(LoopStep(c, LInnerDone).value) < Rank(c)
  {
    ShieldFrame(c);
    var d := LoopStep(c, LInnerDone).value;
    InnerDoneRan(c.settle, c.consume, c.handOver);
    ShieldScheduled(c.outerDone, c.wake);
    SameElsewhere(c, d);
  }

  lemma ShieldFrame<R>(c: Call<R>)
    requires LoopStep(c, LInnerDone).Some?
    ensures var d := LoopStep(c, LInnerDone).value;
            && d.worker == c.worker && d.task == c.task && d.settle == c.settle && d.consume == c.consume
            && d.handOver == c.handOver && d.innerDone == Ran && c.innerDone == Scheduled
            && ((d.outerDone == c.outerDone && d.wake == c.wake)
                || (d.outerDone == Schedule(c.outerDone) && d.wake == Schedule(c.wake)))
  {
  }

  lemma InnerDoneRan(settle: Callback, consume: Callback, handOver: Callback)
    ensures FutureRank(settle, consume, Ran, handOver) < FutureRank(settle, consume, Scheduled, handOver)
  {
  }

  lemma WakeRanks<R>(c: Call<R>)
    requires LoopStep(c, LWake).Some?
    ensures Rank(LoopStep(c, LWake).value) < Rank(c)
  {
    assert TaskRank(Woken(c)) <= 10;
  }

  /** Being scheduled leaves a callback its one run. */
  lemma ShieldScheduled(outerDone: Callback, wake: Callback)
    ensures ShieldRank(Schedule(outerDone), Schedule(wake)) == ShieldRank(outerDone, wake)
  {
  }

  lemma FutureScheduled(consume: Callback, innerDone: Callback, handOver: Callback)
    ensures FutureRank(Ran, Schedule(consume), Schedule(innerDone), Schedule(handOver)) < FutureRank(Scheduled, consume, innerDone, handOver)
    ensures FutureRank(Ran, consume, innerDone, handOver) < FutureRank(Scheduled, consume, innerDone, handOver)
  {
  }

  /** How many of a call's own steps a schedule takes: all but the
      cancellations of its task. */
  function OwnSteps<R>(schedule: seq<Action<R>>): nat {
    if |schedule| == 0 then 0 else (if schedule[0].ECancel? then 0 else 1) + OwnSteps(schedule[1..])
  }

  /** No call takes more than its rank of its own steps, however often its task
      is cancelled in between. */
  lemma {:induction false} FewSteps<R(!new)>(c: Call<R>, schedule: seq<Action<R>>)
    requires CallInv(c) && Machines.Run(Next, c, schedule).Some?
    ensures OwnSteps(schedule) + Rank(Machines.Run(Next, c, schedule).value) <= Rank(c)
    decreases |schedule|
  {
    if |schedule| > 0 {
      StepKeeps(c, schedule[0]);
      StepRanks(c, schedule[0]);
      FewSteps(Next(c, schedule[0]).value, schedule[1..]);
    }
  }

  lemma FewStepsInAll<R(!new)>(kind: Kind, schedule: seq<Action<R>>)
    requires Machines.Run(Next, Started(kind), schedule).Some?
    ensures OwnSteps(schedule) <= MAX_STEPS
  {
    StartedInv<R>(kind);
    FewSteps(Started(kind), schedule);
  }

  /** A call that has spent its rank is over, and one that is over has. */
  lemma SpentIsOver<R>(c: Call<R>)
    requires CallInv(c)
    ensures Rank(c) == 0 <==> Over(c)
  {
  }

  /** The steps a schedule of all calls takes of one of them, cancellations of
      its task apart. */
  function StepsOf<R>(schedule: seq<SysAction<R>>, id: nat): nat {
    if |schedule| == 0 then 0 else StepOf(schedule[0], id) + StepsOf(schedule[1..], id)
  }

  function StepOf<R>(sa: SysAction<R>, id: nat): nat {
    if sa.Act? && sa.id == id && !sa.a.ECancel? then 1 else 0
  }

  /** What a call, started or not, has left to spend. */
  function Budget<R>(s: Sys<R>, id: nat): nat {
    if id in s.calls then Rank(s.calls[id]) else MAX_STEPS
  }

  lemma StepSpends<R>(s: Sys<R>, sa: SysAction<R>, id: nat)
    requires SysInv(s) && SysNext(s, sa).Some?
    ensures StepOf(sa, id) + Budget(SysNext(s, sa).value, id) <= Budget(s, id)
  {
    if sa.Act? && sa.id == id { StepRanks(s.calls[id], sa.a); }
  }

  lemma {:induction false} BudgetLasts<R(!new)>(s: Sys<R>, schedule: seq<SysAction<R>>, id: nat)
    requires SysInv(s) && Machines.Run(SysNext, s, schedule).Some?
    ensures StepsOf(schedule, id) + Budget(Machines.Run(SysNext, s, schedule).value, id) <= Budget(s, id)
    decreases |schedule|
  {
    if |schedule| > 0 {
      SysKeeps(s, schedule[0]);
      StepSpends(s, schedule[0], id);
      BudgetLasts(SysNext(s, schedule[0]).value, schedule[1..], id);
    }
  }

  /** Among any number of calls, however their steps are interleaved, each takes
      at most 26 of its own; what it has taken and what it has left make no more
      than that, and it is over exactly when it has nothing left. */
  lemma EachCallEnds<R(!new)>(schedule: seq<SysAction<R>>, id: nat)
    requires Machines.Run(SysNext, Init(), schedule).Some?
    ensures StepsOf(schedule, id) <= MAX_STEPS
    ensures var s := Machines.Run(SysNext, Init(), schedule).value;
            id in s.calls ==> StepsOf(schedule, id) + Rank(s.calls[id]) <= MAX_STEPS
                              && (Rank(s.calls[id]) == 0 <==> Over(s.calls[id]))
  {
    var s := Machines.Run(SysNext, Init(), schedule).value;
    assert Reachable(s);
    ReachableInv(s);
    BudgetLasts(Init(), schedule, id);
    if id in s.calls { SpentIsOver(s.calls[id]); }
  }

  /** A step the call can take next, given a handle no call holds and how its
      native call would end. */
  function Pending<R>(c: Call<R>, h: nat, o: Outcome<R>): Action<R> {
    match c.worker
    case New => WNew(h)
    case Append => WAppend
    case Check => WCheck
    case CancelOwn => WCancel
    case Enter => WEnter
    case Inside => WReturn(o)
    case Classify(_) => WClassify
    case Free(_) => WFree
    case Post(_) => WPost
    case Exited => PendingOnLoop(c)
  }

  function PendingOnLoop<R>(c: Call<R>): Action<R> {
    if c.task.EndCheck? then LEndCheck
    else if c.task.EndSet? then LEndSet
    else if c.task.EndRead? then LEndRead
    else if c.task.EndCancel? then LEndCancel
    else if c.task.EndRegister? then LEndRegister
    else if c.settle.Scheduled? then LSettle
    else if c.consume.Scheduled? then LConsume
    else if c.innerDone.Scheduled? then LInnerDone
    else if c.outerDone.Scheduled? then LOuterDone
    else if c.handOver.Scheduled? then LHandOver
    else LWake
  }

  lemma CallGoesOn<R>(c: Call<R>, h: nat, o: Outcome<R>)
    requires CallInv(c) && !Over(c)
    ensures Next(c, Pending(c, h, o)).Some? && !Pending(c, h, o).ECancel?
  {
    if c.worker.Exited? { LoopGoesOn(c); }
  }

  lemma LoopGoesOn<R>(c: Call<R>)
    requires CallInv(c) && !Over(c) && c.worker.Exited?
    ensures Next(c, PendingOnLoop(c)).Some? && !PendingOnLoop(c).ECancel?
  {
  }

  /** From anywhere, a call comes to its end in as many steps as its rank allows,
      its task not cancelled any more. */
  lemma {:induction false} CanFinish<R(!new)>(c: Call<R>, h: nat, o: Outcome<R>)
    requires CallInv(c)
    ensures exists schedule :: Finishes(c, schedule)
    decreases Rank(c)
  {
    if Over(c) {
      assert Finishes(c, []);
    } else {
      var a := Pending(c, h, o);
      CallGoesOn(c, h, o);
      StepKeeps(c, a);
      StepRanks(c, a);
      CanFinish(Next(c, a).value, h, o);
      var rest :| Finishes(Next(c, a).value, rest);
      FinishesOneLater(c, a, rest);
    }
  }

  ghost predicate Finishes<R>(c: Call<R>, schedule: seq<Action<R>>) {
    && |schedule| <= Rank(c)
    && Machines.Run(Next, c, schedule).Some? && Over(Machines.Run(Next, c, schedule).value)
  }

  lemma FinishesOneLater<R>(c: Call<R>, a: Action<R>, rest: seq<Action<R>>)
    requires Next(c, a).Some? && Rank(Next(c, a).value) < Rank(c) && Finishes(Next(c, a).value, rest)
    ensures Finishes(c, [a] + rest)
  {
    assert ([a] + rest)[1..] == rest;
  }

  lemma EndGoesOn<R>(c: Call<R>)
    requires Ending(c.task)
    ensures IsEnd(PendingOnLoop(c)) && EndStep(c, PendingOnLoop(c)).Some?
  {
  }

  /** The loop always finishes the _end_the_call it is in the middle of. */
  lemma LoopFinishes<R(!new)>(s: Sys<R>)
    requires Reachable(s) && s.running.Some?
    ensures s.running.value in s.calls
    ensures var end := PendingOnLoop(s.calls[s.running.value]);
            IsEnd(end) && SysNext(s, Act(s.running.value, end)).Some?
  {
    ReachableInv(s);
    EndGoesOn(s.calls[s.running.value]);
  }

  /** With the loop between callbacks, every call not over has a step to take,
      and only a native call's return may be waited for. Of a cancelled task's
      call that one has its token cancelled (NoLostCancellation), which makes it
      return. */
  lemma WindsDown<R(!new)>(s: Sys<R>, id: nat, h: nat, o: Outcome<R>)
    requires Reachable(s) && id in s.calls && !Over(s.calls[id]) && s.running == None && h != 0 && h !in s.table
    ensures var next := Pending(s.calls[id], h, o);
            !next.ECancel? && SysNext(s, Act(id, next)).Some?
  {
    ReachableInv(s);
    CallGoesOn(s.calls[id], h, o);
    NotEnding(s, id);
    PendingIs(s.calls[id], h, o);
  }

  lemma NotEnding<R>(s: Sys<R>, id: nat)
    requires TurnInv(s) && id in s.calls && s.running == None
    ensures !Ending(s.calls[id].task)
  {
  }

  lemma PendingIs<R>(c: Call<R>, h: nat, o: Outcome<R>)
    ensures Pending(c, h, o).WNew? ==> Pending(c, h, o).h == h
    ensures !Ending(c.task) ==> !IsEnd(Pending(c, h, o))
  {
  }
}
