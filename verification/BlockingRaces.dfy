/** The machine leaves out no interleaving: a thread runs whatever the loop is
    doing, the loop runs whatever is scheduled, calls start beside calls, and
    the cancellation's race has all its orders. */
module BlockingRaces {
  import opened Options
  import opened Blocking
  import opened BlockingInvariant
  import opened BlockingSystem
  import opened BlockingLaws
  import Machines

  /** Exactly when a step can be taken: a thread's whenever its call can take
      it, given a new token's handle is new; a line of _end_the_call whenever
      its call is at it; any other step of the loop when the loop is between
      callbacks. */
  lemma StepsOpen<R(!new)>(s: Sys<R>, id: nat, a: Action<R>)
    requires Reachable(s) && id in s.calls
    ensures SysNext(s, Act(id, a)).Some? <==>
            && Next(s.calls[id], a).Some?
            && (a.WNew? ==> a.h != 0 && a.h !in s.table)
            && (IsWorker(a) || IsEnd(a) || s.running == None)
  {
    ReachableInv(s);
    OpenIs(s, id, a);
    if IsEnd(a) && EndStep(s.calls[id], a).Some? {
      AtItsLine(s.calls[id], a);
      MyTurn(s, id);
    }
  }

  lemma OpenIs<R>(s: Sys<R>, id: nat, a: Action<R>)
    requires id in s.calls
    ensures SysNext(s, Act(id, a)).Some? <==> May(s, id, a) && Next(s.calls[id], a).Some?
  {
  }

  lemma AtItsLine<R>(c: Call<R>, a: Action<R>)
    requires IsEnd(a) && EndStep(c, a).Some?
    ensures Ending(c.task)
  {
  }

  lemma MyTurn<R>(s: Sys<R>, id: nat)
    requires TurnInv(s) && id in s.calls && Ending(s.calls[id].task)
    ensures s.running == Some(id)
  {
  }

  /** The thread's next step, from where it is. */
  predicate IsThreadsNext<R>(w: Worker<R>, a: Action<R>) {
    match w
    case New => a.WNew?
    case Append => a.WAppend?
    case Check => a.WCheck?
    case CancelOwn => a.WCancel?
    case Enter => a.WEnter?
    case Inside => a.WReturn?
    case Classify(_) => a.WClassify?
    case Free(_) => a.WFree?
    case Post(_) => a.WPost?
    case Exited => false
  }

  /** Threads never wait for the loop: in every reachable state, even in the
      middle of an _end_the_call, its own or another's, every thread that has
      not ended can take its next step; only the native call's return is not its
      own to choose, and comes with any outcome. */
  lemma ThreadsRun<R(!new)>(s: Sys<R>, id: nat, a: Action<R>)
    requires Reachable(s) && id in s.calls && IsThreadsNext(s.calls[id].worker, a)
    requires a.WNew? ==> a.h != 0 && a.h !in s.table
    ensures SysNext(s, Act(id, a)).Some?
  {
    ReachableInv(s);
    ThreadNext(s.calls[id], a);
    StepsOpen(s, id, a);
  }

  lemma ThreadNext<R>(c: Call<R>, a: Action<R>)
    requires CallInv(c) && IsThreadsNext(c.worker, a)
    ensures IsWorker(a) && WorkerStep(c, a).Some?
  {
  }

  predicate IsScheduled<R>(c: Call<R>, a: Action<R>) {
    match a
    case LSettle => c.settle.Scheduled?
    case LConsume => c.consume.Scheduled?
    case LInnerDone => c.innerDone.Scheduled?
    case LOuterDone => c.outerDone.Scheduled?
    case LHandOver => c.handOver.Scheduled?
    case LWake => c.wake.Scheduled?
    case ECancel => c.task.Waiting?
    case _ => false
  }

  /** Between callbacks the loop can run any that is scheduled, of any call, and
      any task that waits can be cancelled, however often. */
  lemma LoopRuns<R(!new)>(s: Sys<R>, id: nat, a: Action<R>)
    requires Reachable(s) && id in s.calls && s.running == None && IsScheduled(s.calls[id], a)
    ensures SysNext(s, Act(id, a)).Some?
  {
    ReachableInv(s);
    ScheduledNext(s.calls[id], a);
    StepsOpen(s, id, a);
  }

  lemma ScheduledNext<R>(c: Call<R>, a: Action<R>)
    requires CallInv(c) && IsScheduled(c, a)
    ensures Next(c, a).Some? && !IsWorker(a) && !IsEnd(a)
  {
  }

  /** A call can start beside any number of others, and leaves them be. */
  lemma CallsStart<R(!new)>(s: Sys<R>, id: nat, kind: Kind)
    requires Reachable(s) && s.running == None && id !in s.calls
    ensures var t := SysNext(s, Start(id, kind));
            && t.Some? && t.value.calls.Keys == s.calls.Keys + {id} && t.value.calls[id].kind == kind && t.value.table == s.table
            && forall other :: other in s.calls ==> t.value.calls[other] == s.calls[other]
  {
  }

  /** A cancellation is on record, and so is how a native call ends. */
  lemma OnRecord<R>(c: Call<R>, o: Outcome<R>)
    ensures CancelTask(c).Some? ==> CancelTask(c).value.past.asked
    ensures c.worker.Inside? ==> WorkerStep(c, WReturn(o)).Some? && WorkerStep(c, WReturn(o)).value.past.native == Some(o)
  {
  }

  // ---- The race ----------------------------------------------------------

  function ThreeOf<R>(id: nat, a: Action<R>, b: Action<R>, c: Action<R>): seq<SysAction<R>> {
    [Act(id, a)] + [Act(id, b), Act(id, c)]
  }

  lemma RunThree<R(!new)>(s: Sys<R>, x: SysAction<R>, t: Sys<R>, y: SysAction<R>, u: Sys<R>, z: SysAction<R>, v: Sys<R>)
    requires SysNext(s, x) == Some(t) && SysNext(t, y) == Some(u) && SysNext(u, z) == Some(v)
    ensures Machines.Run(SysNext, s, [x] + [y, z]) == Some(v)
  {
    Machines.RunTwo(SysNext, t, y, u, z, v);
    assert ([x] + [y, z])[1..] == [y, z];
  }

  /** The call is about to set the flag, its thread about to append the token. */
  predicate Racing<R>(s: Sys<R>, id: nat) {
    id in s.calls && s.running == Some(id) && s.calls[id].task.EndSet? && s.calls[id].worker.Append? && s.calls[id].token.Some?
    && s.calls[id].list == []
  }

  function With<R>(s: Sys<R>, id: nat, c: Call<R>): Sys<R> {
    s.(calls := s.calls[id := c])
  }

  predicate InRace<R>(a: Action<R>) {
    a.WAppend? || a.LEndSet? || a.LEndRead?
  }

  /** One step of the race changes the call and nothing else. */
  lemma RaceStep<R>(s: Sys<R>, id: nat, c: Call<R>, a: Action<R>, d: Call<R>)
    requires id in s.calls && s.running == Some(id) && InRace(a)
    requires Next(c, a) == Some(d) && !d.task.EndCheck?
    ensures SysNext(With(s, id, c), Act(id, a)) == Some(With(s, id, d))
  {
    assert s.calls[id := c][id := d] == s.calls[id := d];
  }

  lemma RaceRun<R(!new)>(s: Sys<R>, id: nat, w: Action<R>, c: Call<R>, x: Action<R>, d: Call<R>, y: Action<R>, e: Call<R>)
    requires Racing(s, id) && InRace(w) && InRace(x) && InRace(y)
    requires Next(s.calls[id], w) == Some(c) && Next(c, x) == Some(d) && Next(d, y) == Some(e)
    requires !c.task.EndCheck? && !d.task.EndCheck? && !e.task.EndCheck?
    ensures Machines.Run(SysNext, s, ThreeOf(id, w, x, y)) == Some(With(s, id, e))
  {
    assert With(s, id, s.calls[id]) == s;
    RaceStep(s, id, s.calls[id], w, c);
    RaceStep(s, id, c, x, d);
    RaceStep(s, id, d, y, e);
    RunThree(s, Act(id, w), With(s, id, c), Act(id, x), With(s, id, d), Act(id, y), With(s, id, e));
  }

  /** The token appended before the flag is set: _end_the_call finds it. */
  lemma AppendedFirst<R(!new)>(s: Sys<R>, id: nat)
    requires Racing(s, id)
    ensures var t := Machines.Run(SysNext, s, ThreeOf(id, WAppend, LEndSet, LEndRead));
            && t.Some? && id in t.value.calls && t.value.calls[id].task == EndCancel(s.calls[id].token.value)
            && t.value.calls[id].worker.Check?
  {
    var c := s.calls[id];
    var h := c.token.value;
    assert c.list + [h] == [h];
    var appended := c.(worker := Check, list := [h]);
    var both := appended.(flag := true, task := EndRead);
    var read := both.(task := EndCancel(h));
    RaceRun(s, id, WAppend, appended, LEndSet, both, LEndRead, read);
  }

  /** Or between that and the reading of the list: it is found too. */
  lemma AppendedBetween<R(!new)>(s: Sys<R>, id: nat)
    requires Racing(s, id)
    ensures var t := Machines.Run(SysNext, s, ThreeOf(id, LEndSet, WAppend, LEndRead));
            && t.Some? && id in t.value.calls && t.value.calls[id].task == EndCancel(s.calls[id].token.value)
            && t.value.calls[id].worker.Check?
  {
    var c := s.calls[id];
    var h := c.token.value;
    assert c.list + [h] == [h];
    var flagged := c.(flag := true, task := EndRead);
    var both := flagged.(worker := Check, list := [h]);
    var read := both.(task := EndCancel(h));
    RaceRun(s, id, LEndSet, flagged, WAppend, both, LEndRead, read);
  }

  /** Appended after the list was read: _end_the_call missed it, and the thread
      has yet to look at the flag, which is set. */
  lemma AppendedLate<R(!new)>(s: Sys<R>, id: nat)
    requires Racing(s, id)
    ensures var t := Machines.Run(SysNext, s, ThreeOf(id, LEndSet, LEndRead, WAppend));
            && t.Some? && id in t.value.calls && t.value.calls[id].task == EndRegister && t.value.calls[id].worker.Check? && t.value.calls[id].flag
            && WorkerStep(t.value.calls[id], WCheck).Some? && WorkerStep(t.value.calls[id], WCheck).value.worker.CancelOwn?
  {
    var c := s.calls[id];
    var h := c.token.value;
    assert c.list + [h] == [h];
    var flagged := c.(flag := true, task := EndRead);
    var missed := flagged.(task := EndRegister);
    var late := missed.(worker := Check, list := [h]);
    RaceRun(s, id, LEndSet, flagged, LEndRead, missed, WAppend, late);
  }

  // ---- And it comes to that ----------------------------------------------

  function Alone<R>(h: nat, c: Call<R>, running: Option<nat>): Sys<R> {
    Sys(map[h := Token(false, 0)], map[1 := c], running)
  }

  function Made<R>(h: nat): Call<R> {
    Started(Blocking(true)).(worker := Append, token := Some(h))
  }

  function MadeAsked<R>(h: nat): Call<R> {
    Made(h).(outer := Cancelled, outerDone := Scheduled, wake := Scheduled, past := Past(true, None, 0, false, 0))
  }

  function MadeEnding<R>(h: nat): Call<R> {
    MadeAsked(h).(wake := Ran, task := EndCheck)
  }

  function ToTheRace<R>(h: nat): seq<SysAction<R>> {
    [Start(1, Blocking(true)), Act(1, WNew(h))] + ThreeOf(1, ECancel, LWake, LEndCheck)
  }

  lemma MadeRun<R(!new)>(h: nat)
    requires h != 0
    ensures Machines.Run(SysNext, Init<R>(), [Start(1, Blocking(true)), Act(1, WNew(h))]) == Some(Alone(h, Made(h), None))
  {
    var started := Sys(map[], map[1 := Started<R>(Blocking(true))], None);
    assert started.calls[1 := Made(h)] == map[1 := Made(h)];
    Machines.RunTwo(SysNext, Init<R>(), Start(1, Blocking(true)), started, Act(1, WNew(h)), Alone(h, Made(h), None));
  }

  lemma AloneStep<R>(h: nat, c: Call<R>, running: Option<nat>, a: Action<R>, d: Call<R>)
    requires !IsWorker(a) && !a.LEndCancel? && !a.LEndRegister? && Next(c, a) == Some(d)
    requires if IsEnd(a) then running == Some(1) else running == None
    ensures SysNext(Alone(h, c, running), Act(1, a)) == Some(Alone(h, d, if d.task.EndCheck? then Some(1) else running))
  {
    assert map[1 := c][1 := d] == map[1 := d];
  }

  lemma AskedStep<R>(h: nat)
    ensures Next(Made<R>(h), ECancel) == Some(MadeAsked(h))
  {
  }

  lemma WokenStep<R>(h: nat)
    ensures Next(MadeAsked<R>(h), LWake) == Some(MadeEnding(h))
  {
  }

  lemma CheckedStep<R>(h: nat)
    ensures Next(MadeEnding<R>(h), LEndCheck) == Some(MadeEnding(h).(task := EndSet))
  {
  }

  lemma EndingRun<R(!new)>(h: nat)
    ensures Machines.Run(SysNext, Alone(h, Made<R>(h), None), ThreeOf(1, ECancel, LWake, LEndCheck)) ==
            Some(Alone(h, MadeEnding(h).(task := EndSet), Some(1)))
  {
    AskedStep<R>(h);
    WokenStep<R>(h);
    CheckedStep<R>(h);
    AloneStep<R>(h, Made(h), None, ECancel, MadeAsked(h));
    AloneStep<R>(h, MadeAsked(h), None, LWake, MadeEnding(h));
    AloneStep<R>(h, MadeEnding(h), Some(1), LEndCheck, MadeEnding(h).(task := EndSet));
    RunThree<R>(Alone(h, Made(h), None), Act(1, ECancel), Alone(h, MadeAsked(h), None), Act(1, LWake),
                Alone(h, MadeEnding(h), Some(1)), Act(1, LEndCheck), Alone(h, MadeEnding(h).(task := EndSet), Some(1)));
  }

  /** A cancellation right after the token was made leads into the race. */
  lemma RaceIsRun<R(!new)>(h: nat)
    requires h != 0
    ensures var s := Machines.Run(SysNext, Init<R>(), ToTheRace(h)); s.Some? && Reachable(s.value) && Racing(s.value, 1)
  {
    MadeRun<R>(h);
    EndingRun<R>(h);
    Machines.RunAppend(SysNext, Init<R>(), [Start(1, Blocking(true)), Act(1, WNew(h))], ThreeOf(1, ECancel, LWake, LEndCheck));
  }
}
