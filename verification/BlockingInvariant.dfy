/** What every step of a blocking call keeps, and what every reachable state of
    any number of them therefore satisfies. */
module BlockingInvariant {
  import opened Options
  import opened Blocking

  predicate Ending<R>(t: Task<R>) {
    t.EndCheck? || t.EndSet? || t.EndRead? || t.EndCancel? || t.EndRegister?
  }

  /** The worker has not looked at the flag since appending its token. */
  predicate StillToCheck<R>(w: Worker<R>) {
    w.New? || w.Append? || w.Check? || w.CancelOwn?
  }

  predicate BeforeReturn<R>(w: Worker<R>) {
    StillToCheck(w) || w.Enter? || w.Inside?
  }

  /** o is what the thread hands over for a native call that ended in raw. */
  ghost predicate Reported<R>(c: Call<R>, raw: Outcome<R>, o: Outcome<R>) {
    if c.kind.Blocking? && raw.Raises? && raw.e.NativeCancelled? then
      o == Raises(MaculaError(raw.e.message)) || (c.flag && o == raw)
    else o == raw
  }

  /** The thread: its token, its list entry, its one outcome. */
  ghost predicate WorkerInv<R>(c: Call<R>) {
    && (c.kind.Native? ==> c.token.None? && c.list == [] && c.past.frees == 0 && c.past.cancels == 0 && !c.flag
                           && (c.worker.Enter? || c.worker.Inside? || c.worker.Post? || c.worker.Exited?))
    && (c.kind.Blocking? ==>
          && (c.token.None? <==> c.worker.New?)
          && (c.token.Some? ==> c.list == if c.worker.Append? then [] else [c.token.value])
          && (c.worker.New? ==> c.list == [])
          && c.past.frees == (if c.worker.Post? || c.worker.Exited? then 1 else 0))
    && (c.past.native.None? <==> BeforeReturn(c.worker))
    && (c.worker.Classify? ==> c.past.native == Some(Raises(NativeCancelled(c.worker.message))))
    && (c.worker.Free? ==> Reported(c, c.past.native.value, c.worker.o))
    && (c.worker.Post? ==> Reported(c, c.past.native.value, c.worker.o))
    && (c.posted.Some? <==> c.worker.Exited?)
    && (c.posted.Some? ==> Reported(c, c.past.native.value, c.posted.value))
  }

  /** The future, the shield and their callbacks, each run once. */
  ghost predicate LoopInv<R>(c: Call<R>) {
    && (c.settle.Absent? || c.settle.Scheduled? || c.settle.Ran?)
    && (c.settle.Absent? <==> c.posted.None?)
    && c.inner == (if c.settle.Ran? then Done(c.posted.value) else Pending)
    && (if c.inner.Pending? then c.consume.Armed? else c.consume.Scheduled? || c.consume.Ran?)
    && (if c.inner.Pending? then c.innerDone.Armed? || c.innerDone.Removed?
        else c.innerDone.Scheduled? || c.innerDone.Ran? || c.innerDone.Removed?)
    && (c.innerDone.Removed? ==> c.outer.Cancelled?)
    && (c.innerDone.Ran? ==> !c.outer.Pending?)
    && (c.outer.Done? ==> c.innerDone.Ran? && c.outer == c.inner)
    && (if c.outer.Pending? then c.outerDone.Armed? else c.outerDone.Scheduled? || c.outerDone.Ran?)
    && (if c.outer.Pending? then c.wake.Armed? else c.wake.Scheduled? || c.wake.Ran?)
  }

  /** The task: when it was cancelled, and how it came out. */
  ghost predicate TaskInv<R>(c: Call<R>) {
    && (c.task.Waiting? <==> !c.wake.Ran?)
    && (c.outer.Cancelled? ==> c.past.asked)
    && (c.mustCancel ==> c.past.asked && c.task.Waiting? && c.wake.Scheduled?)
    && (c.task.Waiting? && c.past.asked ==> c.mustCancel || c.outer.Cancelled?)
    && (c.task.Returned? ==> !c.past.asked && c.outer == Done(Result(c.task.r)))
    && (c.task.Raised? ==> !c.past.asked && c.outer == Done(Raises(c.task.e)))
    && (Ending(c.task) ==> c.past.asked && c.kind.Blocking?)
    && (c.task.CancelledOut? ==> c.past.asked)
  }

  /** The cancellation: set the flag, then read the token, against append the
      token, then read the flag. */
  ghost predicate CancelInv<R>(c: Call<R>) {
    && (c.flag ==> c.kind.Blocking? && (c.task.EndRead? || c.task.EndCancel? || c.task.EndRegister? || c.task.CancelledOut?))
    && (c.task.EndRead? || c.task.EndCancel? ==> c.flag)
    && (c.task.EndCancel? ==> c.token == Some(c.task.h))
    && (c.worker.CancelOwn? ==> c.flag)
    && (c.past.cancels > 0 ==> c.flag && c.token.Some?)
    && (c.flag && (c.task.EndRegister? || c.task.CancelledOut?) && c.past.cancels == 0 ==> StillToCheck(c.worker))
    && (c.past.struck ==> c.past.cancels > 0)
    && (c.past.cancels > 0 && c.past.frees == 0 ==> c.past.struck)
    && c.past.cancels <= (if c.worker.New? || c.worker.Append? || c.worker.Check? || c.worker.CancelOwn? then 0 else 1)
                    + (if c.task.EndRegister? || c.task.CancelledOut? then 1 else 0)
    && (c.kind.Blocking? && (c.task.EndRegister? || c.task.CancelledOut?) && !c.flag ==> !c.inner.Pending?)
  }

  /** The discard: registered as _end_the_call ends, run at most once, with the
      result if there is one. */
  ghost predicate DiscardInv<R>(c: Call<R>) {
    && (c.handOver.Absent? <==> !(c.task.CancelledOut? && c.kind == Blocking(true)))
    && (!c.handOver.Absent? ==>
          if c.inner.Pending? then c.handOver.Armed? else c.handOver.Scheduled? || c.handOver.Ran?)
    && c.discarded == (if c.handOver.Ran? && c.inner.Done? && c.inner.o.Result? then [c.inner.o.r] else [])
  }

  ghost predicate CallInv<R>(c: Call<R>) {
    WorkerInv(c) && LoopInv(c) && TaskInv(c) && CancelInv(c) && DiscardInv(c)
  }

  lemma StartedInv<R>(kind: Kind)
    ensures CallInv(Started<R>(kind))
  {
  }

  lemma TokenKeeps<R>(c: Call<R>, a: Action<R>)
    requires CallInv(c) && Next(c, a).Some? && (a.WNew? || a.WAppend? || a.WCheck? || a.WCancel? || a.WEnter?)
    ensures CallInv(Next(c, a).value)
  {
  }

  lemma OutcomeKeeps<R>(c: Call<R>, a: Action<R>)
    requires CallInv(c) && (a.WReturn? || a.WClassify?) && WorkerStep(c, a).Some?
    ensures CallInv(WorkerStep(c, a).value)
  {
  }

  lemma HandBackKeeps<R>(c: Call<R>, a: Action<R>)
    requires CallInv(c) && (a.WFree? || a.WPost?) && WorkerStep(c, a).Some?
    ensures CallInv(WorkerStep(c, a).value)
  {
  }

  lemma EndKeeps<R>(c: Call<R>, a: Action<R>)
    requires CallInv(c) && IsEnd(a) && EndStep(c, a).Some?
    ensures CallInv(EndStep(c, a).value)
  {
    if a.LEndRegister? { RegisterKeeps(c); } else if a.LEndCancel? { EndCancelKeeps(c); }
  }

  lemma RegisterKeeps<R>(c: Call<R>)
    requires CallInv(c) && EndStep(c, LEndRegister).Some?
    ensures CallInv(EndStep(c, LEndRegister).value)
  {
  }

  lemma EndCancelKeeps<R>(c: Call<R>)
    requires CallInv(c) && EndStep(c, LEndCancel).Some?
    ensures CallInv(EndStep(c, LEndCancel).value)
  {
  }

  lemma SettleKeeps<R>(c: Call<R>)
    requires CallInv(c) && LoopStep(c, LSettle).Some?
    ensures CallInv(LoopStep(c, LSettle).value)
  {
    SettledKeeps(c, Settle(c, c.posted.value).(settle := Ran));
  }

  lemma SettledKeeps<R>(c: Call<R>, d: Call<R>)
    requires CallInv(c) && c.settle.Scheduled? && c.posted.Some?
    requires d == c.(settle := Ran, inner := Done(c.posted.value), consume := Schedule(c.consume),
                     innerDone := Schedule(c.innerDone), handOver := Schedule(c.handOver))
    ensures CallInv(d)
  {
  }

  lemma ConsumeKeeps<R>(c: Call<R>)
    requires CallInv(c) && LoopStep(c, LConsume).Some?
    ensures CallInv(LoopStep(c, LConsume).value)
  {
  }

  lemma OuterDoneKeeps<R>(c: Call<R>)
    requires CallInv(c) && LoopStep(c, LOuterDone).Some?
    ensures CallInv(LoopStep(c, LOuterDone).value)
  {
  }

  lemma HandOverKeeps<R>(c: Call<R>)
    requires CallInv(c) && LoopStep(c, LHandOver).Some?
    ensures CallInv(LoopStep(c, LHandOver).value)
  {
  }

  lemma ShieldKeeps<R>(c: Call<R>)
    requires CallInv(c) && LoopStep(c, LInnerDone).Some?
    ensures CallInv(LoopStep(c, LInnerDone).value)
  {
    if c.outer.Pending? { ShieldSettles(c); } else { ShieldIsDone(c); }
  }

  lemma ShieldSettles<R>(c: Call<R>)
    requires CallInv(c) && c.innerDone.Scheduled? && c.outer.Pending?
    ensures CallInv(SettleOuter(c, c.inner).(innerDone := Ran))
  {
  }

  lemma ShieldIsDone<R>(c: Call<R>)
    requires CallInv(c) && c.innerDone.Scheduled? && !c.outer.Pending?
    ensures CallInv(c.(innerDone := Ran))
  {
  }

  lemma WakeKeeps<R>(c: Call<R>)
    requires CallInv(c) && LoopStep(c, LWake).Some?
    ensures CallInv(LoopStep(c, LWake).value)
  {
    if c.mustCancel || !c.outer.Done? { ThrownKeeps(c, Woken(c)); } else { TakenKeeps(c, Woken(c)); }
  }

  /** A cancellation is thrown in. */
  lemma ThrownKeeps<R>(c: Call<R>, task: Task<R>)
    requires CallInv(c) && c.wake.Scheduled? && c.task.Waiting? && (c.mustCancel || !c.outer.Done?)
    requires task == if c.kind.Native? then CancelledOut else EndCheck
    ensures CallInv(c.(wake := Ran, mustCancel := false, task := task))
  {
  }

  /** The outcome comes out. */
  lemma TakenKeeps<R>(c: Call<R>, task: Task<R>)
    requires CallInv(c) && c.wake.Scheduled? && c.task.Waiting? && !c.mustCancel && c.outer.Done? && task == Woken(c)
    ensures CallInv(c.(wake := Ran, mustCancel := false, task := task))
  {
  }

  lemma CancelKeeps<R>(c: Call<R>)
    requires CallInv(c) && CancelTask(c).Some?
    ensures CallInv(CancelTask(c).value)
  {
    if c.outer.Pending? { EarlyCancelKeeps(c); } else { LateCancelKeeps(c); }
  }

  /** The shield is still pending, and is cancelled. */
  lemma EarlyCancelKeeps<R>(c: Call<R>)
    requires CallInv(c) && c.task.Waiting? && c.outer.Pending?
    ensures CallInv(SettleOuter(c, Cancelled).(past := c.past.(asked := true)))
  {
  }

  /** It is done, the task about to take its outcome. */
  lemma LateCancelKeeps<R>(c: Call<R>)
    requires CallInv(c) && c.task.Waiting? && !c.outer.Pending?
    ensures CallInv(c.(mustCancel := true, past := c.past.(asked := true)))
  {
  }

  /** Every step of a call keeps its invariant. */
  lemma StepKeeps<R>(c: Call<R>, a: Action<R>)
    requires CallInv(c) && Next(c, a).Some?
    ensures CallInv(Next(c, a).value)
  {
    if a.WNew? || a.WAppend? || a.WCheck? || a.WCancel? || a.WEnter? { TokenKeeps(c, a); }
    else if a.WReturn? || a.WClassify? { OutcomeKeeps(c, a); }
    else if IsWorker(a) { HandBackKeeps(c, a); }
    else if IsEnd(a) { EndKeeps(c, a); }
    else if a.LSettle? { SettleKeeps(c); }
    else if a.LInnerDone? { ShieldKeeps(c); }
    else if a.LWake? { WakeKeeps(c); }
    else if a.ECancel? { CancelKeeps(c); }
    else if a.LHandOver? { HandOverKeeps(c); }
    else if a.LConsume? { ConsumeKeeps(c); }
    else { OuterDoneKeeps(c); }
  }
}
