/** A blocking call as its caller sees it, in one place: the native call ends,
    and the await either takes what it ended with, or is cancelled and leaves it
    to be released or dropped. Every step of the real machine is one of these or
    changes nothing a caller could see. */
module CallSpec {
  import opened Options
  import opened Blocking
  import opened BlockingInvariant
  import opened BlockingSystem
  import opened BlockingLaws

  datatype Fate<R> =
    | Awaiting
    | Delivered(r: R)
    | Failed(e: Error)
    | CancelledOwing            // CancelledError raised, the outcome still to come
    | CancelledReleased(r: R)   // and its result handed to discard
    | CancelledDropped          // or nothing left to release

  /** native is how the native call ended, once it has. */
  datatype Spec<R> = Spec(native: Option<Outcome<R>>, fate: Fate<R>)

  /** How an error is reported to the awaiting caller. */
  function Reported(kind: Kind, e: Error): Error {
    if kind.Blocking? && e.NativeCancelled? then MaculaError(e.message) else e
  }

  /** One step of the atomic call; asked tells whether its task was cancelled. */
  ghost predicate SpecStep<R>(kind: Kind, asked: bool, s: Spec<R>, t: Spec<R>) {
    || NativeEnds(s, t)
    || Delivers(s, t)
    || Fails(kind, s, t)
    || Cancels(kind, asked, s, t)
    || Releases(kind, s, t)
    || Drops(kind, s, t)
  }

  ghost predicate NativeEnds<R>(s: Spec<R>, t: Spec<R>) {
    s.native.None? && t.native.Some? && t.fate == s.fate
  }

  ghost predicate Delivers<R>(s: Spec<R>, t: Spec<R>) {
    s.fate.Awaiting? && s.native.Some? && s.native.value.Result? && t == s.(fate := Delivered(s.native.value.r))
  }

  ghost predicate Fails<R>(kind: Kind, s: Spec<R>, t: Spec<R>) {
    s.fate.Awaiting? && s.native.Some? && s.native.value.Raises? && t == s.(fate := Failed(Reported(kind, s.native.value.e)))
  }

  /** A call without a discard owes nothing, and may be cancelled and done with
      at once. */
  ghost predicate Cancels<R>(kind: Kind, asked: bool, s: Spec<R>, t: Spec<R>) {
    asked && s.fate.Awaiting? && t == s.(fate := t.fate)
    && (t.fate.CancelledOwing? || (t.fate.CancelledDropped? && kind != Blocking(true)))
  }

  ghost predicate Releases<R>(kind: Kind, s: Spec<R>, t: Spec<R>) {
    s.fate.CancelledOwing? && kind == Blocking(true) && s.native.Some? && s.native.value.Result?
    && t == s.(fate := CancelledReleased(s.native.value.r))
  }

  ghost predicate Drops<R>(kind: Kind, s: Spec<R>, t: Spec<R>) {
    s.fate.CancelledOwing? && s.native.Some? && (s.native.value.Raises? || kind != Blocking(true))
    && t == s.(fate := CancelledDropped)
  }

  function FateOf<R>(c: Call<R>): Fate<R> {
    match c.task
    case Waiting => Awaiting
    case Returned(r) => Delivered(r)
    case Raised(e) => Failed(e)
    case CancelledOut =>
      if c.kind == Blocking(true) then
        if !c.handOver.Ran? || !c.inner.Done? then CancelledOwing
        else if c.inner.o.Result? then CancelledReleased(c.inner.o.r)
        else CancelledDropped
      else if c.inner.Done? then CancelledDropped else CancelledOwing
    case _ => CancelledOwing
  }

  function Abs<R>(c: Call<R>): Spec<R> {
    Spec(c.past.native, FateOf(c))
  }

  /** Every step of a call is a step of the atomic one, or invisible. */
  lemma Refines<R>(c: Call<R>, a: Action<R>)
    requires CallInv(c) && Next(c, a).Some?
    ensures var d := Next(c, a).value; Abs(d) == Abs(c) || SpecStep(c.kind, d.past.asked, Abs(c), Abs(d))
  {
    StepKeeps(c, a);
    var d := Next(c, a).value;
    OutcomeOf(c);
    OutcomeOf(d);
    if IsWorker(a) {
      WorkerRefines(c, a);
    } else if a.LWake? {
      WakeRefines(c);
    } else {
      OtherRefines(c, a);
    }
  }

  lemma WorkerRefines<R>(c: Call<R>, a: Action<R>)
    requires CallInv(c) && IsWorker(a) && WorkerStep(c, a).Some?
    ensures var d := WorkerStep(c, a).value; Abs(d) == Abs(c) || NativeEnds(Abs(c), Abs(d))
  {
  }

  lemma WakeRefines<R>(c: Call<R>)
    requires CallInv(c) && LoopStep(c, LWake).Some?
    ensures var d := LoopStep(c, LWake).value;
            Delivers(Abs(c), Abs(d)) || Fails(c.kind, Abs(c), Abs(d)) || Cancels(c.kind, d.past.asked, Abs(c), Abs(d))
  {
    OutcomeOf(c);
  }

  lemma OtherRefines<R>(c: Call<R>, a: Action<R>)
    requires CallInv(c) && !IsWorker(a) && !a.LWake? && Next(c, a).Some?
    ensures var d := Next(c, a).value;
            Abs(d) == Abs(c) || Releases(c.kind, Abs(c), Abs(d)) || Drops(c.kind, Abs(c), Abs(d))
  {
    OutcomeOf(c);
    if IsEnd(a) { EndRefines(c, a); }
    else if a.ECancel? { CancelRefines(c); }
    else if a.LSettle? { SettleRefines(c); }
    else if a.LHandOver? { HandOverRefines(c); }
    else { CallbackRefines(c, a); }
  }

  /** The lines of _end_the_call leave the outcome owing; only a call whose
      future is done and that has no discard is done with at its last. */
  lemma EndRefines<R>(c: Call<R>, a: Action<R>)
    requires CallInv(c) && IsEnd(a) && EndStep(c, a).Some? && (c.inner.Done? ==> c.past.native.Some?)
    ensures var d := EndStep(c, a).value; Abs(d) == Abs(c) || Drops(c.kind, Abs(c), Abs(d))
  {
  }

  lemma CancelRefines<R>(c: Call<R>)
    requires CancelTask(c).Some?
    ensures Abs(CancelTask(c).value) == Abs(c)
  {
  }

  lemma SettleRefines<R>(c: Call<R>)
    requires CallInv(c) && LoopStep(c, LSettle).Some?
    ensures var d := LoopStep(c, LSettle).value; Abs(d) == Abs(c) || Drops(c.kind, Abs(c), Abs(d))
  {
  }

  lemma HandOverRefines<R>(c: Call<R>)
    requires CallInv(c) && LoopStep(c, LHandOver).Some?
    requires c.inner.Done? ==> c.past.native.Some? && (c.inner.o.Result? <==> c.past.native.value.Result?)
    requires c.inner.Done? && c.inner.o.Result? ==> c.past.native == Some(c.inner.o)
    ensures var d := LoopStep(c, LHandOver).value;
            Abs(d) == Abs(c) || Releases(c.kind, Abs(c), Abs(d)) || Drops(c.kind, Abs(c), Abs(d))
  {
  }

  lemma CallbackRefines<R>(c: Call<R>, a: Action<R>)
    requires (a.LConsume? || a.LInnerDone? || a.LOuterDone?) && LoopStep(c, a).Some?
    ensures Abs(LoopStep(c, a).value) == Abs(c)
  {
  }

  /** The one fate a call can meet, given how its native call ended and whether
      its task was cancelled. */
  function FateAtEnd<R>(kind: Kind, asked: bool, native: Outcome<R>): Fate<R> {
    if asked then
      if native.Result? && kind == Blocking(true) then CancelledReleased(native.r) else CancelledDropped
    else
      match native
      case Result(r) => Delivered(r)
      case Raises(e) => Failed(Reported(kind, e))
  }

  /** However its steps were interleaved, a call that is over has met the fate
      that its native call's end and its task's cancellation call for. */
  lemma FateIsMet<R(!new)>(s: Sys<R>, id: nat)
    requires BlockingSystem.Reachable(s) && id in s.calls && Over(s.calls[id])
    ensures var c := s.calls[id]; c.past.native.Some? && FateOf(c) == FateAtEnd(c.kind, c.past.asked, c.past.native.value)
  {
    ReachableInv(s);
    OutcomeOf(s.calls[id]);
    CancelledIffAsked(s.calls[id]);
    FateOfOver(s.calls[id]);
  }

  lemma FateOfOver<R>(c: Call<R>)
    requires CallInv(c) && Over(c) && (c.task.CancelledOut? <==> c.past.asked) && !c.task.Waiting?
    requires c.inner.Done? ==> c.past.native.Some? && (c.inner.o.Result? <==> c.past.native.value.Result?)
    requires c.inner.Done? && c.inner.o.Result? ==> c.past.native == Some(c.inner.o)
    ensures c.past.native.Some? && FateOf(c) == FateAtEnd(c.kind, c.past.asked, c.past.native.value)
  {
  }

  /** Of every reachable state: whatever any call, thread or canceller does, each
      call takes a step of the atomic call or none. */
  lemma SystemRefines<R(!new)>(s: Sys<R>, sa: SysAction<R>, id: nat)
    requires Reachable(s) && SysNext(s, sa).Some? && id in s.calls
    ensures var t := SysNext(s, sa).value;
            && id in t.calls && t.calls[id].kind == s.calls[id].kind
            && (Abs(t.calls[id]) == Abs(s.calls[id])
                || SpecStep(s.calls[id].kind, t.calls[id].past.asked, Abs(s.calls[id]), Abs(t.calls[id])))
  {
    ReachableInv(s);
    if sa.Act? && sa.id == id {
      Refines(s.calls[id], sa.a);
      KindKept(s.calls[id], sa.a);
    }
  }

  /** What a call is does not change, nor, unless it is cancelled, whether it
      was. */
  lemma KindKept<R>(c: Call<R>, a: Action<R>)
    requires Next(c, a).Some?
    ensures Next(c, a).value.kind == c.kind && (!a.ECancel? ==> Next(c, a).value.past.asked == c.past.asked)
  {
    if IsWorker(a) { WorkerKindKept(c, a); } else if IsEnd(a) { EndKindKept(c, a); } else if !a.ECancel? { LoopKindKept(c, a); }
  }

  lemma LoopKindKept<R>(c: Call<R>, a: Action<R>)
    requires !IsWorker(a) && !IsEnd(a) && !a.ECancel? && LoopStep(c, a).Some?
    ensures LoopStep(c, a).value.kind == c.kind && LoopStep(c, a).value.past.asked == c.past.asked
  {
  }

  lemma WorkerKindKept<R>(c: Call<R>, a: Action<R>)
    requires IsWorker(a) && WorkerStep(c, a).Some?
    ensures WorkerStep(c, a).value.kind == c.kind && WorkerStep(c, a).value.past.asked == c.past.asked
  {
  }

  lemma EndKindKept<R>(c: Call<R>, a: Action<R>)
    requires IsEnd(a) && EndStep(c, a).Some?
    ensures EndStep(c, a).value.kind == c.kind && EndStep(c, a).value.past.asked == c.past.asked
  {
  }
}
