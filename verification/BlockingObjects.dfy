/** The objects the blocking call's code mutates: the library's cancel tokens,
    and one running call with its Event, its token list, its futures and their
    callbacks. Each method is one atomic piece of that code, proved to be the
    step of Blocking it is written as. */
module BlockingObjects {
  import opened Options
  import opened Blocking
  import opened BlockingInvariant
  import BlockingSystem

  /** Cancel tokens, as run_blocking takes them. */
  class CancelTokens {
    var table: Table
    var next: nat

    ghost predicate Valid()
      reads this
    {
      next > 0 && forall h :: h in table ==> h < next
    }

    constructor ()
      ensures Valid() && table == map[]
    {
      table, next := map[], 1;
    }

    method New() returns (h: nat)
      requires Valid()
      modifies this
      ensures Valid() && h != 0 && h !in old(table) && table == old(table)[h := Token(false, 0)]
    {
      h := next;
      table, next := table[h := Token(false, 0)], next + 1;
    }

    method Cancel(h: nat)
      requires Valid()
      modifies this`table
      ensures Valid() && table == CancelToken(old(table), h)
    {
      if h in table && table[h].frees == 0 {
        table := table[h := table[h].(cancelled := true)];
      }
    }

    method Free(h: nat)
      requires Valid()
      modifies this`table
      ensures Valid() && table == FreeToken(old(table), h)
    {
      if h in table {
        table := table[h := table[h].(frees := table[h].frees + 1)];
      }
    }
  }

  /** A cancel of a call's own token marks it, unless it is freed, and leaves the
      others. */
  lemma OwnCancel<R>(table: Table, c: Call<R>)
    requires CallInv(c) && BlockingSystem.Agrees(table, c) && (c.worker.CancelOwn? || c.task.EndCancel?)
    ensures c.token.Some? && (c.task.EndCancel? ==> c.task.h == c.token.value)
    ensures var h, t := c.token.value, CancelToken(table, c.token.value);
            && h in t && t[h] == (if c.past.frees == 0 then Token(true, 0) else table[h])
            && (c.worker.CancelOwn? ==> c.past.frees == 0)
            && forall k :: k in table && k != h ==> k in t && t[k] == table[k]
  {
  }

  class RunningCall<R> {
    const kind: Kind
    const cancels: CancelTokens

    var worker: Worker<R>
    var token: Option<nat>
    var flag: bool
    var list: seq<nat>
    var posted: Option<Outcome<R>>
    var settle: Callback
    var inner: Future<R>
    var consume: Callback
    var innerDone: Callback
    var handOver: Callback
    var outer: Future<R>
    var outerDone: Callback
    var wake: Callback
    var mustCancel: bool
    var task: Task<R>
    var discarded: seq<R>
    ghost var past: Past<R>

    /** The call as Blocking speaks of it. */
    ghost function View(): Call<R>
      reads this
    {
      Call(kind, worker, token, flag, list, posted, settle, inner, consume, innerDone, handOver, outer, outerDone, wake,
           mustCancel, task, discarded, past)
    }

    /** run_blocking and run_native, up to their await. */
    constructor (kind: Kind, cancels: CancelTokens)
      ensures this.kind == kind && this.cancels == cancels
      ensures View() == Started(kind) && CallInv(View())
    {
      this.kind, this.cancels := kind, cancels;
      worker := if kind.Native? then Enter else New;
      token, flag, list, posted, settle := None, false, [], None, Absent;
      inner, consume, innerDone, handOver := Pending, Armed, Armed, Absent;
      outer, outerDone, wake := Pending, Armed, Armed;
      mustCancel, task, discarded := false, Waiting, [];
      past := Past(false, None, 0, false, 0);
    }

    // ---- The call's own thread -------------------------------------------

    method NewToken() returns (h: nat)
      requires CallInv(View()) && worker.New? && cancels.Valid()
      modifies this`worker, this`token, cancels
      ensures cancels.Valid() && h != 0 && h !in old(cancels.table) && token == Some(h)
      ensures WorkerStep(old(View()), WNew(h)) == Some(View())
      ensures cancels.table == TableNext(old(cancels.table), old(View()), WNew(h))
    {
      h := cancels.New();
      token, worker := Some(h), Append;
    }

    method AppendToken()
      requires CallInv(View()) && worker.Append?
      modifies this`worker, this`list
      ensures WorkerStep(old(View()), WAppend) == Some(View())
      ensures token == old(token) && list == [token.value]
    {
      list, worker := list + [token.value], Check;
    }

    method CheckFlag()
      requires worker.Check?
      modifies this`worker
      ensures worker.CancelOwn? <==> flag
      ensures WorkerStep(old(View()), WCheck) == Some(View())
    {
      worker := if flag then CancelOwn else Enter;
    }

    /** macula_cancel of the call's own token. */
    method CancelThrough(h: nat)
      requires cancels.Valid()
      modifies this`past, cancels`table
      ensures cancels.Valid() && cancels.table == CancelToken(old(cancels.table), h)
      ensures past == old(past).(cancels := old(past).cancels + 1, struck := old(past).struck || old(past).frees == 0)
    {
      cancels.Cancel(h);
      past := past.(cancels := past.cancels + 1, struck := past.struck || past.frees == 0);
    }

    method CancelOwnToken()
      requires CallInv(View()) && worker.CancelOwn? && cancels.Valid() && BlockingSystem.Agrees(cancels.table, View())
      modifies this`worker, this`past, cancels`table
      ensures token == old(token) && token.value in cancels.table && cancels.table[token.value] == Token(true, 0)
      ensures cancels.Valid() && WorkerStep(old(View()), WCancel) == Some(View())
      ensures cancels.table == TableNext(old(cancels.table), old(View()), WCancel)
    {
      OwnCancel(cancels.table, View());
      CancelThrough(token.value);
      worker := Enter;
    }

    method EnterCall()
      requires worker.Enter?
      modifies this`worker
      ensures WorkerStep(old(View()), WEnter) == Some(View())
    {
      worker := Inside;
    }

    /** The native call ends; a "cancelled" of its own is looked at again. */
    method CallEnds(o: Outcome<R>)
      requires worker.Inside?
      modifies this`worker, this`past
      ensures WorkerStep(old(View()), WReturn(o)) == Some(View())
    {
      past := past.(native := Some(o));
      if kind.Native? {
        worker := Post(o);
      } else if o.Raises? && o.e.NativeCancelled? {
        worker := Classify(o.e.message);
      } else {
        worker := Free(o);
      }
    }

    method ClassifyCancelled()
      requires worker.Classify?
      modifies this`worker
      ensures WorkerStep(old(View()), WClassify) == Some(View())
      ensures worker == Free(Raises(if flag then NativeCancelled(old(worker).message) else MaculaError(old(worker).message)))
    {
      var message := worker.message;
      if flag {
        worker := Free(Raises(NativeCancelled(message)));
      } else {
        worker := Free(Raises(MaculaError(message)));
      }
    }

    method FreeOwnToken()
      requires CallInv(View()) && worker.Free? && cancels.Valid() && BlockingSystem.Agrees(cancels.table, View())
      modifies this`worker, this`past, cancels`table
      ensures token == old(token) && token.value in cancels.table && cancels.table[token.value] == Token(past.struck, 1)
      ensures cancels.Valid() && WorkerStep(old(View()), WFree) == Some(View())
      ensures cancels.table == TableNext(old(cancels.table), old(View()), WFree)
    {
      cancels.Free(token.value);
      past := past.(frees := past.frees + 1);
      worker := Post(worker.o);
    }

    method PostOutcome()
      requires worker.Post?
      modifies this`worker, this`posted, this`settle
      ensures WorkerStep(old(View()), WPost) == Some(View())
      ensures posted == Some(old(worker).o) && settle.Scheduled?
    {
      posted, settle := Some(worker.o), Scheduled;
      worker := Exited;
    }

    // ---- The event loop --------------------------------------------------

    /** _settle. */
    method RunSettle()
      requires settle.Scheduled? && posted.Some?
      modifies this`settle, this`inner, this`consume, this`innerDone, this`handOver
      ensures LoopStep(old(View()), LSettle) == Some(View())
      ensures old(inner).Pending? ==> inner == Done(posted.value) && !consume.Armed? && !innerDone.Armed? && !handOver.Armed?
      ensures !old(inner).Pending? ==> inner == old(inner)
    {
      if inner.Pending? {
        inner := Done(posted.value);
        consume, innerDone, handOver := Schedule(consume), Schedule(innerDone), Schedule(handOver);
      }
      settle := Ran;
    }

    method RunConsume()
      requires consume.Scheduled?
      modifies this`consume
      ensures LoopStep(old(View()), LConsume) == Some(View())
    {
      consume := Ran;
    }

    /** The shield's callback on the future. */
    method RunInnerDone()
      requires innerDone.Scheduled?
      modifies this`innerDone, this`outer, this`outerDone, this`wake
      ensures LoopStep(old(View()), LInnerDone) == Some(View())
      ensures outer == if old(outer).Pending? then inner else old(outer)
    {
      if outer.Pending? {
        outer := inner;
        outerDone, wake := Schedule(outerDone), Schedule(wake);
      }
      innerDone := Ran;
    }

    /** The shield's callback on itself: nobody needs the future's any more. */
    method RunOuterDone()
      requires outerDone.Scheduled?
      modifies this`outerDone, this`innerDone
      ensures LoopStep(old(View()), LOuterDone) == Some(View())
    {
      outerDone := Ran;
      if inner.Pending? && innerDone.Armed? {
        innerDone := Removed;
      }
    }

    /** hand_over: a result goes to discard, on a thread of its own. */
    method RunHandOver()
      requires handOver.Scheduled?
      modifies this`handOver, this`discarded
      ensures LoopStep(old(View()), LHandOver) == Some(View())
      ensures discarded == old(discarded) + if inner.Done? && inner.o.Result? then [inner.o.r] else []
    {
      handOver := Ran;
      if inner.Done? && inner.o.Result? {
        discarded := discarded + [inner.o.r];
      } else {
        assert discarded + [] == discarded;
      }
    }

    /** The task's step out of the await. */
    method Wake()
      requires wake.Scheduled? && task.Waiting?
      modifies this`task, this`wake, this`mustCancel
      ensures LoopStep(old(View()), LWake) == Some(View())
      ensures old(mustCancel) || !outer.Done? <==> task.EndCheck? || (task.CancelledOut? && kind.Native?)
      ensures !old(mustCancel) && outer.Done? && outer.o.Result? ==> task == Returned(outer.o.r)
    {
      if mustCancel || !outer.Done? {
        task := if kind.Native? then CancelledOut else EndCheck;
      } else {
        match outer.o {
          case Result(r) => task := Returned(r);
          case Raises(e) =>
            if kind.Blocking? && e.NativeCancelled? {
              task := CancelledOut;
            } else {
              task := Raised(e);
            }
        }
      }
      wake, mustCancel := Ran, false;
    }

    // ---- _end_the_call, the worker running between its lines --------------

    method EndCheckDone()
      requires task.EndCheck?
      modifies this`task
      ensures EndStep(old(View()), LEndCheck) == Some(View())
      ensures task.EndSet? <==> inner.Pending?
    {
      task := if inner.Pending? then EndSet else EndRegister;
    }

    method EndSetFlag()
      requires task.EndSet?
      modifies this`task, this`flag
      ensures EndStep(old(View()), LEndSet) == Some(View())
      ensures flag && task.EndRead?
    {
      flag := true;
      task := EndRead;
    }

    method EndReadToken()
      requires task.EndRead?
      modifies this`task
      ensures EndStep(old(View()), LEndRead) == Some(View())
      ensures task == if list == [] then EndRegister else EndCancel(list[0])
    {
      if list == [] {
        task := EndRegister;
      } else {
        task := EndCancel(list[0]);
      }
    }

    method EndCancelToken()
      requires CallInv(View()) && task.EndCancel? && cancels.Valid() && BlockingSystem.Agrees(cancels.table, View())
      modifies this`task, this`past, cancels`table
      ensures token == old(token) && token.Some? && token.value in cancels.table
      ensures cancels.table[token.value] == if past.frees == 0 then Token(true, 0) else old(cancels.table)[token.value]
      ensures cancels.Valid() && EndStep(old(View()), LEndCancel) == Some(View())
      ensures cancels.table == TableNext(old(cancels.table), old(View()), LEndCancel)
    {
      OwnCancel(cancels.table, View());
      CancelThrough(task.h);
      task := EndRegister;
    }

    method EndRegisterDiscard()
      requires task.EndRegister?
      modifies this`task, this`handOver
      ensures EndStep(old(View()), LEndRegister) == Some(View())
      ensures task.CancelledOut? && (kind == Blocking(true) ==> handOver == if inner.Pending? then Armed else Scheduled)
    {
      if kind == Blocking(true) {
        handOver := if inner.Pending? then Armed else Scheduled;
      }
      task := CancelledOut;
    }

    // ---- Whoever cancels the task ----------------------------------------

    method CancelTheTask()
      requires task.Waiting?
      modifies this`outer, this`outerDone, this`wake, this`mustCancel, this`past
      ensures CancelTask(old(View())) == Some(View())
      ensures past == old(past).(asked := true)
      ensures if old(outer).Pending? then outer.Cancelled? else mustCancel && outer == old(outer)
    {
      past := past.(asked := true);
      if outer.Pending? {
        outer := Cancelled;
        outerDone, wake := Schedule(outerDone), Schedule(wake);
      } else {
        mustCancel := true;
      }
    }
  }
}
