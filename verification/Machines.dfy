/** Runs of a machine given by its atomic steps, and what an invariant of every
    step says of them. */
module Machines {
  import opened Options

  /** Every action of a schedule in turn, when each could be taken. */
  function Run<S, A>(step: (S, A) -> Option<S>, s: S, schedule: seq<A>): Option<S>
    decreases |schedule|
  {
    if |schedule| == 0 then Some(s)
    else
      match step(s, schedule[0])
      case None => None
      case Some(t) => Run(step, t, schedule[1..])
  }

  ghost predicate Inductive<S(!new), A(!new)>(step: (S, A) -> Option<S>, inv: S -> bool) {
    forall s: S, a: A :: inv(s) && step(s, a).Some? ==> inv(step(s, a).value)
  }

  lemma {:induction false} RunKeeps<S(!new), A(!new)>(step: (S, A) -> Option<S>, inv: S -> bool, s: S, schedule: seq<A>)
    requires Inductive(step, inv) && inv(s) && Run(step, s, schedule).Some?
    ensures inv(Run(step, s, schedule).value)
    decreases |schedule|
  {
    if |schedule| > 0 {
      RunKeeps(step, inv, step(s, schedule[0]).value, schedule[1..]);
    }
  }

  lemma {:induction false} RunAppend<S, A>(step: (S, A) -> Option<S>, s: S, before: seq<A>, after: seq<A>)
    ensures Run(step, s, before + after) ==
            match Run(step, s, before) { case None => None case Some(t) => Run(step, t, after) }
    decreases |before|
  {
    if |before| == 0 {
      assert before + after == after;
    } else {
      assert (before + after)[1..] == before[1..] + after;
      match step(s, before[0])
      case None =>
      case Some(t) => RunAppend(step, t, before[1..], after);
    }
  }

  lemma RunOn<S, A>(step: (S, A) -> Option<S>, s: S, schedule: seq<A>, k: nat)
    requires k <= |schedule| && Run(step, s, schedule).Some?
    ensures Run(step, s, schedule[..k]).Some?
    ensures Run(step, Run(step, s, schedule[..k]).value, schedule[k..]) == Run(step, s, schedule)
  {
    RunAppend(step, s, schedule[..k], schedule[k..]);
    assert schedule[..k] + schedule[k..] == schedule;
  }

  /** The action at k, taken in a state without p, leads to one with it. */
  ghost predicate TurnsAt<S, A>(step: (S, A) -> Option<S>, p: S -> bool, s: S, schedule: seq<A>, k: nat) {
    && k < |schedule| && Run(step, s, schedule[..k]).Some?
    && var t := Run(step, s, schedule[..k]).value;
       !p(t) && step(t, schedule[k]).Some? && p(step(t, schedule[k]).value)
  }

  /** Whatever was not so at the start of a run and is so at its end was brought
      about by one of its steps. */
  lemma {:induction false} TurningPoint<S, A>(step: (S, A) -> Option<S>, p: S -> bool, s: S, schedule: seq<A>)
    requires !p(s) && Run(step, s, schedule).Some? && p(Run(step, s, schedule).value)
    ensures exists k: nat :: TurnsAt(step, p, s, schedule, k)
    decreases |schedule|
  {
    var last := |schedule| - 1;
    RunOn(step, s, schedule, last);
    assert schedule[last..] == [schedule[last]];
    assert schedule[last..][1..] == [];
    if p(Run(step, s, schedule[..last]).value) {
      TurningPoint(step, p, s, schedule[..last]);
      var k: nat :| TurnsAt(step, p, s, schedule[..last], k);
      assert schedule[..last][..k] == schedule[..k];
      assert TurnsAt(step, p, s, schedule, k);
    } else {
      assert TurnsAt(step, p, s, schedule, last);
    }
  }

  lemma RunTwo<S, A>(step: (S, A) -> Option<S>, s: S, a: A, t: S, b: A, u: S)
    requires step(s, a) == Some(t) && step(t, b) == Some(u)
    ensures Run(step, s, [a, b]) == Some(u)
  {
    assert [a, b][1..] == [b] && [b][1..] == [];
    assert Run(step, t, [b]) == Run(step, u, []);
  }
}
