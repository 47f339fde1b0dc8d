/** Any number of concurrent calls over one token table: what every reachable
    state satisfies. */
module BlockingSystem {
  import opened Options
  import opened Blocking
  import opened BlockingInvariant
  import Machines

  predicate Owns<R>(s: Sys<R>, id: nat, h: nat) {
    id in s.calls && s.calls[id].token == Some(h)
  }

  /** The table agrees with what the calls have done to their own tokens. */
  ghost predicate TokensAgree<R>(s: Sys<R>) {
    && (forall id, h :: Owns(s, id, h) ==> h in s.table && s.table[h] == Token(s.calls[id].past.struck, s.calls[id].past.frees))
    && (forall h :: h in s.table ==> exists id :: Owns(s, id, h))
    && (forall id, other, h :: Owns(s, id, h) && Owns(s, other, h) ==> id == other)
  }

  ghost predicate SysInv<R>(s: Sys<R>) {
    && (forall id :: id in s.calls ==> CallInv(s.calls[id]))
    && TurnInv(s)
    && TokensAgree(s)
  }

  /** Some interleaving of the steps of some calls leads here. */
  ghost predicate Reachable<R(!new)>(s: Sys<R>) {
    exists schedule: seq<SysAction<R>> :: Machines.Run(SysNext, Init(), schedule) == Some(s)
  }

  // ---- Tokens ------------------------------------------------------------

  predicate TouchesToken<R>(a: Action<R>) {
    a.WNew? || a.WCancel? || a.WFree? || a.LEndCancel?
  }

  lemma TokenUntouched<R>(table: Table, c: Call<R>, a: Action<R>)
    requires Next(c, a).Some? && !TouchesToken(a)
    ensures TableNext(table, c, a) == table
    ensures Next(c, a).value.token == c.token && Next(c, a).value.past.struck == c.past.struck && Next(c, a).value.past.frees == c.past.frees
  {
    if IsWorker(a) { WorkerUntouched(c, a); } else if IsEnd(a) { EndUntouched(c, a); }
  }

  lemma WorkerUntouched<R>(c: Call<R>, a: Action<R>)
    requires IsWorker(a) && !TouchesToken(a) && WorkerStep(c, a).Some?
    ensures var d := WorkerStep(c, a).value; d.token == c.token && d.past.struck == c.past.struck && d.past.frees == c.past.frees
  {
  }

  lemma EndUntouched<R>(c: Call<R>, a: Action<R>)
    requires IsEnd(a) && !TouchesToken(a) && EndStep(c, a).Some?
    ensures var d := EndStep(c, a).value; d.token == c.token && d.past.struck == c.past.struck && d.past.frees == c.past.frees
  {
  }

  /** The entry of h moves from c's account of it to d's, and nothing else in
      the table moves. */
  ghost predicate TableMoves<R>(table: Table, c: Call<R>, t: Table, d: Call<R>) {
    && (c.token.Some? ==> d.token == c.token)
    && (c.token.None? && d.token.Some? ==> d.token.value !in table)
    && (d.token.Some? ==> d.token.value in t && t[d.token.value] == Token(d.past.struck, d.past.frees))
    && (forall h :: h in table && c.token != Some(h) ==> h in t && t[h] == table[h])
    && (forall h :: h in t ==> h in table || d.token == Some(h))
  }

  /** The table's entry for the call's own token says what the call did to it. */
  ghost predicate Agrees<R>(table: Table, c: Call<R>) {
    c.token.Some? ==> c.token.value in table && table[c.token.value] == Token(c.past.struck, c.past.frees)
  }

  /** A step touches the call's own token and no other. */
  lemma OnlyOwnToken<R>(table: Table, c: Call<R>, a: Action<R>)
    requires CallInv(c) && Next(c, a).Some? && (a.WNew? ==> a.h !in table)
    requires Agrees(table, c)
    ensures TableMoves(table, c, TableNext(table, c, a), Next(c, a).value)
  {
    if !TouchesToken(a) {
      TokenUntouched(table, c, a);
    } else if a.WNew? {
      NewToken(table, c, a.h);
    } else if a.WFree? {
      FreedToken(table, c);
    } else {
      StruckToken(table, c, a);
    }
  }

  lemma NewToken<R>(table: Table, c: Call<R>, h: nat)
    requires CallInv(c) && WorkerStep(c, WNew(h)).Some? && h !in table
    ensures TableMoves(table, c, TableNext(table, c, WNew(h)), WorkerStep(c, WNew(h)).value)
  {
    assert c.past.cancels == 0 && !c.past.struck && c.past.frees == 0;
  }

  lemma FreedToken<R>(table: Table, c: Call<R>)
    requires CallInv(c) && WorkerStep(c, WFree).Some?
    requires Agrees(table, c)
    ensures TableMoves(table, c, TableNext(table, c, WFree), WorkerStep(c, WFree).value)
  {
  }

  lemma StruckToken<R>(table: Table, c: Call<R>, a: Action<R>)
    requires CallInv(c) && Next(c, a).Some? && (a.WCancel? || a.LEndCancel?)
    requires Agrees(table, c)
    ensures TableMoves(table, c, TableNext(table, c, a), Next(c, a).value)
  {
    var d := Next(c, a).value;
    assert c.token.Some? && d.token == c.token && d.past.frees == c.past.frees && d.past.struck == (c.past.struck || c.past.frees == 0);
    assert TableNext(table, c, a) == CancelToken(table, c.token.value);
  }

  lemma TokensMove<R>(s: Sys<R>, id: nat, table: Table, d: Call<R>, running: Option<nat>)
    requires TokensAgree(s) && id in s.calls && TableMoves(s.table, s.calls[id], table, d)
    ensures TokensAgree(Sys(table, s.calls[id := d], running))
  {
    var t := Sys(table, s.calls[id := d], running);
    var c := s.calls[id];
    forall other, h | Owns(t, other, h) ensures h in t.table && t.table[h] == Token(t.calls[other].past.struck, t.calls[other].past.frees) {
      if other != id {
        assert Owns(s, other, h);
        assert Owns(s, id, h) ==> id == other;
      }
    }
    forall h | h in t.table ensures exists k :: Owns(t, k, h) {
      if d.token == Some(h) {
        assert Owns(t, id, h);
      } else {
        var k :| Owns(s, k, h);
        assert Owns(t, k, h);
      }
    }
    forall k, other, h | Owns(t, k, h) && Owns(t, other, h) ensures k == other {
      if k != id { assert Owns(s, k, h); }
      if other != id { assert Owns(s, other, h); }
      if c.token.Some? { assert Owns(s, id, c.token.value); }
    }
  }

  // ---- The loop's turn ---------------------------------------------------

  lemma TurnStep<R>(c: Call<R>, a: Action<R>)
    requires CallInv(c) && Next(c, a).Some?
    ensures IsWorker(a) ==> Next(c, a).value.task == c.task
    ensures IsEnd(a) ==> Ending(c.task) && (Ending(Next(c, a).value.task) <==> !a.LEndRegister?) && !Next(c, a).value.task.EndCheck?
    ensures !IsWorker(a) && !IsEnd(a) && !Ending(c.task) ==> (Ending(Next(c, a).value.task) <==> Next(c, a).value.task.EndCheck?)
  {
  }

  ghost predicate TurnInv<R>(s: Sys<R>) {
    && (forall id :: id in s.calls ==> (Ending(s.calls[id].task) <==> s.running == Some(id)))
    && (s.running.Some? ==> s.running.value in s.calls)
  }

  lemma TurnMoves<R>(s: Sys<R>, id: nat, a: Action<R>, d: Call<R>, table: Table)
    requires TurnInv(s) && id in s.calls && CallInv(s.calls[id]) && May(s, id, a) && Next(s.calls[id], a) == Some(d)
    ensures TurnInv(Sys(table, s.calls[id := d], RunningNext(s, id, a, d)))
  {
    TurnStep(s.calls[id], a);
    TurnPasses(s, id, d, RunningNext(s, id, a, d), table);
  }

  lemma TurnPasses<R>(s: Sys<R>, id: nat, d: Call<R>, running: Option<nat>, table: Table)
    requires TurnInv(s) && id in s.calls && (Ending(d.task) <==> running == Some(id))
    requires running == s.running || (s.running in {None, Some(id)} && running in {None, Some(id)})
    ensures TurnInv(Sys(table, s.calls[id := d], running))
  {
  }

  // ---- Every reachable state ---------------------------------------------

  lemma OwnEntry<R>(s: Sys<R>, id: nat)
    requires TokensAgree(s) && id in s.calls
    ensures Agrees(s.table, s.calls[id])
  {
    if s.calls[id].token.Some? { assert Owns(s, id, s.calls[id].token.value); }
  }

  lemma ActKeeps<R>(s: Sys<R>, id: nat, a: Action<R>, d: Call<R>)
    requires SysInv(s) && id in s.calls && May(s, id, a) && Next(s.calls[id], a) == Some(d)
    ensures SysInv(Sys(TableNext(s.table, s.calls[id], a), s.calls[id := d], RunningNext(s, id, a, d)))
  {
    var table := TableNext(s.table, s.calls[id], a);
    StepKeeps(s.calls[id], a);
    OwnEntry(s, id);
    OnlyOwnToken(s.table, s.calls[id], a);
    TokensMove(s, id, table, d, RunningNext(s, id, a, d));
    TurnMoves(s, id, a, d, table);
  }

  lemma StartKeeps<R>(s: Sys<R>, id: nat, kind: Kind)
    requires SysInv(s) && SysNext(s, Start(id, kind)).Some?
    ensures SysInv(SysNext(s, Start(id, kind)).value)
  {
    StartedInv<R>(kind);
    StartTokens(s, id, kind);
  }

  lemma StartTokens<R>(s: Sys<R>, id: nat, kind: Kind)
    requires TokensAgree(s) && id !in s.calls
    ensures TokensAgree(s.(calls := s.calls[id := Started(kind)]))
  {
    var t := s.(calls := s.calls[id := Started(kind)]);
    forall h | h in t.table ensures exists k :: Owns(t, k, h) {
      var k :| Owns(s, k, h);
      assert Owns(t, k, h);
    }
    assert forall k, h :: Owns(t, k, h) ==> Owns(s, k, h);
  }

  /** Every step of any number of concurrent calls keeps the invariant. */
  lemma SysKeeps<R>(s: Sys<R>, sa: SysAction<R>)
    requires SysInv(s) && SysNext(s, sa).Some?
    ensures SysInv(SysNext(s, sa).value)
  {
    match sa
    case Start(id, kind) => StartKeeps(s, id, kind);
    case Act(id, a) => ActKeeps(s, id, a, Next(s.calls[id], a).value);
  }

  lemma ReachableInv<R(!new)>(s: Sys<R>)
    requires Reachable(s)
    ensures SysInv(s)
  {
    var schedule: seq<SysAction<R>> :| Machines.Run(SysNext, Init(), schedule) == Some(s);
    forall t: Sys<R>, sa: SysAction<R> | SysInv(t) && SysNext(t, sa).Some? ensures SysInv(SysNext(t, sa).value) {
      SysKeeps(t, sa);
    }
    Machines.RunKeeps(SysNext, SysInv, Init(), schedule);
  }
}
