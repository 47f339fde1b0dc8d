/** What an item's text does to a served procedure, down to its characters. */
module ServingTexts {
  import opened Options
  import Blocking
  import CallSpec
  import Handlers
  import opened Serving
  import opened ServingInvariant
  import opened ServingLaws
  import J = Json
  import JsonGrammar
  import Machines
  import Wire
  import WireDecoding
  import WireLaws

  /** How an item's text reads, to the pump. */
  function ReadingOf(text: string): Reading {
    match Wire.DecodePayload(text)
    case None => Unreadable
    case Some(value) => if value.Null? then NullItem else Request
  }

  function TookOf(h: nat, text: string): Took {
    Item(h, ReadingOf(text))
  }

  /** It spells a value, with no "$bytes" tag in it that spells no bytes. */
  ghost predicate IsReadable(text: string) {
    exists j :: JsonGrammar.Spells(text, j) && !WireDecoding.HasBadTag(j)
  }

  lemma ReadingIs(text: string)
    ensures ReadingOf(text).Unreadable? <==> !IsReadable(text)
    ensures ReadingOf(text).NullItem? <==> JsonGrammar.Spells(text, J.Null)
  {
    WireDecoding.Decodes(text);
  }

  /** The wait's native call has come back with this item. */
  function Given(s: Served, took: Took): Served {
    s.(wait := s.wait.(native := Some(Blocking.Result(took))))
  }

  /** Which text does what at the pump's turn: one that is not JSON, or has a
      "$bytes" tag in it that spells no bytes, ends serving, and its item is
      dropped; null drops its item and serving goes on; any other is
      dispatched. */
  lemma TextDecides(s: Served, h: nat, text: string)
    requires s.pump.Pumping? && !s.pumpAsked && s.ready == [PumpTurn]
    ensures LoopStep(Given(s, TookOf(h, text))).Some?
    ensures var t := LoopStep(Given(s, TookOf(h, text))).value;
            if !IsReadable(text) then
              t.pump.Over? && t.jobs == s.jobs && t.items.dropped == s.items.dropped + [h] && t.failure == (s.failure || s.handle)
            else if JsonGrammar.Spells(text, J.Null) then
              t.pump.Pumping? && t.jobs == s.jobs && t.items.dropped == s.items.dropped + [h] && t.failure == s.failure
            else
              t.pump.Pumping? && t.jobs == s.jobs + [Job(h, Handlers.Fresh(s.streams))] && t.items == s.items && t.failure == s.failure
  {
    ReadingIs(text);
    TurnTakesItem(Given(s, TookOf(h, text)), TookOf(h, text));
  }

  lemma TurnTakesItem(s: Served, took: Took)
    requires s.pump.Pumping? && !s.pumpAsked && s.ready == [PumpTurn] && took.Item? && s.wait.native == Some(Blocking.Result(took))
    ensures LoopStep(s).Some?
    ensures var t := LoopStep(s).value;
            match took.reading
            case Unreadable => t.pump.Over? && t.jobs == s.jobs && t.items.dropped == s.items.dropped + [took.h]
                               && t.failure == (s.failure || s.handle)
            case NullItem => t.pump.Pumping? && t.jobs == s.jobs && t.items.dropped == s.items.dropped + [took.h]
                             && t.failure == s.failure
            case Request => t.pump.Pumping? && t.jobs == s.jobs + [Job(took.h, Handlers.Fresh(s.streams))]
                            && t.items == s.items && t.failure == s.failure
  {
  }

  // ---- A run that drops its item -----------------------------------------

  function Waiting(streams: bool): Served {
    Opened(streams).(pump := Pumping, ready := [])
  }

  function Landed(streams: bool, took: Took): Served
    requires took.Item?
  {
    Waiting(streams).(wait := CallSpec.Spec(Some(Blocking.Result(took)), CallSpec.Awaiting), items := Items([took.h], [], [], 0))
  }

  function AtTurn(streams: bool, took: Took): Served
    requires took.Item?
  {
    Landed(streams, took).(ready := [PumpTurn])
  }

  lemma TurnRun(streams: bool, took: Took)
    requires took.Item?
    ensures Machines.Run(Next, Opened(streams), [LoopTurn, NativeEnds(Blocking.Result(took))]) == Some(Landed(streams, took))
  {
    assert Opened(streams).ready[1..] == [];
    assert [] + [took.h] == [took.h];
    Machines.RunTwo(Next, Opened(streams), LoopTurn, Waiting(streams), NativeEnds(Blocking.Result(took)), Landed(streams, took));
  }

  function DroppingSchedule(took: Took): seq<Action> {
    [LoopTurn, NativeEnds(Blocking.Result(took))] + [WaitLands, LoopTurn]
  }

  lemma DroppedEnd(streams: bool, took: Took)
    requires took.Item?
    ensures Machines.Run(Next, Opened(streams), DroppingSchedule(took)) == LoopStep(AtTurn(streams, took))
    ensures LoopStep(AtTurn(streams, took)).Some?
  {
    TurnRun(streams, took);
    assert Landed(streams, took).ready + [PumpTurn] == [PumpTurn];
    TurnTakesItem(AtTurn(streams, took), took);
    Machines.RunTwo(Next, Landed(streams, took), WaitLands, AtTurn(streams, took), LoopTurn,
                    LoopStep(AtTurn(streams, took)).value);
    Machines.RunAppend(Next, Opened(streams), [LoopTurn, NativeEnds(Blocking.Result(took))], [WaitLands, LoopTurn]);
  }

  /** It does happen, by a request with a bad tag: its item is taken from the
      inbox, dispatched to no handler, released by nobody and settled by nobody,
      and the procedure serves no more. */
  lemma DropHappens(streams: bool, h: nat)
    ensures exists text, schedule ::
              && ReadingOf(text).Unreadable? && schedule == DroppingSchedule(TookOf(h, text))
              && Machines.Run(Next, Opened(streams), schedule).Some?
              && var s := Machines.Run(Next, Opened(streams), schedule).value;
                 && h in s.items.taken && h in s.items.dropped && s.jobs == [] && s.items.released == []
                 && h !in s.library.answers && s.pump.Over? && s.failure
  {
    WireLaws.BareTagIsLost();
    var text :| Wire.EncodePayload(WireLaws.BareTag("?")) == Ok(text) && Wire.DecodePayload(text) == None;
    var took := TookOf(h, text);
    DroppedEnd(streams, took);
    UnreadableEnd(streams, h);
    assert took == Item(h, Unreadable);
    assert Machines.Run(Next, Opened(streams), DroppingSchedule(TookOf(h, text))).Some?;
  }

  lemma UnreadableEnd(streams: bool, h: nat)
    ensures LoopStep(AtTurn(streams, Item(h, Unreadable))).Some?
    ensures var s := LoopStep(AtTurn(streams, Item(h, Unreadable))).value;
            && s.items == Items([h], [], [h], 1) && s.jobs == [] && s.library == Ledger(0, false, map[]) && s.pump.Over? && s.failure
  {
    assert [] + [h] == [h];
  }
}
