/** A subscription's object: one event at a time, every event until it ends, and
    its stop(). */
module Subscriptions {
  import opened Options

  /** What one macula_subscription_next gives while the inbox is not ended. */
  datatype Item<E> = Event(e: E) | TimedOut | Fails(code: nat)

  /** The library's inbox: what its next calls give, in order, and then, drained,
      the end, again and again. */
  class Inbox<E> {
    var rest: seq<Item<E>>
    var stops: seq<nat>

    constructor (items: seq<Item<E>>)
      ensures rest == items && stops == []
    {
      rest, stops := items, [];
    }

    method Take() returns (item: Option<Item<E>>)
      modifies this`rest
      ensures old(rest) == [] ==> item == None && rest == []
      ensures old(rest) != [] ==> item == Some(old(rest)[0]) && rest == old(rest)[1..]
    {
      if rest == [] {
        item := None;
      } else {
        item, rest := Some(rest[0]), rest[1..];
      }
    }

    /** macula_subscription_stop. */
    method Stop(h: nat)
      modifies this`stops
      ensures stops == old(stops) + [h]
    {
      stops := stops + [h];
    }
  }

  datatype Error = Closed | Native(code: nat)

  datatype End = Ended | Raised(e: Error)

  /** Every event the inbox still has. */
  function Events<E>(items: seq<Item<E>>): seq<E> {
    if |items| == 0 then []
    else (if items[0].Event? then [items[0].e] else []) + Events(items[1..])
  }

  /** How many items come before the first error, it included. */
  function UpToError<E>(items: seq<Item<E>>): (n: nat)
    ensures n <= |items|
  {
    if |items| == 0 then 0 else if items[0].Fails? then 1 else 1 + UpToError(items[1..])
  }

  predicate NoError<E>(items: seq<Item<E>>) {
    forall i :: 0 <= i < |items| ==> !items[i].Fails?
  }

  class Subscription<E> {
    const inbox: Inbox<E>
    var handle: Option<nat>
    var closed: bool

    /** closed is True only once every event was taken. */
    ghost predicate Valid()
      reads this, inbox
    {
      closed ==> inbox.rest == []
    }

    constructor (inbox: Inbox<E>, handle: nat)
      ensures Valid() && this.inbox == inbox && this.handle == Some(handle) && !closed
    {
      this.inbox, this.handle, closed := inbox, Some(handle), false;
    }

    /** next(): an event, or nothing in time or at the end, which closed tells
        apart; a stopped subscription's inbox is not touched. */
    method Next() returns (r: Result<Option<E>, Error>)
      requires Valid()
      modifies this`closed, inbox`rest
      ensures Valid() && (old(closed) ==> closed)
      ensures handle.None? ==> r == Err(Closed) && inbox.rest == old(inbox.rest) && closed == old(closed)
      ensures handle.Some? && old(inbox.rest) == [] ==> r == Ok(None) && closed && inbox.rest == []
      ensures handle.Some? && old(inbox.rest) != [] ==>
                && closed == old(closed) && inbox.rest == old(inbox.rest)[1..]
                && r == match old(inbox.rest)[0] case Event(e) => Ok(Some(e)) case TimedOut => Ok(None) case Fails(code) => Err(Native(code))
    {
      if handle.None? {
        return Err(Closed);
      }
      var item := inbox.Take();
      match item {
        case None =>
          closed := true;
          r := Ok(None);
        case Some(Event(e)) => r := Ok(Some(e));
        case Some(TimedOut) => r := Ok(None);
        case Some(Fails(code)) => r := Err(Native(code));
      }
    }

    /** __anext__: waits past what timed out, to the next event, the end, or an
        error. */
    method Advance() returns (r: Result<Option<E>, Error>)
      requires Valid()
      modifies this`closed, inbox`rest
      ensures Valid()
      ensures handle.None? ==> r == Err(Closed) && inbox.rest == old(inbox.rest)
      ensures r.Ok? && r.value.Some? ==> Events(old(inbox.rest)) == [r.value.value] + Events(inbox.rest)
      ensures !(r.Ok? && r.value.Some?) ==> Events(old(inbox.rest)) == Events(inbox.rest)
      ensures handle.Some? ==> |inbox.rest| + UpToError(old(inbox.rest)) ==
                               |old(inbox.rest)| + if r.Err? then 0 else UpToError(inbox.rest)
      ensures handle.Some? && r.Err? ==> r.error.Native? && !NoError(old(inbox.rest))
      ensures r.Ok? && r.value.None? ==> closed && inbox.rest == [] && NoError(old(inbox.rest))
      ensures r.Ok? ==> (NoError(inbox.rest) <==> NoError(old(inbox.rest)))
      ensures r.Ok? && r.value.Some? ==> |inbox.rest| < |old(inbox.rest)|
    {
      ghost var start := inbox.rest;
      while true
        invariant Valid() && Events(start) == Events(inbox.rest)
        invariant handle.None? ==> inbox.rest == start
        invariant |inbox.rest| <= |start| && |inbox.rest| + UpToError(start) == |start| + UpToError(inbox.rest)
        invariant NoError(inbox.rest) <==> NoError(start)
        decreases |inbox.rest|
      {
        ghost var before := inbox.rest;
        var next := Next();
        if before != [] && handle.Some? { NoErrorTail(before); }
        if next.Err? || next.value.Some? {
          return next;
        }
        if closed {
          return Ok(None);
        }
      }
    }

    /** async for, to its end: without an error, every event that was left, in
        order, none lost and none made up, and then closed; with one, every event
        before it, the rest still in the inbox for whoever iterates again. */
    method Drain() returns (events: seq<E>, end: End)
      requires Valid()
      modifies this`closed, inbox`rest
      ensures Valid()
      ensures Events(old(inbox.rest)) == events + Events(inbox.rest)
      ensures handle.None? ==> events == [] && end == Raised(Closed) && inbox.rest == old(inbox.rest)
      ensures handle.Some? ==> (end.Ended? <==> NoError(old(inbox.rest)))
      ensures handle.Some? ==> |inbox.rest| == |old(inbox.rest)| - UpToError(old(inbox.rest))
      ensures end.Ended? ==> closed && events == Events(old(inbox.rest))
    {
      events := [];
      ghost var start := inbox.rest;
      assert Events(start) == events + Events(inbox.rest);
      while true
        invariant Valid() && Events(start) == events + Events(inbox.rest)
        invariant handle.None? ==> inbox.rest == start && events == []
        invariant NoError(inbox.rest) <==> NoError(start)
        invariant |inbox.rest| + UpToError(start) == |start| + UpToError(inbox.rest)
        decreases |inbox.rest|
      {
        ghost var before := inbox.rest;
        var next := Advance();
        if next.Err? {
          return events, Raised(next.error);
        }
        if next.value.None? {
          assert events + [] == events;
          return events, Ended;
        }
        ghost var soFar := events;
        events := events + [next.value.value];
        assert soFar + ([next.value.value] + Events(inbox.rest)) == events + Events(inbox.rest);
      }
    }

    /** stop(): the library is told once, whoever else stops it. */
    method Stop()
      requires Valid()
      modifies this`handle, inbox`stops
      ensures Valid() && handle == None
      ensures inbox.stops == old(inbox.stops) + if old(handle).Some? then [old(handle).value] else []
    {
      if handle.Some? {
        var h := handle.value;
        handle := None;
        inbox.Stop(h);
      }
    }
  }

  lemma NoErrorTail<E>(items: seq<Item<E>>)
    requires items != []
    ensures NoError(items) <==> !items[0].Fails? && NoError(items[1..])
  {
    if !items[0].Fails? && NoError(items[1..]) {
      forall i | 0 <= i < |items| ensures !items[i].Fails? {
        if i > 0 { assert items[1..][i - 1] == items[i]; }
      }
    }
  }

  /** An inbox without errors gives everything up to its end. */
  lemma {:induction false} AllUpToError<E>(items: seq<Item<E>>)
    ensures NoError(items) ==> UpToError(items) == |items|
    ensures !NoError(items) ==> UpToError(items) > 0 && items[UpToError(items) - 1].Fails? && NoError(items[..UpToError(items) - 1])
  {
    if |items| > 0 {
      NoErrorTail(items);
      AllUpToError(items[1..]);
    }
  }
}
