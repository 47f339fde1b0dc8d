/** The library's buffers: strings and bytes it hands over, copied and then
    given back. A buffer can be read or freed only while it is live, so that
    these methods verify at all says none is read after its free or freed
    twice. */
module NativeMemory {
  import opened Options

  type Byte = b: int | 0 <= b < 256
  type Bytes = seq<Byte>

  const NULL: nat := 0

  /** What one native call leaves behind: the error it may set, and the buffer
      it may return. Nothing is a NULL. */
  datatype Handed = Handed(error: Option<Bytes>, value: Option<Bytes>)

  datatype Failure<T> = NativeError(text: T) | NotUtf8

  /** How the taken buffer is read. */
  datatype Taking = AsString | AsBytes

  datatype Taken<T> = Nothing | Text(t: T) | Raw(b: Bytes)

  class Memory {
    var live: map<nat, Bytes>
    var next: nat

    ghost predicate Valid()
      reads this
    {
      next > NULL && forall a :: a in live ==> NULL < a < next
    }

    constructor ()
      ensures Valid() && live == map[]
    {
      live, next := map[], 1;
    }

    /** The library allocates what it hands over; nothing is NULL. */
    method Hand(b: Option<Bytes>) returns (a: nat)
      requires Valid()
      modifies this
      ensures Valid() && a !in old(live)
      ensures if b.Some? then a != NULL && live == old(live)[a := b.value] else a == NULL && live == old(live)
    {
      if b.None? {
        a := NULL;
      } else {
        a := next;
        live, next := live[a := b.value], next + 1;
      }
    }

    function At(a: nat): Bytes
      requires a in live
      reads this
    {
      live[a]
    }

    method Free(a: nat)
      requires Valid() && a in live
      modifies this`live
      ensures Valid() && live == old(live) - {a}
    {
      live := live - {a};
    }
  }

  /** Text is whatever a decoder makes of bytes: strict refuses some, replacing
      takes all. */
  class Native<T> {
    const memory: Memory
    const strict: Bytes -> Option<T>
    const replacing: Bytes -> T

    constructor (memory: Memory, strict: Bytes -> Option<T>, replacing: Bytes -> T)
      ensures this.memory == memory && this.strict == strict && this.replacing == replacing
    {
      this.memory, this.strict, this.replacing := memory, strict, replacing;
    }

    /** invoke: an error's text is copied, freed and raised; otherwise the
        result goes to the caller, its buffer still live. */
    method Invoke(handed: Handed) returns (r: Result<nat, Failure<T>>)
      requires memory.Valid()
      modifies memory
      ensures memory.Valid()
      ensures r.Err? <==> handed.error.Some?
      ensures r.Err? ==> r.error == NativeError(replacing(handed.error.value))
      ensures r.Err? && handed.value.None? ==> memory.live == old(memory.live)
      ensures r.Err? && handed.value.Some? ==>
                exists a: nat :: a !in old(memory.live) && memory.live == old(memory.live)[a := handed.value.value]
      ensures r.Ok? ==> r.value !in old(memory.live)
      ensures r.Ok? && handed.value.None? ==> r.value == NULL && memory.live == old(memory.live)
      ensures r.Ok? && handed.value.Some? ==> r.value != NULL && memory.live == old(memory.live)[r.value := handed.value.value]
    {
      var result := memory.Hand(handed.value);
      var err := memory.Hand(handed.error);
      if err != NULL {
        var text := replacing(memory.At(err));
        memory.Free(err);
        assert memory.live == old(memory.live) + if handed.value.Some? then map[result := handed.value.value] else map[];
        r := Err(NativeError(text));
      } else {
        r := Ok(result);
      }
    }

    /** take_string: the copy is made, or found not to be UTF-8, and the buffer
        is freed either way. */
    method TakeString(address: nat) returns (r: Result<Taken<T>, Failure<T>>)
      requires memory.Valid() && (address != NULL ==> address in memory.live)
      modifies memory
      ensures memory.Valid() && memory.live == old(memory.live) - {address}
      ensures address == NULL ==> r == Ok(Nothing)
      ensures address != NULL ==>
                var b := old(memory.live)[address];
                && (strict(b).Some? ==> r == Ok(Text(strict(b).value)))
                && (strict(b).None? ==> r == Err(NotUtf8))
    {
      if address == NULL {
        assert NULL !in memory.live;
        return Ok(Nothing);
      }
      var text := strict(memory.At(address));
      memory.Free(address);
      r := if text.Some? then Ok(Text(text.value)) else Err(NotUtf8);
    }

    method TakeBytes(address: nat) returns (r: Result<Taken<T>, Failure<T>>)
      requires memory.Valid() && (address != NULL ==> address in memory.live)
      modifies memory
      ensures memory.Valid() && memory.live == old(memory.live) - {address}
      ensures r == Ok(Raw(if address == NULL then [] else old(memory.live)[address]))
    {
      if address == NULL {
        assert NULL !in memory.live;
        return Ok(Raw([]));
      }
      var copy := memory.At(address);
      memory.Free(address);
      r := Ok(Raw(copy));
    }

    /** What a caller gets for a call: the error's text, however badly encoded;
        or nothing for a string that is NULL, its text, or that it has none; or
        the bytes, none for NULL. */
    ghost predicate Answers(taking: Taking, handed: Handed, r: Result<Taken<T>, Failure<T>>) {
      if handed.error.Some? then r.Err? && r.error.NativeError? && r.error.text == replacing(handed.error.value)
      else if taking.AsBytes? then r.Ok? && r.value.Raw? && r.value.b == (if handed.value.Some? then handed.value.value else [])
      else if handed.value.None? then r.Ok? && r.value.Nothing?
      else if strict(handed.value.value).Some? then r.Ok? && r.value.Text? && r.value.t == strict(handed.value.value).value
      else r.Err? && r.error.NotUtf8?
    }

    /** take_string(invoke(...)), as every call here is made: it leaves a buffer
        behind only when the library returns one along with an error. */
    method Call(taking: Taking, handed: Handed) returns (r: Result<Taken<T>, Failure<T>>)
      requires memory.Valid()
      modifies memory
      ensures memory.Valid()
      ensures handed.error.Some? ==> r == Err(NativeError(replacing(handed.error.value)))
      ensures handed.error.None? && taking.AsBytes? ==> r == Ok(Raw(if handed.value.Some? then handed.value.value else []))
      ensures handed.error.None? && taking.AsString? ==>
                && (handed.value.None? ==> r == Ok(Nothing))
                && (handed.value.Some? && strict(handed.value.value).Some? ==> r == Ok(Text(strict(handed.value.value).value)))
                && (handed.value.Some? && strict(handed.value.value).None? ==> r == Err(NotUtf8))
      ensures if Both(handed) then exists a: nat :: a !in old(memory.live) && memory.live == old(memory.live)[a := handed.value.value]
              else memory.live == old(memory.live)
    {
      var invoked := Invoke(handed);
      if invoked.Err? {
        return Err(invoked.error);
      }
      var a := invoked.value;
      if taking.AsString? {
        r := TakeString(a);
      } else {
        r := TakeBytes(a);
      }
      assert old(memory.live)[a := []] - {a} == old(memory.live);
      if handed.value.Some? {
        assert old(memory.live)[a := handed.value.value] - {a} == old(memory.live);
      } else {
        assert NULL !in old(memory.live);
        assert old(memory.live) - {a} == old(memory.live);
      }
    }

    /** Any number of calls: each buffer handed over is gone again, but for
        those that came with an error, and they are the whole difference. With a
        library that returns NULL whenever it sets an error, memory is as it
        was. */
    method Calls(calls: seq<(Taking, Handed)>) returns (results: seq<Result<Taken<T>, Failure<T>>>)
      requires memory.Valid()
      modifies memory
      ensures memory.Valid()
      ensures |results| == |calls|
      ensures forall i :: 0 <= i < |calls| && calls[i].1.error.Some? ==>
                results[i] == Err(NativeError(replacing(calls[i].1.error.value)))
      ensures forall i :: 0 <= i < |calls| && calls[i].1.error.None? && calls[i].0.AsBytes? ==>
                results[i] == Ok(Raw(if calls[i].1.value.Some? then calls[i].1.value.value else []))
      ensures forall i :: 0 <= i < |calls| && calls[i].1.error.None? && calls[i].0.AsString? ==>
                results[i] == if calls[i].1.value.None? then Ok(Nothing)
                              else if strict(calls[i].1.value.value).Some? then Ok(Text(strict(calls[i].1.value.value).value))
                              else Err(NotUtf8)
      ensures old(memory.live).Keys <= memory.live.Keys && forall a <- old(memory.live) :: memory.live[a] == old(memory.live)[a]
      ensures |memory.live| == |old(memory.live)| + Leaks(calls)
      ensures memory.live == old(memory.live) <==> forall i :: 0 <= i < |calls| ==> !Both(calls[i].1)
    {
      results := [];
      for i := 0 to |calls|
        invariant memory.Valid() && |results| == i
        invariant forall k :: 0 <= k < i ==> Answers(calls[k].0, calls[k].1, results[k])
        invariant old(memory.live).Keys <= memory.live.Keys && forall a <- old(memory.live) :: memory.live[a] == old(memory.live)[a]
        invariant |memory.live| == |old(memory.live)| + Leaks(calls[..i])
      {
        var one := Call(calls[i].0, calls[i].1);
        results := results + [one];
        LeaksMore(calls, i);
      }
      assert calls[..|calls|] == calls;
      NoLeaks(calls);
      SameSize(old(memory.live), memory.live);
    }
  }

  predicate Both(handed: Handed) {
    handed.error.Some? && handed.value.Some?
  }

  function Leaks(calls: seq<(Taking, Handed)>): nat {
    if |calls| == 0 then 0 else Leaks(calls[..|calls| - 1]) + if Both(calls[|calls| - 1].1) then 1 else 0
  }

  lemma LeaksMore(calls: seq<(Taking, Handed)>, i: nat)
    requires i < |calls|
    ensures Leaks(calls[..i + 1]) == Leaks(calls[..i]) + if Both(calls[i].1) then 1 else 0
  {
    assert calls[..i + 1][..i] == calls[..i];
  }

  lemma {:induction false} NoLeaks(calls: seq<(Taking, Handed)>)
    ensures Leaks(calls) == 0 <==> forall i :: 0 <= i < |calls| ==> !Both(calls[i].1)
  {
    if |calls| > 0 {
      NoLeaks(calls[..|calls| - 1]);
    }
  }

  lemma SameSize<K, V>(small: map<K, V>, large: map<K, V>)
    requires small.Keys <= large.Keys && forall k <- small :: large[k] == small[k]
    ensures |large| == |small| ==> large == small
  {
    assert |large.Keys| == |small.Keys| + |large.Keys - small.Keys|;
    assert |large.Keys| == |large| && |small.Keys| == |small|;
    if |large| == |small| {
      assert large.Keys - small.Keys == {};
      forall k | k in large ensures k in small { assert k !in large.Keys - small.Keys; }
    }
  }
}
