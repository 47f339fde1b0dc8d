/** What encode_payload answers, kind by kind and from the answers for the parts:
    the characters of a leaf, and which part's error is the whole's. */
module WireForms {
  import opened Options
  import opened Wire
  import opened WireLaws
  import Base64
  import J = Json
  import JsonNumber
  import JsonString

  // ---- Leaves ------------------------------------------------------------

  lemma {:induction false} PlainEscape(s: string)
    requires forall i :: 0 <= i < |s| ==> JsonString.IsPlain(s[i])
    ensures JsonString.Escape(s) == s
  {
    if s != "" {
      PlainEscape(s[1..]);
      assert s == [s[0]] + s[1..];
    }
  }

  lemma {:induction false} Base64Plain(data: seq<Base64.Byte>)
    ensures forall i :: 0 <= i < |Base64.Encode(data)| ==> JsonString.IsPlain(Base64.Encode(data)[i])
  {
    if |data| >= 3 {
      Base64Plain(data[3..]);
      Base64.EncodesThree(data[0], data[1], data[2]);
    }
  }

  /** The tag's text for a base64 text. */
  lemma TagText(code: string)
    requires forall i :: 0 <= i < |code| ==> JsonString.IsPlain(code[i])
    ensures J.Print(J.Obj([J.Member("$bytes", J.Str(code))])) == "{\"$bytes\":\"" + code + "\"}"
  {
    PlainEscape(code);
    PlainEscape("$bytes");
    var m := J.Member("$bytes", J.Str(code));
    MemberText("$bytes", code);
    assert J.PrintMembers([m]) == J.PrintMember(m);
    TagJoins(code);
  }

  lemma MemberText(key: string, code: string)
    requires JsonString.Escape(key) == key && JsonString.Escape(code) == code
    ensures J.PrintMember(J.Member(key, J.Str(code))) == ("\"" + key + "\"") + (":" + ("\"" + code + "\""))
  {
  }

  lemma TagJoins(code: string)
    ensures "{" + ((("\"" + "$bytes" + "\"") + (":" + ("\"" + code + "\""))) + "}") == "{\"$bytes\":\"" + code + "\"}"
  {
  }

  /** A byte string, of whatever type, is the object whose one key is "$bytes"
      and whose value is its base64. */
  lemma BytesText(kind: BytesType, data: seq<Base64.Byte>)
    ensures EncodePayload(Binary(kind, data)) == Ok("{\"$bytes\":\"" + Base64.Encode(data) + "\"}")
  {
    Base64Plain(data);
    TagText(Base64.Encode(data));
    assert WireOf(Binary(kind, data)) == Ok(TagBytes(data));
    assert TagBytes(data) == J.Obj([J.Member("$bytes", J.Str(Base64.Encode(data)))]);
    assert AllFinite(J.Str(Base64.Encode(data)));
    assert forall m <- TagBytes(data).members :: AllFinite(m.value);
  }

  /** The other leaves: an integer within int64, a finite float and None are
      their JSON texts; a boolean, an integer beyond, a non-finite float and a
      value of any other type are refused, each in its own way. */
  lemma Leaves(b: bool, i: int, f: JsonNumber.Float, name: string)
    ensures EncodePayload(Null) == Ok("null")
    ensures EncodePayload(Bool(b)) == Err(Boolean)
    ensures EncodePayload(Int(i)) ==
            if -9223372036854775808 <= i <= 9223372036854775807 then Ok(JsonNumber.IntText(i)) else Err(OutsideInt64(i))
    ensures EncodePayload(Float(f)) == if f.Finite? then Ok(f.text) else Err(NotFinite)
    ensures EncodePayload(Other(name)) == Err(NoWireForm(name))
  {
  }

  // ---- The whole from its parts ------------------------------------------

  /** What stops the encoder where it stands: every error but a non-finite
      float's, which is found only when the whole is printed. */
  predicate Stops(r: Result<string, WireError>) {
    r.Err? && r.error != NotFinite
  }

  lemma StopsIs(v: Value)
    ensures Stops(EncodePayload(v)) <==> WireOf(v).Err?
    ensures WireOf(v).Err? ==> EncodePayload(v) == Err(WireOf(v).error)
  {
    WireAgrees(v);
  }

  /** items[k] is the first that stops the encoder, with e. */
  ghost predicate FirstStop(items: seq<Value>, k: int, e: WireError) {
    && 0 <= k < |items| && Stops(EncodePayload(items[k])) && EncodePayload(items[k]) == Err(e)
    && forall i :: 0 <= i < k ==> !Stops(EncodePayload(items[i]))
  }

  lemma {:induction false} ItemsStop(items: seq<Value>, e: WireError)
    ensures WireOfItems(items) == Err(e) <==> exists k :: FirstStop(items, k, e)
  {
    if |items| > 0 {
      StopsIs(items[0]);
      ItemsStop(items[1..], e);
      if Stops(EncodePayload(items[0])) {
        if WireOf(items[0]) == Err(e) { assert FirstStop(items, 0, e); }
      } else {
        StopLater(items, e);
      }
    }
  }

  lemma StopLater(items: seq<Value>, e: WireError)
    requires |items| > 0 && !Stops(EncodePayload(items[0]))
    ensures (exists k :: FirstStop(items, k, e)) <==> exists k :: FirstStop(items[1..], k, e)
  {
    if k :| FirstStop(items, k, e) { assert FirstStop(items[1..], k - 1, e); }
    if k :| FirstStop(items[1..], k, e) { assert FirstStop(items, k + 1, e); }
  }

  /** A list or tuple is refused where its first item that stops the encoder is,
      with that item's error. */
  lemma ListStops(items: seq<Value>, e: WireError)
    requires e != NotFinite
    ensures EncodePayload(List(items)) == Err(e) <==> exists k :: FirstStop(items, k, e)
    ensures EncodePayload(Tuple(items)) == Err(e) <==> exists k :: FirstStop(items, k, e)
  {
    ItemsStop(items, e);
    StopsIs(List(items));
    StopsIs(Tuple(items));
  }

  /** An entry's key is looked at before its value. */
  function EntryAnswer(entry: Entry): Result<string, WireError> {
    if entry.key.NotText? then Err(KeyNotText(entry.key.typeName)) else EncodePayload(entry.value)
  }

  ghost predicate FirstEntryStop(entries: seq<Entry>, k: int, e: WireError) {
    && 0 <= k < |entries| && Stops(EntryAnswer(entries[k])) && EntryAnswer(entries[k]) == Err(e)
    && forall i :: 0 <= i < k ==> !Stops(EntryAnswer(entries[i]))
  }

  lemma EntryStopsIs(entry: Entry)
    ensures Stops(EntryAnswer(entry)) <==> WireOfEntry(entry).Err?
    ensures WireOfEntry(entry).Err? ==> EntryAnswer(entry) == Err(WireOfEntry(entry).error)
  {
    StopsIs(entry.value);
  }

  lemma {:induction false} EntriesStop(entries: seq<Entry>, e: WireError)
    ensures WireOfEntries(entries) == Err(e) <==> exists k :: FirstEntryStop(entries, k, e)
  {
    if |entries| > 0 {
      EntryStopsIs(entries[0]);
      EntriesStop(entries[1..], e);
      if Stops(EntryAnswer(entries[0])) {
        if WireOfEntry(entries[0]) == Err(e) { assert FirstEntryStop(entries, 0, e); }
      } else {
        EntryStopsLater(entries, e);
      }
    }
  }

  lemma EntryStopsLater(entries: seq<Entry>, e: WireError)
    requires |entries| > 0 && !Stops(EntryAnswer(entries[0]))
    ensures (exists k :: FirstEntryStop(entries, k, e)) <==> exists k :: FirstEntryStop(entries[1..], k, e)
  {
    if k :| FirstEntryStop(entries, k, e) { assert FirstEntryStop(entries[1..], k - 1, e); }
    if k :| FirstEntryStop(entries[1..], k, e) { assert FirstEntryStop(entries, k + 1, e); }
  }

  /** A dict likewise, each key looked at before its own value and after the
      values before it. */
  lemma DictStops(entries: seq<Entry>, e: WireError)
    requires e != NotFinite
    ensures EncodePayload(Dict(entries)) == Err(e) <==> exists k :: FirstEntryStop(entries, k, e)
  {
    EntriesStop(entries, e);
    StopsIs(Dict(entries));
  }
}
