/** What the payload codec keeps: which values it takes, what refuses the
    others, and exactly which values come back from their own text. */
module WireLaws {
  import opened Options
  import opened Wire
  import Base64
  import J = Json
  import JsonReads

  // ---- What the encoder takes --------------------------------------------

  /** What the encoder looks at, in the order it looks: a value before what it
      holds, a key before its value. */
  datatype Visit = Node(value: Value) | KeyOf(key: Key)

  function Visits(v: Value): seq<Visit>
    decreases v, 1
  {
    match v
    case List(items) => [Node(v)] + VisitsOfItems(items)
    case Tuple(items) => [Node(v)] + VisitsOfItems(items)
    case Dict(entries) => [Node(v)] + VisitsOfEntries(entries)
    case _ => [Node(v)]
  }

  function VisitsOfItems(items: seq<Value>): seq<Visit>
    decreases items, 0
  {
    if |items| == 0 then [] else Visits(items[0]) + VisitsOfItems(items[1..])
  }

  function VisitsOfEntry(e: Entry): seq<Visit>
    decreases e, 2
  {
    [KeyOf(e.key)] + Visits(e.value)
  }

  function VisitsOfEntries(entries: seq<Entry>): seq<Visit>
    decreases entries, 0
  {
    if |entries| == 0 then [] else VisitsOfEntry(entries[0]) + VisitsOfEntries(entries[1..])
  }

  /** What is wrong with one visit on its own, if anything. */
  function Fault(visit: Visit): Option<WireError> {
    match visit
    case Node(Bool(_)) => Some(Boolean)
    case Node(Int(i)) => if INT64_MIN <= i <= INT64_MAX then None else Some(OutsideInt64(i))
    case Node(Other(typeName)) => Some(NoWireForm(typeName))
    case KeyOf(NotText(typeName)) => Some(KeyNotText(typeName))
    case _ => None
  }

  predicate IsNonFinite(visit: Visit) {
    visit.Node? && visit.value.Float? && !visit.value.f.Finite?
  }

  ghost predicate FirstFaultIs(visits: seq<Visit>, e: WireError) {
    exists i :: 0 <= i < |visits| && Fault(visits[i]) == Some(e) && NoFault(visits[..i])
  }

  ghost predicate NoFault(visits: seq<Visit>) {
    forall x <- visits :: Fault(x).None?
  }

  ghost predicate NoNonFinite(visits: seq<Visit>) {
    forall x <- visits :: !IsNonFinite(x)
  }

  /** r is what visiting says it should be: refused for the first fault, or
      taken because there is none. */
  ghost predicate Agrees<T>(r: Result<T, WireError>, visits: seq<Visit>) {
    match r
    case Err(e) => FirstFaultIs(visits, e)
    case Ok(_) => NoFault(visits)
  }

  lemma FirstFaultExtends(visits: seq<Visit>, more: seq<Visit>, e: WireError)
    requires FirstFaultIs(visits, e)
    ensures FirstFaultIs(visits + more, e)
  {
    var i :| 0 <= i < |visits| && Fault(visits[i]) == Some(e) && NoFault(visits[..i]);
    assert (visits + more)[..i] == visits[..i];
    assert (visits + more)[i] == visits[i];
  }

  lemma FirstFaultAfter(before: seq<Visit>, visits: seq<Visit>, e: WireError)
    requires NoFault(before) && FirstFaultIs(visits, e)
    ensures FirstFaultIs(before + visits, e)
  {
    var i :| 0 <= i < |visits| && Fault(visits[i]) == Some(e) && NoFault(visits[..i]);
    var all := before + visits;
    assert all[..|before| + i] == before + visits[..i];
    assert all[|before| + i] == visits[i];
  }

  lemma FaultHere(visit: Visit, more: seq<Visit>)
    requires Fault(visit).Some?
    ensures FirstFaultIs([visit] + more, Fault(visit).value)
  {
    assert ([visit] + more)[..0] == [] && ([visit] + more)[0] == visit;
  }

  lemma {:induction false} WireAgrees(v: Value)
    ensures Agrees(WireOf(v), Visits(v))
    decreases v, 1
  {
    match v
    case List(items) =>
      ItemsAgree(items);
      NodeAgrees(v, WireOfItems(items), VisitsOfItems(items));
    case Tuple(items) =>
      ItemsAgree(items);
      NodeAgrees(v, WireOfItems(items), VisitsOfItems(items));
    case Dict(entries) =>
      EntriesAgree(entries);
      NodeAgrees(v, WireOfEntries(entries), VisitsOfEntries(entries));
    case _ =>
      assert Visits(v) == [Node(v)] + [];
      if Fault(Node(v)).Some? { FaultHere(Node(v), []); }
  }

  lemma NodeAgrees<T>(v: Value, r: Result<T, WireError>, inner: seq<Visit>)
    requires Fault(Node(v)).None? && Agrees(r, inner)
    ensures Agrees(r, [Node(v)] + inner)
  {
    if r.Err? { FirstFaultAfter([Node(v)], inner, r.error); }
  }

  lemma {:induction false} ItemsAgree(items: seq<Value>)
    ensures Agrees(WireOfItems(items), VisitsOfItems(items))
    decreases items, 0
  {
    if |items| > 0 {
      WireAgrees(items[0]);
      ItemsAgree(items[1..]);
      Sequence(WireOf(items[0]), Visits(items[0]), WireOfItems(items[1..]), VisitsOfItems(items[1..]));
    }
  }

  lemma Sequence<A, B>(first: Result<A, WireError>, visits: seq<Visit>, rest: Result<B, WireError>, more: seq<Visit>)
    requires Agrees(first, visits) && Agrees(rest, more)
    ensures first.Err? ==> FirstFaultIs(visits + more, first.error)
    ensures first.Ok? ==> Agrees(rest, visits + more)
  {
    if first.Err? {
      FirstFaultExtends(visits, more, first.error);
    } else if rest.Err? {
      FirstFaultAfter(visits, more, rest.error);
    }
  }

  lemma {:induction false} EntryAgrees(e: Entry)
    ensures Agrees(WireOfEntry(e), VisitsOfEntry(e))
    decreases e, 2
  {
    WireAgrees(e.value);
    match e.key
    case NotText(_) => FaultHere(KeyOf(e.key), Visits(e.value));
    case Text(_) => if WireOf(e.value).Err? { FirstFaultAfter([KeyOf(e.key)], Visits(e.value), WireOf(e.value).error); }
  }

  lemma {:induction false} EntriesAgree(entries: seq<Entry>)
    ensures Agrees(WireOfEntries(entries), VisitsOfEntries(entries))
    decreases entries, 0
  {
    if |entries| > 0 {
      EntryAgrees(entries[0]);
      EntriesAgree(entries[1..]);
      Sequence(WireOfEntry(entries[0]), VisitsOfEntry(entries[0]), WireOfEntries(entries[1..]), VisitsOfEntries(entries[1..]));
    }
  }

  /** A wire form holds a non-finite float exactly when the value does. */
  lemma {:induction false} WireFinite(v: Value)
    requires WireOf(v).Ok?
    ensures AllFinite(WireOf(v).value) <==> NoNonFinite(Visits(v))
    decreases v, 1
  {
    match v
    case List(items) => ItemsFinite(items);
    case Tuple(items) => ItemsFinite(items);
    case Dict(entries) => EntriesFinite(entries);
    case Binary(_, data) =>
      LeafVisits(v);
      assert forall m <- TagBytes(data).members :: m.value.Str?;
    case Float(_) => LeafVisits(v);
    case Int(_) => LeafVisits(v);
    case Str(_) => LeafVisits(v);
    case Null => LeafVisits(v);
    case _ =>
  }

  lemma LeafVisits(v: Value)
    requires !v.List? && !v.Tuple? && !v.Dict?
    ensures NoNonFinite(Visits(v)) <==> !IsNonFinite(Node(v))
  {
    assert Node(v) in Visits(v);
  }

  lemma {:induction false} ItemsFinite(items: seq<Value>)
    requires WireOfItems(items).Ok?
    ensures (forall x <- WireOfItems(items).value :: AllFinite(x)) <==> NoNonFinite(VisitsOfItems(items))
    decreases items, 0
  {
    if |items| > 0 {
      WireFinite(items[0]);
      ItemsFinite(items[1..]);
    }
  }

  lemma {:induction false} EntriesFinite(entries: seq<Entry>)
    requires WireOfEntries(entries).Ok?
    ensures (forall m <- WireOfEntries(entries).value :: AllFinite(m.value)) <==> NoNonFinite(VisitsOfEntries(entries))
    decreases entries, 0
  {
    if |entries| > 0 {
      assert entries[0].value < entries[0];
      WireFinite(entries[0].value);
      EntriesFinite(entries[1..]);
    }
  }

  /** encode_payload takes a value exactly when nothing in it is at fault and
      no float in it is non-finite. */
  lemma Accepted(v: Value)
    ensures EncodePayload(v).Ok? <==> NoFault(Visits(v)) && NoNonFinite(Visits(v))
  {
    WireAgrees(v);
    if WireOf(v).Ok? { WireFinite(v); }
  }

  /** Otherwise it names the first fault, depth first; a non-finite float only
      when nothing else is at fault. */
  lemma Refused(v: Value, e: WireError)
    ensures EncodePayload(v) == Err(e) <==>
            if e == NotFinite then NoFault(Visits(v)) && !NoNonFinite(Visits(v)) else FirstFaultIs(Visits(v), e)
  {
    WireAgrees(v);
    if WireOf(v).Ok? {
      WireFinite(v);
    } else {
      FirstFaultUnique(Visits(v), WireOf(v).error, e);
    }
  }

  lemma FirstFaultUnique(visits: seq<Visit>, e: WireError, f: WireError)
    requires FirstFaultIs(visits, e)
    ensures !NoFault(visits)
    ensures FirstFaultIs(visits, f) ==> e == f
  {
    var i :| 0 <= i < |visits| && Fault(visits[i]) == Some(e) && NoFault(visits[..i]);
    if FirstFaultIs(visits, f) {
      var k :| 0 <= k < |visits| && Fault(visits[k]) == Some(f) && NoFault(visits[..k]);
      NoFaultBefore(visits, i);
      NoFaultBefore(visits, k);
    }
  }

  lemma NoFaultBefore(visits: seq<Visit>, k: nat)
    requires k <= |visits| && NoFault(visits[..k])
    ensures forall i :: 0 <= i < k ==> Fault(visits[i]).None?
  {
    forall i | 0 <= i < k ensures Fault(visits[i]).None? {
      assert visits[..k][i] == visits[i];
    }
  }

  // ---- What comes back ---------------------------------------------------

  /** A value as the codec returns it: tuples as lists, byte-likes as bytes. */
  function Normal(v: Value): Value
    decreases v, 1
  {
    match v
    case List(items) => List(NormalItems(items))
    case Tuple(items) => List(NormalItems(items))
    case Dict(entries) => Dict(NormalEntries(entries))
    case Binary(_, data) => Binary(Bytes, data)
    case _ => v
  }

  function NormalItems(items: seq<Value>): (r: seq<Value>)
    ensures |r| == |items|
    decreases items, 0
  {
    if |items| == 0 then [] else [Normal(items[0])] + NormalItems(items[1..])
  }

  function NormalEntries(entries: seq<Entry>): (r: seq<Entry>)
    ensures |r| == |entries|
    ensures forall i :: 0 <= i < |entries| ==> r[i].key == entries[i].key
    decreases entries, 0
  {
    if |entries| == 0 then [] else [NormalEntry(entries[0])] + NormalEntries(entries[1..])
  }

  function NormalEntry(e: Entry): Entry
    decreases e, 2
  {
    Entry(e.key, Normal(e.value))
  }

  /** Somewhere inside is a dict whose only key is "$bytes", with a text. */
  predicate HasBareTag(v: Value)
    decreases v, 1
  {
    match v
    case List(items) => ItemsHaveBareTag(items)
    case Tuple(items) => ItemsHaveBareTag(items)
    case Dict(entries) => IsBareTag(entries) || EntriesHaveBareTag(entries)
    case _ => false
  }

  predicate ItemsHaveBareTag(items: seq<Value>)
    decreases items, 0
  {
    |items| > 0 && (HasBareTag(items[0]) || ItemsHaveBareTag(items[1..]))
  }

  predicate EntryHasBareTag(e: Entry)
    decreases e, 2
  {
    HasBareTag(e.value)
  }

  predicate EntriesHaveBareTag(entries: seq<Entry>)
    decreases entries, 0
  {
    |entries| > 0 && (EntryHasBareTag(entries[0]) || EntriesHaveBareTag(entries[1..]))
  }

  lemma DistinctIsDict(pairs: seq<Entry>)
    requires Distinct(pairs)
    ensures DictOf(pairs) == pairs
  {
    if |pairs| > 0 {
      var before, last := pairs[..|pairs| - 1], pairs[|pairs| - 1];
      DistinctIsDict(before);
      AssignNew(before, last);
    }
  }

  lemma AssignNew(entries: seq<Entry>, e: Entry)
    requires Distinct(entries) && forall x <- entries :: x.key != e.key
    ensures Assign(entries, e) == entries + [e]
  {
  }

  lemma FromMembersCons(m: J.Member, rest: seq<J.Member>)
    ensures FromMembers([m] + rest) ==
            if FromWire(m.value).Some? && FromMembers(rest).Some? then
              Some([Entry(Text(m.key), FromWire(m.value).value)] + FromMembers(rest).value)
            else None
  {
    assert ([m] + rest)[1..] == rest;
  }

  /** What an object with the one key "$bytes" and a text is read as. */
  lemma TagTextReads(s: string)
    ensures FromWire(J.Obj([J.Member(BYTES_TAG, J.Str(s))])) ==
            match Base64.Decode(s) { case None => None case Some(data) => Some(Binary(Bytes, data)) }
  {
    var member := J.Member(BYTES_TAG, J.Str(s));
    var entry := Entry(Text(BYTES_TAG), Str(s));
    FromMembersCons(member, []);
    assert [member] + [] == [member];
    assert FromWire(member.value) == Some(Str(s));
    assert [entry] + [] == [entry];
    assert FromMembers([member]) == Some([entry]);
    DistinctIsDict([entry]);
  }

  /** The bytes of a tag come back whatever type they had. */
  lemma TagReads(data: seq<Base64.Byte>)
    ensures FromWire(TagBytes(data)) == Some(Binary(Bytes, data))
  {
    Base64.EncodeDecode(data);
    TagTextReads(Base64.Encode(data));
  }

  lemma {:induction false} WireRoundTrip(v: Value)
    requires IsPython(v) && WireOf(v).Ok?
    ensures FromWire(WireOf(v).value) == Some(Normal(v)) <==> !HasBareTag(v)
    decreases v, 1
  {
    match v
    case List(items) => ItemsRoundTrip(items);
    case Tuple(items) => ItemsRoundTrip(items);
    case Dict(entries) =>
      EntriesRoundTrip(entries);
      HookRoundTrip(entries);
    case Binary(_, data) => TagReads(data);
    case _ =>
  }

  lemma ConsEqual<T>(a: T, s: seq<T>, b: T, t: seq<T>)
    ensures [a] + s == [b] + t <==> a == b && s == t
  {
    if [a] + s == [b] + t {
      assert ([a] + s)[0] == a && ([b] + t)[0] == b;
      assert ([a] + s)[1..] == s && ([b] + t)[1..] == t;
    }
  }

  lemma {:induction false} ItemsRoundTrip(items: seq<Value>)
    requires WireOfItems(items).Ok? && forall x <- items :: IsPython(x)
    ensures FromItems(WireOfItems(items).value) == Some(NormalItems(items)) <==> !ItemsHaveBareTag(items)
    decreases items, 0
  {
    if |items| > 0 {
      WireRoundTrip(items[0]);
      ItemsRoundTrip(items[1..]);
      var j, rest := WireOf(items[0]).value, WireOfItems(items[1..]).value;
      assert ([j] + rest)[1..] == rest;
      if FromWire(j).Some? && FromItems(rest).Some? {
        ConsEqual(FromWire(j).value, FromItems(rest).value, Normal(items[0]), NormalItems(items[1..]));
      }
    }
  }

  lemma {:induction false} EntryRoundTrip(e: Entry)
    requires WireOfEntry(e).Ok? && IsPython(e.value)
    ensures var m := WireOfEntry(e).value;
            e.key == Text(m.key) && (FromWire(m.value) == Some(NormalEntry(e).value) <==> !EntryHasBareTag(e))
    decreases e, 2
  {
    WireRoundTrip(e.value);
  }

  lemma {:induction false} EntriesRoundTrip(entries: seq<Entry>)
    requires WireOfEntries(entries).Ok? && forall e <- entries :: IsPython(e.value)
    ensures FromMembers(WireOfEntries(entries).value) == Some(NormalEntries(entries)) <==> !EntriesHaveBareTag(entries)
    decreases entries, 0
  {
    if |entries| > 0 {
      EntryRoundTrip(entries[0]);
      EntriesRoundTrip(entries[1..]);
      var m, rest := WireOfEntry(entries[0]).value, WireOfEntries(entries[1..]).value;
      assert WireOfEntries(entries).value == [m] + rest;
      FromMembersCons(m, rest);
      if FromWire(m.value).Some? && FromMembers(rest).Some? {
        ConsEqual(Entry(Text(m.key), FromWire(m.value).value), FromMembers(rest).value,
                  NormalEntry(entries[0]), NormalEntries(entries[1..]));
      }
    }
  }

  lemma {:induction false} EntryKeys(entries: seq<Entry>)
    requires WireOfEntries(entries).Ok?
    ensures forall i :: 0 <= i < |entries| ==> entries[i].key == Text(WireOfEntries(entries).value[i].key)
  {
    if |entries| > 0 {
      EntryKeys(entries[1..]);
    }
  }

  /** The hook keeps a dict exactly when it is no bare tag, and never turns one
      with wrong contents into the right dict. */
  lemma HookKeeps(entries: seq<Entry>, pairs: seq<Entry>)
    requires |pairs| == |entries| && forall i :: 0 <= i < |pairs| ==> pairs[i].key == entries[i].key
    ensures Hook(pairs) == Some(Dict(NormalEntries(entries))) <==> pairs == NormalEntries(entries) && !IsBareTag(entries)
  {
    if |entries| == 1 {
      assert NormalEntries(entries)[0] == NormalEntry(entries[0]);
    }
  }

  lemma HookRoundTrip(entries: seq<Entry>)
    requires Distinct(entries) && WireOfEntries(entries).Ok?
    ensures FromWire(J.Obj(WireOfEntries(entries).value)) == Some(Dict(NormalEntries(entries))) <==>
            FromMembers(WireOfEntries(entries).value) == Some(NormalEntries(entries)) && !IsBareTag(entries)
  {
    EntryKeys(entries);
    var r := FromMembers(WireOfEntries(entries).value);
    if r.Some? {
      assert forall i :: 0 <= i < |r.value| ==> r.value[i].key == entries[i].key;
      DistinctIsDict(r.value);
      HookKeeps(entries, r.value);
    }
  }

  /** A value encode_payload takes comes back from its own JSON text exactly
      when no dict inside it is a lone "$bytes" with a text. */
  lemma RoundTrip(v: Value)
    requires IsPython(v) && EncodePayload(v).Ok?
    ensures DecodePayload(EncodePayload(v).value) == Some(Normal(v)) <==> !HasBareTag(v)
  {
    JsonReads.ParsePrint(WireOf(v).value);
    WireRoundTrip(v);
  }

  // ---- What was received -------------------------------------------------

  /** A value the decoder can return: dicts as dicts, lists and bytes in their
      normal types, and no bare tag left anywhere. */
  predicate Received(v: Value) {
    IsPython(v) && Normal(v) == v && !HasBareTag(v)
  }

  lemma {:induction false} FromWireReceived(j: J.Json)
    requires FromWire(j).Some?
    ensures Received(FromWire(j).value)
    decreases j, 1
  {
    match j
    case Arr(items) => FromItemsReceived(items);
    case Obj(members) =>
      FromMembersReceived(members);
      DictReceived(FromMembers(members).value);
    case _ =>
  }

  lemma {:induction false} FromItemsReceived(items: seq<J.Json>)
    requires FromItems(items).Some?
    ensures var values := FromItems(items).value;
            (forall x <- values :: IsPython(x)) && NormalItems(values) == values && !ItemsHaveBareTag(values)
    decreases items, 0
  {
    if |items| > 0 {
      FromWireReceived(items[0]);
      FromItemsReceived(items[1..]);
      var rest := FromItems(items[1..]).value;
      assert FromItems(items).value[1..] == rest;
    }
  }

  predicate EntriesReceived(entries: seq<Entry>) {
    forall e <- entries :: e.key.Text? && Received(e.value)
  }

  lemma {:induction false} FromMembersReceived(members: seq<J.Member>)
    requires FromMembers(members).Some?
    ensures EntriesReceived(FromMembers(members).value)
    decreases members, 0
  {
    if |members| > 0 {
      assert members[0].value < members[0];
      FromWireReceived(members[0].value);
      FromMembersReceived(members[1..]);
    }
  }

  lemma DictSubset(pairs: seq<Entry>)
    ensures forall e <- DictOf(pairs) :: e in pairs
  {
    if |pairs| > 0 {
      DictSubset(pairs[..|pairs| - 1]);
    }
  }

  lemma {:induction false} EntriesNormal(entries: seq<Entry>)
    requires EntriesReceived(entries)
    ensures NormalEntries(entries) == entries && !EntriesHaveBareTag(entries)
  {
    if |entries| > 0 {
      assert entries[0] in entries;
      EntriesNormal(entries[1..]);
    }
  }

  lemma DictReceived(pairs: seq<Entry>)
    requires EntriesReceived(pairs)
    ensures Hook(DictOf(pairs)).Some? ==> Received(Hook(DictOf(pairs)).value)
  {
    DictSubset(pairs);
    EntriesNormal(DictOf(pairs));
  }

  /** A value received can be sent back unchanged: whatever text it came in,
      if the encoder takes it, its own text gives it back. */
  lemma SentBackUnchanged(text: string)
    requires DecodePayload(text).Some? && EncodePayload(DecodePayload(text).value).Ok?
    ensures DecodePayload(EncodePayload(DecodePayload(text).value).value) == DecodePayload(text)
  {
    FromWireReceived(J.Parse(text).value);
    RoundTrip(DecodePayload(text).value);
  }

  /** And no two values the codec can tell apart share a text. */
  lemma TextsDiffer(v: Value, w: Value)
    requires IsPython(v) && IsPython(w) && !HasBareTag(v) && !HasBareTag(w)
    requires EncodePayload(v).Ok? && EncodePayload(v) == EncodePayload(w)
    ensures Normal(v) == Normal(w)
  {
    RoundTrip(v);
    RoundTrip(w);
  }

  function BareTag(s: string): Value {
    Dict([Entry(Text(BYTES_TAG), Str(s))])
  }

  lemma BareTagWire(s: string)
    ensures WireOf(BareTag(s)) == Ok(J.Obj([J.Member(BYTES_TAG, J.Str(s))]))
  {
    var entry := Entry(Text(BYTES_TAG), Str(s));
    assert WireOf(entry.value) == Ok(J.Str(s));
    WireOfOne(entry);
  }

  lemma OneFinite(m: J.Member)
    requires m.value.Str?
    ensures AllFinite(J.Obj([m]))
  {
    assert forall x <- [m] :: x == m;
  }

  /** The bare tag is really lost: it comes back as the bytes its text spells,
      or not at all. */
  lemma BareTagDecodes(s: string)
    ensures EncodePayload(BareTag(s)).Ok?
    ensures DecodePayload(EncodePayload(BareTag(s)).value) ==
            match Base64.Decode(s) { case None => None case Some(data) => Some(Binary(Bytes, data)) }
  {
    BareTagWire(s);
    var wire := J.Obj([J.Member(BYTES_TAG, J.Str(s))]);
    OneFinite(J.Member(BYTES_TAG, J.Str(s)));
    JsonReads.ParsePrint(wire);
    TagTextReads(s);
  }

  lemma WireOfOne(e: Entry)
    requires WireOfEntry(e).Ok?
    ensures WireOfEntries([e]) == Ok([WireOfEntry(e).value])
  {
    assert [e][1..] == [];
    assert WireOfEntries([]) == Ok([]);
    assert [WireOfEntry(e).value] + [] == [WireOfEntry(e).value];
  }

  lemma ExampleTexts()
    ensures Base64.Decode("AQID") == Some([1, 2, 3])
    ensures Base64.Decode("?") == None
  {
    var data: seq<Base64.Byte> := [1, 2, 3];
    assert data[3..] == [];
    assert Base64.Encode(data) == "AQID";
    Base64.EncodeDecode(data);
  }

  /** {"$bytes": "AQID"} comes back as three bytes; the text of {"$bytes": "?"}
      is refused by the decoder. */
  lemma BareTagIsLost()
    ensures exists text :: EncodePayload(BareTag("AQID")) == Ok(text) && DecodePayload(text) == Some(Binary(Bytes, [1, 2, 3]))
    ensures exists text :: EncodePayload(BareTag("?")) == Ok(text) && DecodePayload(text) == None
  {
    BareTagDecodes("AQID");
    BareTagDecodes("?");
    ExampleTexts();
  }
}
