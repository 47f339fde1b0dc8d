/** Which texts decode_payload takes: those that are JSON and in which no object
    is a "$bytes" tag spelling no bytes. */
module WireDecoding {
  import opened Options
  import opened Wire
  import Base64
  import J = Json
  import JsonGrammar
  import JsonReads
  import WireLaws

  /** "$bytes" is the only key, however often repeated, and the value it ends up
      with is a text that is not base64. */
  predicate IsBadTag(members: seq<J.Member>) {
    && |members| > 0
    && (forall m <- members :: m.key == "$bytes")
    && members[|members| - 1].value.Str? && Base64.Decode(members[|members| - 1].value.s).None?
  }

  /** Somewhere inside is such an object. */
  predicate HasBadTag(j: J.Json)
    decreases j, 1
  {
    match j
    case Arr(items) => ItemsHaveBadTag(items)
    case Obj(members) => IsBadTag(members) || MembersHaveBadTag(members)
    case _ => false
  }

  predicate ItemsHaveBadTag(items: seq<J.Json>)
    decreases items, 0
  {
    |items| > 0 && (HasBadTag(items[0]) || ItemsHaveBadTag(items[1..]))
  }

  predicate MembersHaveBadTag(members: seq<J.Member>)
    decreases members, 0
  {
    |members| > 0 && (HasBadTag(members[0].value) || MembersHaveBadTag(members[1..]))
  }

  /** Only a text is read as a text, and only null as None. */
  lemma ReadAsItself(j: J.Json)
    ensures forall s :: FromWire(j) == Some(Str(s)) <==> j == J.Str(s)
    ensures FromWire(j) == Some(Null) <==> j == J.Null
  {
  }

  lemma {:induction false} MemberReads(members: seq<J.Member>, i: nat)
    requires FromMembers(members).Some? && i < |members|
    ensures FromWire(members[i].value) == Some(FromMembers(members).value[i].value)
  {
    MemberFirst(members);
    if i > 0 {
      MemberReads(members[1..], i - 1);
      assert members[1..][i - 1] == members[i];
    }
  }

  lemma MemberFirst(members: seq<J.Member>)
    requires FromMembers(members).Some? && |members| > 0
    ensures FromWire(members[0].value).Some? && FromMembers(members[1..]).Some?
    ensures FromMembers(members).value ==
            [Entry(Text(members[0].key), FromWire(members[0].value).value)] + FromMembers(members[1..]).value
  {
  }

  /** Pairs make a dict of one entry exactly when they share their key, and the
      last of them is that entry. */
  lemma {:induction false} OneKey(pairs: seq<Entry>)
    requires |pairs| > 0
    ensures |DictOf(pairs)| > 0
    ensures |DictOf(pairs)| == 1 <==> forall i :: 0 <= i < |pairs| ==> pairs[i].key == pairs[|pairs| - 1].key
    ensures |DictOf(pairs)| == 1 ==> DictOf(pairs) == [pairs[|pairs| - 1]]
  {
    var before, last := pairs[..|pairs| - 1], pairs[|pairs| - 1];
    if |before| == 0 {
      assert DictOf(before) == [];
    } else {
      OneKey(before);
      AssignSize(DictOf(before), last);
      assert forall i :: 0 <= i < |before| ==> before[i] == pairs[i];
    }
  }

  lemma AssignSize(entries: seq<Entry>, e: Entry)
    requires Distinct(entries) && |entries| > 0
    ensures |Assign(entries, e)| >= |entries|
    ensures |Assign(entries, e)| == 1 <==> |entries| == 1 && entries[0].key == e.key
    ensures |Assign(entries, e)| == 1 ==> Assign(entries, e) == [e]
  {
    if entries[0].key != e.key && |entries| > 1 {
      AssignSize(entries[1..], e);
    }
  }

  /** The hook refuses an object exactly when it is a bad tag. */
  lemma HookRefuses(members: seq<J.Member>)
    requires FromMembers(members).Some?
    ensures Hook(DictOf(FromMembers(members).value)).None? <==> IsBadTag(members)
  {
    var pairs := FromMembers(members).value;
    if |members| > 0 {
      var last := |members| - 1;
      OneKey(pairs);
      MemberReads(members, last);
      ReadAsItself(members[last].value);
      SameKeys(members, pairs);
    }
  }

  lemma SameKeys(members: seq<J.Member>, pairs: seq<Entry>)
    requires |pairs| == |members| > 0 && forall i :: 0 <= i < |members| ==> pairs[i].key == Text(members[i].key)
    ensures (forall m <- members :: m.key == BYTES_TAG) <==>
            pairs[|pairs| - 1].key == Text(BYTES_TAG) && forall i :: 0 <= i < |pairs| ==> pairs[i].key == pairs[|pairs| - 1].key
  {
    if forall i :: 0 <= i < |pairs| ==> pairs[i].key == Text(BYTES_TAG) {
      assert forall i :: 0 <= i < |members| ==> members[i].key == BYTES_TAG;
    }
    if forall m <- members :: m.key == BYTES_TAG {
      assert forall i :: 0 <= i < |members| ==> members[i] in members;
    }
  }

  lemma {:induction false} Refuses(j: J.Json)
    ensures FromWire(j).None? <==> HasBadTag(j)
    decreases j, 1
  {
    match j
    case Arr(items) => RefusesItems(items);
    case Obj(members) =>
      RefusesMembers(members);
      if FromMembers(members).Some? { HookRefuses(members); }
    case _ =>
  }

  lemma {:induction false} RefusesItems(items: seq<J.Json>)
    ensures FromItems(items).None? <==> ItemsHaveBadTag(items)
    decreases items, 0
  {
    if |items| > 0 {
      Refuses(items[0]);
      RefusesItems(items[1..]);
    }
  }

  lemma {:induction false} RefusesMembers(members: seq<J.Member>)
    ensures FromMembers(members).None? <==> MembersHaveBadTag(members)
    decreases members, 0
  {
    if |members| > 0 {
      assert members[0].value < members[0];
      Refuses(members[0].value);
      RefusesMembers(members[1..]);
    }
  }

  lemma ParsedDecodes(text: string)
    ensures DecodePayload(text).None? <==> J.Parse(text).None? || HasBadTag(J.Parse(text).value)
    ensures DecodePayload(text) == Some(Null) <==> J.Parse(text) == Some(J.Null)
  {
    if J.Parse(text).Some? {
      Refuses(J.Parse(text).value);
      ReadAsItself(J.Parse(text).value);
    }
  }

  /** decode_payload takes exactly the texts that spell a value with no bad tag
      in it; None is what it makes of a text that spells null, and of no
      other. */
  lemma Decodes(text: string)
    ensures DecodePayload(text).Some? <==> exists j :: JsonGrammar.Spells(text, j) && !HasBadTag(j)
    ensures DecodePayload(text) == Some(Null) <==> JsonGrammar.Spells(text, J.Null)
  {
    ParsedDecodes(text);
    JsonReads.ParseSpells(text, J.Null);
    if J.Parse(text).Some? { JsonReads.ParseSpells(text, J.Parse(text).value); }
    forall j | JsonGrammar.Spells(text, j) ensures J.Parse(text) == Some(j) {
      JsonReads.ParseSpells(text, j);
    }
  }

  // ---- What a text decodes to --------------------------------------------

  ghost predicate LastAt(pairs: seq<Entry>, i: int, e: Entry) {
    0 <= i < |pairs| && pairs[i] == e && forall k :: i < k < |pairs| ==> pairs[k].key != e.key
  }

  /** Where a key first stands, or past the end. */
  function First(pairs: seq<Entry>, key: Key): (n: nat)
    ensures n <= |pairs|
  {
    if |pairs| == 0 || pairs[0].key == key then 0 else 1 + First(pairs[1..], key)
  }

  predicate HasKey(entries: seq<Entry>, key: Key) {
    exists a :: 0 <= a < |entries| && entries[a].key == key
  }

  /** Each key once, with the last value it is given, in the order of the keys'
      first appearance. */
  ghost predicate IsDictOf(pairs: seq<Entry>, entries: seq<Entry>) {
    && Distinct(entries)
    && (forall e <- entries :: exists i :: LastAt(pairs, i, e))
    && (forall i :: 0 <= i < |pairs| ==> HasKey(entries, pairs[i].key))
    && (forall a, b :: 0 <= a < b < |entries| ==> First(pairs, entries[a].key) < First(pairs, entries[b].key))
  }

  lemma {:induction false} FirstOfMore(pairs: seq<Entry>, p: Entry, key: Key)
    ensures First(pairs + [p], key) == if HasKey(pairs, key) then First(pairs, key) else |pairs| + (if p.key == key then 0 else 1)
    ensures HasKey(pairs, key) <==> First(pairs, key) < |pairs|
  {
    if |pairs| == 0 {
      assert pairs + [p] == [p];
      assert [p][1..] == [];
    } else {
      assert (pairs + [p])[1..] == pairs[1..] + [p];
      FirstOfMore(pairs[1..], p, key);
      KeyOfRest(pairs, key);
    }
  }

  lemma KeyOfRest(pairs: seq<Entry>, key: Key)
    requires |pairs| > 0
    ensures HasKey(pairs, key) <==> pairs[0].key == key || HasKey(pairs[1..], key)
  {
    if HasKey(pairs, key) && pairs[0].key != key {
      var a :| 0 <= a < |pairs| && pairs[a].key == key;
      assert pairs[1..][a - 1].key == key;
    }
    if HasKey(pairs[1..], key) {
      var a :| 0 <= a < |pairs[1..]| && pairs[1..][a].key == key;
      assert pairs[a + 1].key == key;
    }
  }

  lemma {:induction false} AssignIs(entries: seq<Entry>, e: Entry)
    requires Distinct(entries)
    ensures HasKey(entries, e.key) ==>
              |Assign(entries, e)| == |entries| &&
              forall a :: 0 <= a < |entries| ==> Assign(entries, e)[a] == if entries[a].key == e.key then e else entries[a]
    ensures !HasKey(entries, e.key) ==> Assign(entries, e) == entries + [e]
  {
    if |entries| > 0 {
      KeyOfRest(entries, e.key);
      if entries[0].key != e.key { AssignIs(entries[1..], e); }
    }
  }

  /** json.loads builds that dict from an object's pairs. */
  lemma {:induction false} DictIs(pairs: seq<Entry>)
    ensures IsDictOf(pairs, DictOf(pairs))
  {
    if |pairs| > 0 {
      var before, last := pairs[..|pairs| - 1], pairs[|pairs| - 1];
      DictIs(before);
      DictStep(before, DictOf(before), last);
      BeforeAndLast(pairs);
    }
  }

  lemma BeforeAndLast<T>(s: seq<T>)
    requires |s| > 0
    ensures s == s[..|s| - 1] + [s[|s| - 1]]
  {
  }

  lemma DictStep(before: seq<Entry>, d: seq<Entry>, last: Entry)
    requires IsDictOf(before, d)
    ensures IsDictOf(before + [last], Assign(d, last))
  {
    AssignIs(d, last);
    DictGrows(before, d, last, Assign(d, last));
  }

  lemma DictGrows(before: seq<Entry>, d: seq<Entry>, last: Entry, r: seq<Entry>)
    requires IsDictOf(before, d) && r == Assign(d, last)
    requires HasKey(d, last.key) ==> |r| == |d| && forall a :: 0 <= a < |d| ==> r[a] == if d[a].key == last.key then last else d[a]
    requires !HasKey(d, last.key) ==> r == d + [last]
    ensures IsDictOf(before + [last], r)
  {
    EntriesGrow(before, d, last, r);
    KeysGrow(before, d, last, r);
    OrderGrows(before, d, last, r);
  }

  lemma EntriesGrow(before: seq<Entry>, d: seq<Entry>, last: Entry, r: seq<Entry>)
    requires forall e <- d :: exists i :: LastAt(before, i, e)
    requires forall e <- r :: e == last || (e in d && e.key != last.key)
    ensures forall e <- r :: exists i :: LastAt(before + [last], i, e)
  {
    forall e | e in r ensures exists i :: LastAt(before + [last], i, e) {
      if e == last {
        assert LastAt(before + [last], |before|, e);
      } else {
        var i :| LastAt(before, i, e);
        assert LastAt(before + [last], i, e);
      }
    }
  }

  lemma KeysGrow(before: seq<Entry>, d: seq<Entry>, last: Entry, r: seq<Entry>)
    requires forall i :: 0 <= i < |before| ==> HasKey(d, before[i].key)
    requires HasKey(d, last.key) ==> |r| == |d| && forall a :: 0 <= a < |d| ==> r[a] == if d[a].key == last.key then last else d[a]
    requires !HasKey(d, last.key) ==> r == d + [last]
    ensures forall i :: 0 <= i < |before + [last]| ==> HasKey(r, (before + [last])[i].key)
  {
    forall i | 0 <= i < |before + [last]| ensures HasKey(r, (before + [last])[i].key) {
      var key := (before + [last])[i].key;
      if HasKey(d, key) {
        var a :| 0 <= a < |d| && d[a].key == key;
        assert r[a].key == key;
      } else {
        assert r[|d|].key == key;
      }
    }
  }

  lemma OrderGrows(before: seq<Entry>, d: seq<Entry>, last: Entry, r: seq<Entry>)
    requires IsDictOf(before, d)
    requires HasKey(d, last.key) ==> |r| == |d| && forall a :: 0 <= a < |d| ==> r[a] == if d[a].key == last.key then last else d[a]
    requires !HasKey(d, last.key) ==> r == d + [last]
    ensures forall a, b :: 0 <= a < b < |r| ==> First(before + [last], r[a].key) < First(before + [last], r[b].key)
  {
    forall a, b | 0 <= a < b < |r| ensures First(before + [last], r[a].key) < First(before + [last], r[b].key) {
      FirstOfMore(before, last, r[a].key);
      FirstOfMore(before, last, r[b].key);
      InDict(before, d, d[a]);
      if b < |d| { InDict(before, d, d[b]); }
      if !HasKey(d, last.key) { NotInDict(before, d, last.key); }
    }
  }

  lemma InDict(pairs: seq<Entry>, d: seq<Entry>, e: Entry)
    requires IsDictOf(pairs, d) && e in d
    ensures HasKey(pairs, e.key)
  {
    var i :| LastAt(pairs, i, e);
  }

  lemma NotInDict(pairs: seq<Entry>, d: seq<Entry>, key: Key)
    requires IsDictOf(pairs, d) && !HasKey(d, key)
    ensures !HasKey(pairs, key)
  {
  }

  /** "$bytes" is the only key and ends up with a text. */
  predicate IsTag(members: seq<J.Member>) {
    |members| > 0 && (forall m <- members :: m.key == "$bytes") && members[|members| - 1].value.Str?
  }

  /** v is what a value of JSON stands for: itself, a list, the bytes a tag
      spells, or a dict. */
  ghost predicate Means(j: J.Json, v: Value)
    decreases j, 1
  {
    match j
    case Null => v == Null
    case Bool(b) => v == Bool(b)
    case Int(i) => v == Int(i)
    case Num(f) => v == Float(f)
    case Str(s) => v == Str(s)
    case Arr(items) => v.List? && ItemsMean(items, v.items)
    case Obj(members) =>
      if IsTag(members) then v.Binary? && v.kind.Bytes? && Base64.Decode(members[|members| - 1].value.s) == Some(v.data)
      else v.Dict? && exists pairs :: MembersMean(members, pairs) && IsDictOf(pairs, v.entries)
  }

  ghost predicate ItemsMean(items: seq<J.Json>, values: seq<Value>)
    decreases items, 0
  {
    |items| == |values| && (|items| > 0 ==> Means(items[0], values[0]) && ItemsMean(items[1..], values[1..]))
  }

  ghost predicate MembersMean(members: seq<J.Member>, pairs: seq<Entry>)
    decreases members, 0
  {
    && |members| == |pairs|
    && (|members| > 0 ==>
          && pairs[0].key == Text(members[0].key) && Means(members[0].value, pairs[0].value)
          && MembersMean(members[1..], pairs[1..]))
  }

  lemma {:induction false} FromWireMeans(j: J.Json)
    requires FromWire(j).Some?
    ensures Means(j, FromWire(j).value)
    decreases j, 1
  {
    match j
    case Arr(items) => FromItemsMean(items);
    case Obj(members) =>
      FromMembersMean(members);
      ObjectMeans(members);
    case _ =>
  }

  lemma ObjectMeans(members: seq<J.Member>)
    requires FromWire(J.Obj(members)).Some? && FromMembers(members).Some? && MembersMean(members, FromMembers(members).value)
    ensures Means(J.Obj(members), FromWire(J.Obj(members)).value)
  {
    var pairs := FromMembers(members).value;
    DictIs(pairs);
    HookMeans(members);
  }

  /** The hook sees a tag exactly where there is one. */
  lemma HookMeans(members: seq<J.Member>)
    requires FromMembers(members).Some?
    ensures var d := DictOf(FromMembers(members).value);
            if IsTag(members) then IsBareTag(d) && d[0].value == Str(members[|members| - 1].value.s) else !IsBareTag(d)
  {
    var pairs := FromMembers(members).value;
    if |members| > 0 {
      var last := |members| - 1;
      OneKey(pairs);
      MemberReads(members, last);
      ReadAsItself(members[last].value);
      SameKeys(members, pairs);
    }
  }

  lemma {:induction false} FromItemsMean(items: seq<J.Json>)
    requires FromItems(items).Some?
    ensures ItemsMean(items, FromItems(items).value)
    decreases items, 0
  {
    if |items| > 0 {
      FromWireMeans(items[0]);
      FromItemsMean(items[1..]);
      assert FromItems(items).value[1..] == FromItems(items[1..]).value;
    }
  }

  lemma {:induction false} FromMembersMean(members: seq<J.Member>)
    requires FromMembers(members).Some?
    ensures MembersMean(members, FromMembers(members).value)
    decreases members, 0
  {
    if |members| > 0 {
      assert members[0].value < members[0];
      FromWireMeans(members[0].value);
      FromMembersMean(members[1..]);
      assert FromMembers(members).value[1..] == FromMembers(members[1..]).value;
    }
  }

  /** What decode_payload returns is what the value its text spells stands
      for. */
  lemma DecodesToMeaning(text: string, v: Value)
    requires DecodePayload(text) == Some(v)
    ensures exists j :: JsonGrammar.Spells(text, j) && Means(j, v)
  {
    var j := J.Parse(text).value;
    JsonReads.ParseSpells(text, j);
    FromWireMeans(j);
  }

  /** A text the encoder made is always taken when it has no bare tag inside. */
  lemma EncodedDecodes(v: Value)
    requires IsPython(v) && EncodePayload(v).Ok? && !WireLaws.HasBareTag(v)
    ensures exists j :: JsonGrammar.Spells(EncodePayload(v).value, j) && !HasBadTag(j)
  {
    WireLaws.RoundTrip(v);
    Decodes(EncodePayload(v).value);
  }
}
