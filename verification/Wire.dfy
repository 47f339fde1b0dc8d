/** The payload codec: Python values to the JSON text the native layer turns
    into wire CBOR, and back. Byte strings travel in band, as an object whose
    only key is "$bytes". */
module Wire {
  import opened Options
  import Base64
  import J = Json
  import JsonNumber

  /** The byte-like types, all of which the encoder takes. */
  datatype BytesType = Bytes | ByteArray | MemoryView

  datatype Value =
    | Null
    | Bool(b: bool)
    | Int(i: int)
    | Float(f: JsonNumber.Float)
    | Str(s: string)
    | Binary(kind: BytesType, data: seq<Base64.Byte>)
    | List(items: seq<Value>)
    | Tuple(items: seq<Value>)
    | Dict(entries: seq<Entry>)
    | Other(typeName: string)

  datatype Key = Text(s: string) | NotText(typeName: string)

  /** A dict is its entries in insertion order. */
  datatype Entry = Entry(key: Key, value: Value)

  datatype WireError =
    | Boolean
    | OutsideInt64(i: int)
    | KeyNotText(typeName: string)
    | NoWireForm(typeName: string)
    | NotFinite

  const INT64_MIN: int := -0x8000_0000_0000_0000
  const INT64_MAX: int := 0x7FFF_FFFF_FFFF_FFFF

  const BYTES_TAG := "$bytes"

  /** No key occurs twice: what makes a sequence of entries a dict. */
  predicate Distinct(entries: seq<Entry>) {
    forall i, k :: 0 <= i < k < |entries| ==> entries[i].key != entries[k].key
  }

  /** Every dict inside is one. */
  predicate IsPython(v: Value) {
    match v
    case List(items) => forall x <- items :: IsPython(x)
    case Tuple(items) => forall x <- items :: IsPython(x)
    case Dict(entries) => Distinct(entries) && forall e <- entries :: IsPython(e.value)
    case _ => true
  }

  // ---- Encoding ----------------------------------------------------------

  function TagBytes(data: seq<Base64.Byte>): J.Json {
    J.Obj([J.Member(BYTES_TAG, J.Str(Base64.Encode(data)))])
  }

  /** The wire form of a value, or what refuses it. */
  function WireOf(v: Value): Result<J.Json, WireError>
    decreases v, 1
  {
    match v
    case Null => Ok(J.Null)
    case Bool(_) => Err(Boolean)
    case Int(i) => if INT64_MIN <= i <= INT64_MAX then Ok(J.Int(i)) else Err(OutsideInt64(i))
    case Float(f) => Ok(J.Num(f))
    case Str(s) => Ok(J.Str(s))
    case Binary(_, data) => Ok(TagBytes(data))
    case List(items) => ArrayOf(WireOfItems(items))
    case Tuple(items) => ArrayOf(WireOfItems(items))
    case Dict(entries) => ObjectOf(WireOfEntries(entries))
    case Other(typeName) => Err(NoWireForm(typeName))
  }

  function ArrayOf(r: Result<seq<J.Json>, WireError>): Result<J.Json, WireError> {
    match r
    case Err(e) => Err(e)
    case Ok(items) => Ok(J.Arr(items))
  }

  function ObjectOf(r: Result<seq<J.Member>, WireError>): Result<J.Json, WireError> {
    match r
    case Err(e) => Err(e)
    case Ok(members) => Ok(J.Obj(members))
  }

  function WireOfItems(items: seq<Value>): (r: Result<seq<J.Json>, WireError>)
    ensures r.Ok? ==> |r.value| == |items|
    decreases items, 0
  {
    if |items| == 0 then Ok([])
    else
      match WireOf(items[0])
      case Err(e) => Err(e)
      case Ok(first) =>
        match WireOfItems(items[1..])
        case Err(e) => Err(e)
        case Ok(rest) => Ok([first] + rest)
  }

  /** A key is checked before its own value. */
  function WireOfEntry(e: Entry): Result<J.Member, WireError>
    decreases e, 2
  {
    match e.key
    case NotText(typeName) => Err(KeyNotText(typeName))
    case Text(key) =>
      match WireOf(e.value)
      case Err(e) => Err(e)
      case Ok(value) => Ok(J.Member(key, value))
  }

  function WireOfEntries(entries: seq<Entry>): (r: Result<seq<J.Member>, WireError>)
    ensures r.Ok? ==> |r.value| == |entries|
    decreases entries, 0
  {
    if |entries| == 0 then Ok([])
    else
      match WireOfEntry(entries[0])
      case Err(e) => Err(e)
      case Ok(first) =>
        match WireOfEntries(entries[1..])
        case Err(e) => Err(e)
        case Ok(rest) => Ok([first] + rest)
  }

  /** Whether json.dumps with allow_nan=False takes it. */
  predicate AllFinite(j: J.Json) {
    match j
    case Num(f) => f.Finite?
    case Arr(items) => forall x <- items :: AllFinite(x)
    case Obj(members) => forall m <- members :: AllFinite(m.value)
    case _ => true
  }

  function EncodePayload(v: Value): Result<string, WireError> {
    match WireOf(v)
    case Err(e) => Err(e)
    case Ok(j) => if AllFinite(j) then Ok(J.Print(j)) else Err(NotFinite)
  }

  // ---- Decoding ----------------------------------------------------------

  /** The dict that assigning the pairs in order builds: the last value of a
      repeated key, in the place of the first. */
  function DictOf(pairs: seq<Entry>): (entries: seq<Entry>)
    ensures Distinct(entries)
  {
    if |pairs| == 0 then []
    else Assign(DictOf(pairs[..|pairs| - 1]), pairs[|pairs| - 1])
  }

  function Assign(entries: seq<Entry>, e: Entry): (r: seq<Entry>)
    requires Distinct(entries)
    ensures Distinct(r)
    ensures forall x <- r :: x == e || (x in entries && x.key != e.key)
  {
    if |entries| == 0 then [e]
    else if entries[0].key == e.key then [e] + entries[1..]
    else [entries[0]] + Assign(entries[1..], e)
  }

  /** The object_hook: a lone "$bytes" with a text is the bytes it spells, or
      an error when it spells none. */
  function Hook(entries: seq<Entry>): Option<Value> {
    if IsBareTag(entries) then
      match Base64.Decode(entries[0].value.s)
      case None => None
      case Some(data) => Some(Binary(Bytes, data))
    else Some(Dict(entries))
  }

  predicate IsBareTag(entries: seq<Entry>) {
    |entries| == 1 && entries[0].key == Text(BYTES_TAG) && entries[0].value.Str?
  }

  /** What json.loads makes of a text's structure, hooks run from the inside
      out. */
  function FromWire(j: J.Json): Option<Value>
    decreases j, 1
  {
    match j
    case Null => Some(Null)
    case Bool(b) => Some(Bool(b))
    case Int(i) => Some(Int(i))
    case Num(f) => Some(Float(f))
    case Str(s) => Some(Str(s))
    case Arr(items) =>
      (match FromItems(items)
       case None => None
       case Some(values) => Some(List(values)))
    case Obj(members) =>
      (match FromMembers(members)
       case None => None
       case Some(pairs) => Hook(DictOf(pairs)))
  }

  function FromItems(items: seq<J.Json>): (r: Option<seq<Value>>)
    ensures r.Some? ==> |r.value| == |items|
    decreases items, 0
  {
    if |items| == 0 then Some([])
    else
      match (FromWire(items[0]), FromItems(items[1..]))
      case (Some(first), Some(rest)) => Some([first] + rest)
      case _ => None
  }

  function FromMembers(members: seq<J.Member>): (r: Option<seq<Entry>>)
    ensures r.Some? ==> |r.value| == |members|
    ensures r.Some? ==> forall i :: 0 <= i < |members| ==> r.value[i].key == Text(members[i].key)
    decreases members, 0
  {
    if |members| == 0 then Some([])
    else
      match (FromWire(members[0].value), FromMembers(members[1..]))
      case (Some(first), Some(rest)) => Some([Entry(Text(members[0].key), first)] + rest)
      case _ => None
  }

  function DecodePayload(text: string): Option<Value> {
    match J.Parse(text)
    case None => None
    case Some(j) => FromWire(j)
  }

  // ---- The encoder's loops -----------------------------------------------

  /** The recursive encoder, its list comprehension written as the loop it is. */
  method ToWire(v: Value) returns (r: Result<J.Json, WireError>)
    ensures r == WireOf(v)
    decreases v, 1
  {
    match v {
      case Null => r := Ok(J.Null);
      case Bool(_) => r := Err(Boolean);
      case Int(i) => r := if INT64_MIN <= i <= INT64_MAX then Ok(J.Int(i)) else Err(OutsideInt64(i));
      case Float(f) => r := Ok(J.Num(f));
      case Str(s) => r := Ok(J.Str(s));
      case Binary(_, data) => r := Ok(TagBytes(data));
      case List(items) => r := ToWireList(items);
      case Tuple(items) => r := ToWireList(items);
      case Dict(entries) => r := ToWireMap(entries);
      case Other(typeName) => r := Err(NoWireForm(typeName));
    }
  }

  method ToWireList(items: seq<Value>) returns (r: Result<J.Json, WireError>)
    ensures r == ArrayOf(WireOfItems(items))
    decreases items, 0
  {
    var out: seq<J.Json> := [];
    assert items[0..] == items;
    PrependNothing(WireOfItems(items));
    for k := 0 to |items|
      invariant WireOfItems(items) == Prepend(out, WireOfItems(items[k..]))
    {
      assert items[k..][1..] == items[k + 1..];
      var one := ToWire(items[k]);
      if one.Err? {
        return Err(one.error);
      }
      PrependMore(out, one.value, WireOfItems(items[k + 1..]));
      out := out + [one.value];
    }
    assert out + [] == out;
    r := Ok(J.Arr(out));
  }

  /** A dict's wire form, filled entry by entry. */
  method ToWireMap(entries: seq<Entry>) returns (r: Result<J.Json, WireError>)
    ensures r == ObjectOf(WireOfEntries(entries))
    decreases entries, 0
  {
    var out: seq<J.Member> := [];
    assert entries[0..] == entries;
    PrependNothing(WireOfEntries(entries));
    for k := 0 to |entries|
      invariant WireOfEntries(entries) == Prepend(out, WireOfEntries(entries[k..]))
    {
      var entry := entries[k];
      assert entry.value < entry;
      assert entries[k..][1..] == entries[k + 1..];
      if entry.key.NotText? {
        return Err(KeyNotText(entry.key.typeName));
      }
      var one := ToWire(entry.value);
      if one.Err? {
        return Err(one.error);
      }
      PrependMore(out, J.Member(entry.key.s, one.value), WireOfEntries(entries[k + 1..]));
      out := out + [J.Member(entry.key.s, one.value)];
    }
    assert out + [] == out;
    r := Ok(J.Obj(out));
  }

  function Prepend<T>(out: seq<T>, r: Result<seq<T>, WireError>): Result<seq<T>, WireError> {
    match r
    case Err(e) => Err(e)
    case Ok(more) => Ok(out + more)
  }

  lemma PrependNothing<T>(r: Result<seq<T>, WireError>)
    ensures Prepend([], r) == r
  {
    if r.Ok? {
      assert [] + r.value == r.value;
    }
  }

  lemma PrependMore<T>(out: seq<T>, one: T, r: Result<seq<T>, WireError>)
    ensures Prepend(out, Prepend([one], r)) == Prepend(out + [one], r)
  {
    if r.Ok? {
      assert out + ([one] + r.value) == out + [one] + r.value;
    }
  }
}
