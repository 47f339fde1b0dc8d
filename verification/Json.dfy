/** The JSON text between Python and the native layer (RFC 8259): the compact
    printer json.dumps is called as, and the reader json.loads is. */
module Json {
  import opened Options
  import opened JsonNumber
  import opened JsonString

  datatype Json =
    | Null
    | Bool(b: bool)
    | Int(i: int)
    | Num(f: Float)
    | Str(s: string)
    | Arr(items: seq<Json>)
    | Obj(members: seq<Member>)

  datatype Member = Member(key: string, value: Json)

  function FloatToText(f: Float): string {
    match f
    case Finite(text) => text
    case NaN => "NaN"
    case Infinity => "Infinity"
    case NegInfinity => "-Infinity"
  }

  /** json.dumps with separators (",", ":"). */
  function Print(j: Json): string
    decreases j, 1
  {
    match j
    case Null => "null"
    case Bool(b) => if b then "true" else "false"
    case Int(i) => IntText(i)
    case Num(f) => FloatToText(f)
    case Str(s) => Quote(s)
    case Arr(items) => "[" + (PrintItems(items) + "]")
    case Obj(members) => "{" + (PrintMembers(members) + "}")
  }

  function PrintItems(items: seq<Json>): string
    decreases items, 0
  {
    if |items| == 0 then ""
    else if |items| == 1 then Print(items[0])
    else Print(items[0]) + ("," + PrintItems(items[1..]))
  }

  function PrintMember(m: Member): string
    decreases m, 2
  {
    Quote(m.key) + (":" + Print(m.value))
  }

  function PrintMembers(members: seq<Member>): string
    decreases members, 0
  {
    if |members| == 0 then ""
    else if |members| == 1 then PrintMember(members[0])
    else PrintMember(members[0]) + ("," + PrintMembers(members[1..]))
  }

  predicate IsSpace(c: char) {
    c == ' ' || c == '\t' || c == '\n' || c == '\r'
  }

  function SkipSpace(s: string): (r: string)
    ensures |r| <= |s|
  {
    if s != "" && IsSpace(s[0]) then SkipSpace(s[1..]) else s
  }

  /** A value and the text after it. */
  datatype Read<T> = Read(value: T, rest: string)

  function ReadNumber(s: string): (r: Option<Read<Json>>)
    ensures r.Some? ==> |r.value.rest| < |s|
  {
    match ScanNumber(s)
    case None => None
    case Some(n) =>
      var text := s[..n.length];
      if n.float then
        FloatScanned(s);
        Some(Read(Num(Finite(text)), s[n.length..]))
      else Some(Read(Int(IntValue(text)), s[n.length..]))
  }

  /** The literal s can only be, from how it starts. */
  function Keyword(s: string): (j: Option<Json>)
    requires s != ""
  {
    if s[0] == 'n' then Some(Null)
    else if s[0] == 't' then Some(Bool(true))
    else if s[0] == 'f' then Some(Bool(false))
    else if s[0] == 'N' then Some(Num(NaN))
    else if s[0] == 'I' then Some(Num(Infinity))
    else if s[0] == '-' && |s| > 1 && s[1] == 'I' then Some(Num(NegInfinity))
    else None
  }

  function ReadLiteral(s: string, word: string, j: Json): (r: Option<Read<Json>>)
    ensures r.Some? && word != "" ==> |r.value.rest| < |s|
  {
    if |word| <= |s| && s[..|word|] == word then Some(Read(j, s[|word|..])) else None
  }

  /** A literal, or a number. */
  function ReadScalar(s: string): (r: Option<Read<Json>>)
    requires s != ""
    ensures r.Some? ==> |r.value.rest| < |s|
  {
    match Keyword(s)
    case None => ReadNumber(s)
    case Some(j) => ReadLiteral(s, Print(j), j)
  }

  /** The value s starts with. */
  function ReadValue(s: string): (r: Option<Read<Json>>)
    ensures r.Some? ==> |r.value.rest| < |s|
    decreases |s|, 0
  {
    if s == "" then None
    else if s[0] == '"' then
      match ScanString(s[1..])
      case None => None
      case Some((value, rest)) => Some(Read(Str(value), rest))
    else if s[0] == '[' then
      var t := SkipSpace(s[1..]);
      if t != "" && t[0] == ']' then Some(Read(Arr([]), t[1..]))
      else
        match ReadItems(t)
        case None => None
        case Some(r) => Some(Read(Arr(r.value), r.rest))
    else if s[0] == '{' then
      var t := SkipSpace(s[1..]);
      if t != "" && t[0] == '}' then Some(Read(Obj([]), t[1..]))
      else
        match ReadMembers(t)
        case None => None
        case Some(r) => Some(Read(Obj(r.value), r.rest))
    else ReadScalar(s)
  }

  /** One value or more, up to the closing bracket. */
  function ReadItems(s: string): (r: Option<Read<seq<Json>>>)
    ensures r.Some? ==> |r.value.rest| < |s|
    decreases |s|, 1
  {
    match ReadValue(s)
    case None => None
    case Some(first) =>
      var t := SkipSpace(first.rest);
      if t == "" then None
      else if t[0] == ']' then Some(Read([first.value], t[1..]))
      else if t[0] == ',' then
        match ReadItems(SkipSpace(t[1..]))
        case None => None
        case Some(more) => Some(Read([first.value] + more.value, more.rest))
      else None
  }

  /** One member: a string key, a colon, a value. */
  function ReadMember(s: string): (r: Option<Read<Member>>)
    ensures r.Some? ==> |r.value.rest| < |s|
    decreases |s|, 1
  {
    if s == "" || s[0] != '"' then None
    else
      match ScanString(s[1..])
      case None => None
      case Some((key, after)) =>
        var t := SkipSpace(after);
        if t == "" || t[0] != ':' then None
        else
          match ReadValue(SkipSpace(t[1..]))
          case None => None
          case Some(v) => Some(Read(Member(key, v.value), v.rest))
  }

  /** One member or more, up to the closing brace. */
  function ReadMembers(s: string): (r: Option<Read<seq<Member>>>)
    ensures r.Some? ==> |r.value.rest| < |s|
    decreases |s|, 2
  {
    match ReadMember(s)
    case None => None
    case Some(first) =>
      var t := SkipSpace(first.rest);
      if t == "" then None
      else if t[0] == '}' then Some(Read([first.value], t[1..]))
      else if t[0] == ',' then
        match ReadMembers(SkipSpace(t[1..]))
        case None => None
        case Some(more) => Some(Read([first.value] + more.value, more.rest))
      else None
  }

  /** json.loads: one value, with white space around it and nothing else. */
  function Parse(text: string): Option<Json> {
    match ReadValue(SkipSpace(text))
    case None => None
    case Some(r) => if SkipSpace(r.rest) == "" then Some(r.value) else None
  }
}
