/** Which texts spell which JSON value (RFC 8259 sections 2 to 7), said without
    the reader or the writer: a document with every blank, escape and digit of
    it, the text it is written as, and the value it stands for. */
module JsonGrammar {
  import opened JsonNumber
  import opened JsonString
  import opened Json

  datatype Doc =
    | Literal(word: string)
    | Numeric(n: Numeral)
    | Text(pieces: seq<Piece>)
    | EmptyArray(space: string)
    | Array(items: seq<Item>)
    | EmptyObject(space: string)
    | Object(fields: seq<Field>)

  /** A value with the blanks around it. */
  datatype Item = Item(before: string, value: Doc, after: string)

  datatype Field = Field(before: string, key: seq<Piece>, afterKey: string, value: Item)

  predicate IsBlank(s: string) {
    forall i :: 0 <= i < |s| ==> s[i] == ' ' || s[i] == '\t' || s[i] == '\n' || s[i] == '\r'
  }

  /** The literals of RFC 8259, and the three json.loads reads beside them. */
  predicate IsLiteral(word: string) {
    word == "null" || word == "true" || word == "false" || word == "NaN" || word == "Infinity" || word == "-Infinity"
  }

  function LiteralValue(word: string): Json
    requires IsLiteral(word)
  {
    if word == "null" then Null
    else if word == "true" then Bool(true)
    else if word == "false" then Bool(false)
    else if word == "NaN" then Num(NaN)
    else if word == "Infinity" then Num(Infinity)
    else Num(NegInfinity)
  }

  // ---- What is a document ------------------------------------------------

  predicate IsDoc(d: Doc)
    decreases d, 1
  {
    match d
    case Literal(word) => IsLiteral(word)
    case Numeric(n) => IsNumeral(n)
    case Text(pieces) => ArePieces(pieces)
    case EmptyArray(space) => IsBlank(space)
    case Array(items) => |items| > 0 && AreItems(items)
    case EmptyObject(space) => IsBlank(space)
    case Object(fields) => |fields| > 0 && AreFields(fields)
  }

  predicate IsItem(item: Item)
    decreases item, 2
  {
    IsBlank(item.before) && IsDoc(item.value) && IsBlank(item.after)
  }

  predicate AreItems(items: seq<Item>)
    decreases items, 0
  {
    |items| > 0 ==> IsItem(items[0]) && AreItems(items[1..])
  }

  predicate IsField(field: Field)
    decreases field, 2
  {
    IsBlank(field.before) && ArePieces(field.key) && IsBlank(field.afterKey) && IsItem(field.value)
  }

  predicate AreFields(fields: seq<Field>)
    decreases fields, 0
  {
    |fields| > 0 ==> IsField(fields[0]) && AreFields(fields[1..])
  }

  // ---- How it is written -------------------------------------------------

  function Quoted(pieces: seq<Piece>): string {
    "\"" + (PiecesText(pieces) + "\"")
  }

  function DocText(d: Doc): string
    decreases d, 1
  {
    match d
    case Literal(word) => word
    case Numeric(n) => NumeralText(n)
    case Text(pieces) => Quoted(pieces)
    case EmptyArray(space) => "[" + (space + "]")
    case Array(items) => "[" + (ItemsText(items) + "]")
    case EmptyObject(space) => "{" + (space + "}")
    case Object(fields) => "{" + (FieldsText(fields) + "}")
  }

  function ItemText(item: Item): string
    decreases item, 2
  {
    item.before + (DocText(item.value) + item.after)
  }

  function ItemsText(items: seq<Item>): string
    decreases items, 0
  {
    if |items| == 0 then ""
    else if |items| == 1 then ItemText(items[0])
    else ItemText(items[0]) + ("," + ItemsText(items[1..]))
  }

  function FieldText(field: Field): string
    decreases field, 2
  {
    field.before + (Quoted(field.key) + (field.afterKey + (":" + ItemText(field.value))))
  }

  function FieldsText(fields: seq<Field>): string
    decreases fields, 0
  {
    if |fields| == 0 then ""
    else if |fields| == 1 then FieldText(fields[0])
    else FieldText(fields[0]) + ("," + FieldsText(fields[1..]))
  }

  // ---- What it stands for ------------------------------------------------

  function NumeralValue(n: Numeral): Json
    requires IsNumeral(n)
  {
    if IsFloatNumeral(n) then Num(Finite(NumeralText(n))) else Int(WholeValue(n))
  }

  function DocValue(d: Doc): Json
    requires IsDoc(d)
    decreases d, 1
  {
    match d
    case Literal(word) => LiteralValue(word)
    case Numeric(n) => NumeralValue(n)
    case Text(pieces) => Str(PiecesValue(pieces))
    case EmptyArray(_) => Arr([])
    case Array(items) => Arr(ItemsValue(items))
    case EmptyObject(_) => Obj([])
    case Object(fields) => Obj(FieldsValue(fields))
  }

  function ItemValue(item: Item): Json
    requires IsItem(item)
    decreases item, 2
  {
    DocValue(item.value)
  }

  function ItemsValue(items: seq<Item>): seq<Json>
    requires AreItems(items)
    decreases items, 0
  {
    if |items| == 0 then [] else [ItemValue(items[0])] + ItemsValue(items[1..])
  }

  function FieldValue(field: Field): Member
    requires IsField(field)
    decreases field, 2
  {
    Member(PiecesValue(field.key), ItemValue(field.value))
  }

  function FieldsValue(fields: seq<Field>): seq<Member>
    requires AreFields(fields)
    decreases fields, 0
  {
    if |fields| == 0 then [] else [FieldValue(fields[0])] + FieldsValue(fields[1..])
  }

  /** The text is a document for this value, with blanks around it. */
  ghost predicate Spells(text: string, j: Json) {
    exists item: Item :: IsItem(item) && ItemText(item) == text && ItemValue(item) == j
  }

  // ---- Without a character to spare --------------------------------------

  /** No blanks, every character in its shortest ASCII form with lowercase hex,
      no minus sign on zero. */
  predicate IsCompact(d: Doc)
    requires IsDoc(d)
    decreases d, 1
  {
    match d
    case Literal(_) => true
    case Numeric(n) => n.minus && !IsFloatNumeral(n) ==> n.whole != "0"
    case Text(pieces) => forall p <- pieces :: IsCompactPiece(p)
    case EmptyArray(space) => space == ""
    case Array(items) => CompactItems(items)
    case EmptyObject(space) => space == ""
    case Object(fields) => CompactFields(fields)
  }

  predicate CompactItem(item: Item)
    requires IsItem(item)
    decreases item, 2
  {
    item.before == "" && IsCompact(item.value) && item.after == ""
  }

  predicate CompactItems(items: seq<Item>)
    requires AreItems(items)
    decreases items, 0
  {
    |items| > 0 ==> CompactItem(items[0]) && CompactItems(items[1..])
  }

  predicate CompactField(field: Field)
    requires IsField(field)
    decreases field, 2
  {
    field.before == "" && (forall p <- field.key :: IsCompactPiece(p)) && field.afterKey == "" && CompactItem(field.value)
  }

  predicate CompactFields(fields: seq<Field>)
    requires AreFields(fields)
    decreases fields, 0
  {
    |fields| > 0 ==> CompactField(fields[0]) && CompactFields(fields[1..])
  }
}
