/** The reader takes exactly what the grammar spells, as the value it spells, and
    the writer's text is the one compact text of its value. */
module JsonReads {
  import opened Options
  import opened JsonNumber
  import opened JsonString
  import opened Json
  import opened JsonGrammar

  // ---- Every document is read --------------------------------------------

  /** A value starts with none of the characters the reader looks for before
      one: white space or a closing bracket. */
  predicate Starts(s: string) {
    s != "" && !IsSpace(s[0]) && s[0] != ']' && s[0] != '}'
  }

  lemma {:induction false} BlankSkips(b: string, t: string)
    requires IsBlank(b) && (t == "" || !IsSpace(t[0]))
    ensures SkipSpace(b + t) == t
  {
    if b == "" {
      assert b + t == t;
    } else {
      assert (b + t)[1..] == b[1..] + t;
      BlankSkips(b[1..], t);
    }
  }

  lemma Assoc(a: string, b: string, c: string)
    ensures (a + b) + c == a + (b + c)
  {
  }

  lemma DropOne(a: string, t: string)
    requires |a| == 1
    ensures (a + t)[1..] == t && (a + t)[0] == a[0]
  {
  }

  lemma OpeningStarts(opening: string, s: string)
    requires Starts(opening)
    ensures Starts(opening + s)
  {
  }

  predicate StartsNumber(s: string) {
    s != "" && (IsDigit(s[0]) || (s[0] == '-' && |s| > 1 && IsDigit(s[1])))
  }

  lemma NumeralStarts(n: Numeral, rest: string)
    requires IsNumeral(n)
    ensures StartsNumber(NumeralText(n) + rest)
  {
    WholeStarts(n.minus, n.whole, FracText(n.frac) + ExpText(n.exp), rest);
  }

  lemma WholeStarts(minus: bool, whole: string, tail: string, rest: string)
    requires IsWhole(whole)
    ensures StartsNumber(((SignText(minus) + whole) + tail) + rest)
  {
    var s := ((SignText(minus) + whole) + tail) + rest;
    if minus { assert s[1] == whole[0]; } else { assert s[0] == whole[0]; }
  }

  lemma DocStarts(d: Doc, rest: string)
    requires IsDoc(d)
    ensures Starts(DocText(d) + rest)
  {
    match d
    case Literal(word) => OpeningStarts(word, rest);
    case Numeric(n) => NumeralStarts(n, rest);
    case Text(pieces) => BracketStarts("\"", PiecesText(pieces) + "\"", rest);
    case EmptyArray(space) => BracketStarts("[", space + "]", rest);
    case Array(items) => BracketStarts("[", ItemsText(items) + "]", rest);
    case EmptyObject(space) => BracketStarts("{", space + "}", rest);
    case Object(fields) => BracketStarts("{", FieldsText(fields) + "}", rest);
  }

  lemma BracketStarts(bracket: string, s: string, rest: string)
    requires Starts(bracket)
    ensures Starts((bracket + s) + rest)
  {
  }

  lemma ScalarIs(s: string)
    requires s != "" && s[0] != '"' && s[0] != '[' && s[0] != '{'
    ensures ReadValue(s) == ReadScalar(s)
  {
  }

  lemma NoKeyword(s: string)
    requires StartsNumber(s)
    ensures Keyword(s) == None
  {
  }

  lemma NumberIs(s: string)
    requires StartsNumber(s)
    ensures ReadScalar(s) == ReadNumber(s)
  {
    NoKeyword(s);
  }

  lemma NumeralIsRead(n: Numeral, rest: string)
    requires IsNumeral(n) && Ends(rest)
    ensures ReadNumber(NumeralText(n) + rest) == Some(Read(NumeralValue(n), rest))
  {
    NumeralScans(n, rest);
    DropPart(NumeralText(n), rest);
    if !IsFloatNumeral(n) { IntValueIs(n); }
  }

  lemma NumeralReads(n: Numeral, rest: string)
    requires IsNumeral(n) && Ends(rest)
    ensures ReadValue(NumeralText(n) + rest) == Some(Read(NumeralValue(n), rest))
  {
    var s := NumeralText(n) + rest;
    NumeralStarts(n, rest);
    ScalarIs(s);
    NumberIs(s);
    NumeralIsRead(n, rest);
  }

  lemma KeywordIs(word: string, rest: string)
    requires IsLiteral(word)
    ensures word + rest != "" && Keyword(word + rest) == Some(LiteralValue(word)) && Print(LiteralValue(word)) == word
  {
    assert (word + rest)[0] == word[0] && (word + rest)[1] == word[1];
  }

  lemma WordReads(word: string, j: Json, rest: string)
    ensures ReadLiteral(word + rest, word, j) == Some(Read(j, rest))
  {
    DropPart(word, rest);
  }

  lemma LiteralReads(word: string, rest: string)
    requires IsLiteral(word)
    ensures ReadValue(word + rest) == Some(Read(LiteralValue(word), rest))
  {
    KeywordIs(word, rest);
    LiteralStarts(word, rest);
    ScalarIs(word + rest);
    WordReads(word, LiteralValue(word), rest);
  }

  lemma LiteralStarts(word: string, rest: string)
    requires IsLiteral(word)
    ensures word + rest != "" && (word + rest)[0] != '"' && (word + rest)[0] != '[' && (word + rest)[0] != '{'
  {
    assert (word + rest)[0] == word[0];
  }

  lemma StringOpens(t: string, v: string, rest: string)
    requires ScanString(t) == Some((v, rest))
    ensures ReadValue("\"" + t) == Some(Read(Str(v), rest))
  {
    DropOne("\"", t);
  }

  lemma QuotedText(pieces: seq<Piece>, rest: string)
    ensures Quoted(pieces) + rest == "\"" + (PiecesText(pieces) + ("\"" + rest))
  {
    AppendInside("\"", PiecesText(pieces), "\"", rest);
  }

  lemma QuotedReads(pieces: seq<Piece>, rest: string)
    requires ArePieces(pieces)
    ensures ReadValue(Quoted(pieces) + rest) == Some(Read(Str(PiecesValue(pieces)), rest))
  {
    PiecesRead(pieces, rest);
    QuotedText(pieces, rest);
    StringOpens(PiecesText(pieces) + ("\"" + rest), PiecesValue(pieces), rest);
  }

  lemma EmptyArrayReads(space: string, rest: string)
    requires IsBlank(space)
    ensures ReadValue(("[" + (space + "]")) + rest) == Some(Read(Arr([]), rest))
  {
    var t := space + ("]" + rest);
    AppendInside("[", space, "]", rest);
    DropOne("[", t);
    DropOne("]", rest);
    BlankSkips(space, "]" + rest);
    EmptyArrayIs("[" + t, t, rest);
  }

  lemma EmptyArrayIs(s: string, t: string, rest: string)
    requires s != "" && s[0] == '[' && s[1..] == t && SkipSpace(t) != "" && SkipSpace(t)[0] == ']' && SkipSpace(t)[1..] == rest
    ensures ReadValue(s) == Some(Read(Arr([]), rest))
  {
  }

  lemma EmptyObjectReads(space: string, rest: string)
    requires IsBlank(space)
    ensures ReadValue(("{" + (space + "}")) + rest) == Some(Read(Obj([]), rest))
  {
    var t := space + ("}" + rest);
    AppendInside("{", space, "}", rest);
    DropOne("{", t);
    DropOne("}", rest);
    BlankSkips(space, "}" + rest);
    EmptyObjectIs("{" + t, t, rest);
  }

  lemma EmptyObjectIs(s: string, t: string, rest: string)
    requires s != "" && s[0] == '{' && s[1..] == t && SkipSpace(t) != "" && SkipSpace(t)[0] == '}' && SkipSpace(t)[1..] == rest
    ensures ReadValue(s) == Some(Read(Obj([]), rest))
  {
  }

  lemma ArrayOpens(t: string, items: seq<Json>, rest: string)
    requires Starts(SkipSpace(t)) && ReadItems(SkipSpace(t)) == Some(Read(items, rest))
    ensures ReadValue("[" + t) == Some(Read(Arr(items), rest))
  {
    DropOne("[", t);
  }

  lemma ObjectOpens(t: string, members: seq<Member>, rest: string)
    requires Starts(SkipSpace(t)) && ReadMembers(SkipSpace(t)) == Some(Read(members, rest))
    ensures ReadValue("{" + t) == Some(Read(Obj(members), rest))
  {
    DropOne("{", t);
  }

  /** What may come after a value and the blanks after it. */
  predicate Closes(t: string) {
    t == "" || t[0] == ',' || t[0] == ']' || t[0] == '}'
  }

  lemma BlankEnds(after: string, t: string)
    requires IsBlank(after) && Closes(t)
    ensures Ends(after + t) && SkipSpace(after + t) == t
  {
    BlankSkips(after, t);
  }

  /** Every document is read whole, as its value, whatever delimiter follows. */
  lemma {:induction false} DocReads(d: Doc, rest: string)
    requires IsDoc(d) && Ends(rest)
    ensures ReadValue(DocText(d) + rest) == Some(Read(DocValue(d), rest))
    decreases d, 1
  {
    match d
    case Literal(word) => LiteralReads(word, rest);
    case Numeric(n) => NumeralReads(n, rest);
    case Text(pieces) => QuotedReads(pieces, rest);
    case EmptyArray(space) => EmptyArrayReads(space, rest);
    case EmptyObject(space) => EmptyObjectReads(space, rest);
    case Array(items) =>
      ItemsRead(items, rest);
      AppendInside("[", ItemsText(items), "]", rest);
      ArrayOpens(ItemsText(items) + ("]" + rest), ItemsValue(items), rest);
    case Object(fields) =>
      FieldsRead(fields, rest);
      AppendInside("{", FieldsText(fields), "}", rest);
      ObjectOpens(FieldsText(fields) + ("}" + rest), FieldsValue(fields), rest);
  }

  lemma {:induction false} ItemReads(item: Item, t: string)
    requires IsItem(item) && Closes(t)
    ensures Starts(SkipSpace(ItemText(item) + t))
    ensures ReadValue(SkipSpace(ItemText(item) + t)) == Some(Read(ItemValue(item), item.after + t))
    decreases item, 2
  {
    BlankEnds(item.after, t);
    DocStarts(item.value, item.after + t);
    BlankSkips(item.before, DocText(item.value) + (item.after + t));
    AppendInside(item.before, DocText(item.value), item.after, t);
    DocReads(item.value, item.after + t);
  }

  lemma ItemsEnd(s: string, j: Json, after: string, rest: string)
    requires ReadValue(s) == Some(Read(j, after + ("]" + rest))) && SkipSpace(after + ("]" + rest)) == "]" + rest
    ensures ReadItems(s) == Some(Read([j], rest))
  {
    DropOne("]", rest);
  }

  lemma ItemsGoOn(s: string, j: Json, after: string, t: string, items: seq<Json>, rest: string)
    requires ReadValue(s) == Some(Read(j, after + ("," + t))) && SkipSpace(after + ("," + t)) == "," + t
    requires ReadItems(SkipSpace(t)) == Some(Read(items, rest))
    ensures ReadItems(s) == Some(Read([j] + items, rest))
  {
    DropOne(",", t);
  }

  lemma OneItem(items: seq<Item>)
    requires AreItems(items) && |items| == 1
    ensures ItemsValue(items) == [ItemValue(items[0])]
  {
    assert ItemsValue(items[1..]) == [];
  }

  lemma OneField(fields: seq<Field>)
    requires AreFields(fields) && |fields| == 1
    ensures FieldsValue(fields) == [FieldValue(fields[0])]
  {
    assert FieldsValue(fields[1..]) == [];
  }

  lemma {:induction false} ItemsRead(items: seq<Item>, rest: string)
    requires AreItems(items) && |items| > 0
    ensures var t := SkipSpace(ItemsText(items) + ("]" + rest));
            Starts(t) && ReadItems(t) == Some(Read(ItemsValue(items), rest))
    decreases items, 0
  {
    var end := "]" + rest;
    var item := items[0];
    if |items| == 1 {
      ItemReads(item, end);
      BlankEnds(item.after, end);
      ItemsEnd(SkipSpace(ItemText(item) + end), ItemValue(item), item.after, rest);
      OneItem(items);
    } else {
      var more := ItemsText(items[1..]) + end;
      ItemReads(item, "," + more);
      BlankEnds(item.after, "," + more);
      ItemsRead(items[1..], rest);
      ItemsGoOn(SkipSpace(ItemText(item) + ("," + more)), ItemValue(item), item.after, more, ItemsValue(items[1..]), rest);
      AppendInside(ItemText(item), ",", ItemsText(items[1..]), end);
    }
  }

  lemma MemberIs(t: string, key: string, after: string, u: string, v: Json, rest: string)
    requires ScanString(t) == Some((key, after)) && SkipSpace(after) == ":" + u
    requires ReadValue(SkipSpace(u)) == Some(Read(v, rest))
    ensures ReadMember("\"" + t) == Some(Read(Member(key, v), rest))
  {
    DropOne("\"", t);
    DropOne(":", u);
  }

  lemma FieldParts(field: Field, t: string)
    ensures FieldText(field) + t ==
            field.before + ("\"" + (PiecesText(field.key) + ("\"" + (field.afterKey + (":" + (ItemText(field.value) + t))))))
  {
    var value := ItemText(field.value);
    Assoc(field.before, Quoted(field.key) + (field.afterKey + (":" + value)), t);
    Assoc(Quoted(field.key), field.afterKey + (":" + value), t);
    AppendInside(field.afterKey, ":", value, t);
    QuotedText(field.key, field.afterKey + (":" + (value + t)));
  }

  lemma {:induction false} FieldReads(field: Field, t: string)
    requires IsField(field) && Closes(t)
    ensures Starts(SkipSpace(FieldText(field) + t)) && SkipSpace(field.value.after + t) == t
    ensures ReadMember(SkipSpace(FieldText(field) + t)) == Some(Read(FieldValue(field), field.value.after + t))
    decreases field, 2
  {
    var u := ItemText(field.value) + t;
    var after := field.afterKey + (":" + u);
    var s := PiecesText(field.key) + ("\"" + after);
    FieldParts(field, t);
    OpeningStarts("\"", s);
    BlankSkips(field.before, "\"" + s);
    BlankSkips(field.afterKey, ":" + u);
    PiecesRead(field.key, after);
    ItemReads(field.value, t);
    BlankEnds(field.value.after, t);
    MemberIs(s, PiecesValue(field.key), after, u, ItemValue(field.value), field.value.after + t);
  }

  lemma MembersEnd(s: string, m: Member, after: string, rest: string)
    requires ReadMember(s) == Some(Read(m, after + ("}" + rest))) && SkipSpace(after + ("}" + rest)) == "}" + rest
    ensures ReadMembers(s) == Some(Read([m], rest))
  {
    DropOne("}", rest);
  }

  lemma MembersGoOn(s: string, m: Member, after: string, t: string, members: seq<Member>, rest: string)
    requires ReadMember(s) == Some(Read(m, after + ("," + t))) && SkipSpace(after + ("," + t)) == "," + t
    requires ReadMembers(SkipSpace(t)) == Some(Read(members, rest))
    ensures ReadMembers(s) == Some(Read([m] + members, rest))
  {
    DropOne(",", t);
  }

  lemma {:induction false} FieldsRead(fields: seq<Field>, rest: string)
    requires AreFields(fields) && |fields| > 0
    ensures var t := SkipSpace(FieldsText(fields) + ("}" + rest));
            Starts(t) && ReadMembers(t) == Some(Read(FieldsValue(fields), rest))
    decreases fields, 0
  {
    var end := "}" + rest;
    var field := fields[0];
    if |fields| == 1 {
      FieldReads(field, end);
      MembersEnd(SkipSpace(FieldText(field) + end), FieldValue(field), field.value.after, rest);
      OneField(fields);
    } else {
      var more := FieldsText(fields[1..]) + end;
      FieldReads(field, "," + more);
      FieldsRead(fields[1..], rest);
      MembersGoOn(SkipSpace(FieldText(field) + ("," + more)), FieldValue(field), field.value.after, more, FieldsValue(fields[1..]), rest);
      AppendInside(FieldText(field), ",", FieldsText(fields[1..]), end);
    }
  }

  // ---- And whatever is read is a document --------------------------------

  lemma {:induction false} SkipShown(s: string) returns (b: string)
    ensures IsBlank(b) && s == b + SkipSpace(s)
  {
    if s != "" && IsSpace(s[0]) {
      var more := SkipShown(s[1..]);
      b := [s[0]] + more;
      FirstAndRest(s, [s[0]]);
      Assoc([s[0]], more, SkipSpace(s));
    } else {
      b := "";
      assert "" + s == s;
    }
  }

  lemma FirstAndRest(s: string, c: string)
    requires s != "" && |c| == 1 && s[0] == c[0]
    ensures s == c + s[1..]
  {
  }

  lemma ScalarShown(s: string) returns (d: Doc)
    requires s != "" && ReadScalar(s).Some?
    ensures IsDoc(d) && s == DocText(d) + ReadScalar(s).value.rest && DocValue(d) == ReadScalar(s).value.value
  {
    match Keyword(s)
    case Some(j) =>
      d := Literal(Print(j));
      WordValue(j);
      TakeAll(s, |Print(j)|);
    case None =>
      var n := ScannedNumeral(s);
      d := Numeric(n);
      TakeAll(s, |NumeralText(n)|);
      if !IsFloatNumeral(n) { IntValueIs(n); }
  }

  lemma TakeAll(s: string, n: nat)
    requires n <= |s|
    ensures s == s[..n] + s[n..]
  {
  }

  lemma WordValue(j: Json)
    requires j.Null? || j.Bool? || (j.Num? && !j.f.Finite?)
    ensures IsLiteral(Print(j)) && LiteralValue(Print(j)) == j
  {
  }

  /** Whatever is read as a value is the text of a document for it. */
  lemma {:induction false} ReadShown(s: string) returns (d: Doc)
    requires ReadValue(s).Some?
    ensures IsDoc(d) && s == DocText(d) + ReadValue(s).value.rest && DocValue(d) == ReadValue(s).value.value
    decreases |s|, 0
  {
    if s[0] == '"' {
      var pieces := ScannedPieces(s[1..]);
      d := Text(pieces);
      FirstAndRest(s, "\"");
      QuotedText(pieces, ReadValue(s).value.rest);
    } else if s[0] == '[' {
      d := ArrayShown(s);
    } else if s[0] == '{' {
      d := ObjectShown(s);
    } else {
      d := ScalarShown(s);
    }
  }

  lemma ArrayShown(s: string) returns (d: Doc)
    requires s != "" && s[0] == '[' && ReadValue(s).Some?
    ensures IsDoc(d) && s == DocText(d) + ReadValue(s).value.rest && DocValue(d) == ReadValue(s).value.value
    decreases |s|, 0, 0
  {
    var rest := ReadValue(s).value.rest;
    var before := SkipShown(s[1..]);
    var t := SkipSpace(s[1..]);
    FirstAndRest(s, "[");
    if t != "" && t[0] == ']' {
      d := EmptyArray(before);
      FirstAndRest(t, "]");
      AppendInside("[", before, "]", rest);
    } else {
      var items := ItemsShown(t, before);
      d := Array(items);
      AppendInside("[", ItemsText(items), "]", rest);
    }
  }

  lemma {:induction false} ItemsShown(s: string, before: string) returns (items: seq<Item>)
    requires ReadItems(s).Some? && IsBlank(before)
    ensures AreItems(items) && |items| > 0 && before + s == ItemsText(items) + ("]" + ReadItems(s).value.rest)
    ensures ItemsValue(items) == ReadItems(s).value.value
    decreases |s|, 1
  {
    var first := ReadValue(s).value;
    var d := ReadShown(s);
    var after := SkipShown(first.rest);
    var t := SkipSpace(first.rest);
    var item := Item(before, d, after);
    var rest := ReadItems(s).value.rest;
    ItemShown(item, s, t);
    if t[0] == ']' {
      items := [item];
      OneItem(items);
      FirstAndRest(t, "]");
    } else {
      var c := SkipShown(t[1..]);
      var more := ItemsShown(SkipSpace(t[1..]), c);
      items := [item] + more;
      assert items[1..] == more;
      FirstAndRest(t, ",");
      AppendInside(ItemText(item), ",", ItemsText(more), "]" + rest);
    }
  }

  lemma ItemShown(item: Item, s: string, t: string)
    requires s == DocText(item.value) + (item.after + t)
    ensures item.before + s == ItemText(item) + t
  {
    AppendInside(item.before, DocText(item.value), item.after, t);
  }

  lemma ObjectShown(s: string) returns (d: Doc)
    requires s != "" && s[0] == '{' && ReadValue(s).Some?
    ensures IsDoc(d) && s == DocText(d) + ReadValue(s).value.rest && DocValue(d) == ReadValue(s).value.value
    decreases |s|, 0, 0
  {
    var rest := ReadValue(s).value.rest;
    var before := SkipShown(s[1..]);
    var t := SkipSpace(s[1..]);
    FirstAndRest(s, "{");
    if t != "" && t[0] == '}' {
      d := EmptyObject(before);
      FirstAndRest(t, "}");
      AppendInside("{", before, "}", rest);
    } else {
      var fields := FieldsShown(t, before);
      d := Object(fields);
      AppendInside("{", FieldsText(fields), "}", rest);
    }
  }

  lemma {:induction false} FieldShown(s: string, before: string) returns (field: Field)
    requires ReadMember(s).Some? && IsBlank(before)
    ensures IsField(field) && field.value.after == "" && before + s == FieldText(field) + ReadMember(s).value.rest
    ensures FieldValue(field) == ReadMember(s).value.value
    decreases |s|, 1
  {
    var key := ScannedPieces(s[1..]);
    var after := ScanString(s[1..]).value.1;
    var afterKey := SkipShown(after);
    var t := SkipSpace(after);
    var beforeValue := SkipShown(t[1..]);
    var u := SkipSpace(t[1..]);
    var d := ReadShown(u);
    var rest := ReadMember(s).value.rest;
    field := Field(before, key, afterKey, Item(beforeValue, d, ""));
    FirstAndRest(s, "\"");
    FirstAndRest(t, ":");
    ItemShown(field.value, u, rest);
    FieldParts(field, rest);
  }

  lemma {:induction false} FieldsShown(s: string, before: string) returns (fields: seq<Field>)
    requires ReadMembers(s).Some? && IsBlank(before)
    ensures AreFields(fields) && |fields| > 0 && before + s == FieldsText(fields) + ("}" + ReadMembers(s).value.rest)
    ensures FieldsValue(fields) == ReadMembers(s).value.value
    decreases |s|, 2
  {
    var first := ReadMember(s).value;
    var bare := FieldShown(s, before);
    var after := SkipShown(first.rest);
    var t := SkipSpace(first.rest);
    var field := bare.(value := bare.value.(after := after));
    var rest := ReadMembers(s).value.rest;
    FieldEnds(bare, after, t);
    if t[0] == '}' {
      fields := [field];
      OneField(fields);
      FirstAndRest(t, "}");
    } else {
      var c := SkipShown(t[1..]);
      var more := FieldsShown(SkipSpace(t[1..]), c);
      fields := [field] + more;
      assert fields[1..] == more;
      FirstAndRest(t, ",");
      AppendInside(FieldText(field), ",", FieldsText(more), "}" + rest);
    }
  }

  lemma FieldEnds(bare: Field, after: string, t: string)
    requires bare.value.after == ""
    requires IsField(bare) && IsBlank(after)
    ensures var field := bare.(value := bare.value.(after := after));
            FieldText(bare) + (after + t) == FieldText(field) + t && IsField(field) && FieldValue(field) == FieldValue(bare)
  {
    var field := bare.(value := bare.value.(after := after));
    var doc := DocText(bare.value.value);
    FieldParts(bare, after + t);
    FieldParts(field, t);
    AppendInside(bare.value.before, doc, "", after + t);
    AppendInside(bare.value.before, doc, after, t);
    assert "" + (after + t) == after + t;
  }

  /** json.loads takes exactly the texts that spell a value, as that value. */
  lemma ParseSpells(text: string, j: Json)
    ensures Parse(text) == Some(j) <==> Spells(text, j)
  {
    if Parse(text) == Some(j) {
      var before := SkipShown(text);
      var d := ReadShown(SkipSpace(text));
      var after := SkipShown(ReadValue(SkipSpace(text)).value.rest);
      var item := Item(before, d, after);
      ItemShown(item, SkipSpace(text), "");
      assert ItemText(item) + "" == ItemText(item) && after + "" == after;
    }
    if Spells(text, j) {
      var item: Item :| IsItem(item) && ItemText(item) == text && ItemValue(item) == j;
      ItemReads(item, "");
      BlankEnds(item.after, "");
      assert ItemText(item) + "" == ItemText(item);
    }
  }

  // ---- What is written ---------------------------------------------------

  lemma IntNumeral(i: int) returns (n: Numeral)
    ensures IsNumeral(n) && !IsFloatNumeral(n) && NumeralText(n) == IntText(i) && WholeValue(n) == i
    ensures n.minus ==> n.whole != "0"
  {
    var m := if i < 0 then -i else i;
    n := Numeral(i < 0, NatText(m), None, None);
    NatTextReads(m);
    ValueIsDecimal(n.whole);
    if m == 0 { assert NatText(0) == "0"; }
    assert NumeralText(n) == SignText(n.minus) + n.whole;
  }

  /** What json.dumps writes is a compact document for its value. */
  lemma {:induction false} PrintDoc(j: Json) returns (d: Doc)
    ensures IsDoc(d) && IsCompact(d) && DocText(d) == Print(j) && DocValue(d) == j
    decreases j, 1
  {
    match j
    case Int(i) =>
      var n := IntNumeral(i);
      d := Numeric(n);
    case Num(Finite(text)) =>
      var n: Numeral :| IsNumeral(n) && IsFloatNumeral(n) && NumeralText(n) == text;
      d := Numeric(n);
    case Str(s) =>
      PiecesOfIs(s);
      d := Text(PiecesOf(s));
      Assoc("\"", Escape(s), "\"");
    case Arr(items) =>
      if |items| == 0 {
        d := EmptyArray("");
      } else {
        var docs := PrintItemDocs(items);
        d := Array(docs);
      }
    case Obj(members) =>
      if |members| == 0 {
        d := EmptyObject("");
      } else {
        var docs := PrintFieldDocs(members);
        d := Object(docs);
      }
    case _ =>
      WordValue(j);
      d := Literal(Print(j));
  }

  lemma {:induction false} PrintItemDoc(j: Json) returns (item: Item)
    ensures IsItem(item) && CompactItem(item) && ItemText(item) == Print(j) && ItemValue(item) == j
    decreases j, 2
  {
    var d := PrintDoc(j);
    item := Item("", d, "");
    assert "" + (DocText(d) + "") == DocText(d);
  }

  lemma {:induction false} PrintItemDocs(items: seq<Json>) returns (docs: seq<Item>)
    ensures |docs| == |items| && AreItems(docs) && CompactItems(docs) && ItemsText(docs) == PrintItems(items) && ItemsValue(docs) == items
    decreases items, 0
  {
    if |items| == 0 {
      docs := [];
    } else {
      var first := PrintItemDoc(items[0]);
      var more := PrintItemDocs(items[1..]);
      docs := [first] + more;
      assert docs[1..] == more;
      assert items == [items[0]] + items[1..];
    }
  }

  lemma {:induction false} PrintFieldDoc(m: Member) returns (field: Field)
    ensures IsField(field) && CompactField(field) && FieldText(field) == PrintMember(m) && FieldValue(field) == m
    decreases m, 3
  {
    var value := PrintItemDoc(m.value);
    PiecesOfIs(m.key);
    field := Field("", PiecesOf(m.key), "", value);
    Assoc("\"", Escape(m.key), "\"");
    NoBlanks(Quote(m.key), Print(m.value));
  }

  lemma NoBlanks(key: string, value: string)
    ensures "" + (key + ("" + (":" + value))) == key + (":" + value)
  {
  }

  lemma {:induction false} PrintFieldDocs(members: seq<Member>) returns (docs: seq<Field>)
    ensures |docs| == |members| && AreFields(docs) && CompactFields(docs) && FieldsText(docs) == PrintMembers(members)
    ensures FieldsValue(docs) == members
    decreases members, 0
  {
    if |members| == 0 {
      docs := [];
    } else {
      var first := PrintFieldDoc(members[0]);
      var more := PrintFieldDocs(members[1..]);
      docs := [first] + more;
      assert docs[1..] == more;
      assert members == [members[0]] + members[1..];
    }
  }

  lemma CompactNumeral(n: Numeral)
    requires IsNumeral(n) && !IsFloatNumeral(n) && (n.minus ==> n.whole != "0")
    ensures IntText(WholeValue(n)) == NumeralText(n)
  {
    ValueIsDecimal(n.whole);
    NatTextOf(n.whole);
    assert NumeralText(n) == SignText(n.minus) + n.whole;
  }

  /** A compact document is written exactly as json.dumps writes its value. */
  lemma {:induction false} CompactPrints(d: Doc)
    requires IsDoc(d) && IsCompact(d)
    ensures Print(DocValue(d)) == DocText(d)
    decreases d, 1
  {
    match d
    case Literal(word) => KeywordIs(word, "");
    case Numeric(n) => if !IsFloatNumeral(n) { CompactNumeral(n); }
    case Text(pieces) =>
      CompactPieces(pieces);
      Assoc("\"", PiecesText(pieces), "\"");
    case EmptyArray(_) =>
    case EmptyObject(_) =>
    case Array(items) => CompactItemsPrint(items);
    case Object(fields) => CompactFieldsPrint(fields);
  }

  lemma {:induction false} CompactItemPrints(item: Item)
    requires IsItem(item) && CompactItem(item)
    ensures Print(ItemValue(item)) == ItemText(item)
    decreases item, 2
  {
    CompactPrints(item.value);
    assert "" + (DocText(item.value) + "") == DocText(item.value);
  }

  lemma {:induction false} CompactItemsPrint(items: seq<Item>)
    requires AreItems(items) && CompactItems(items)
    ensures PrintItems(ItemsValue(items)) == ItemsText(items) && |ItemsValue(items)| == |items|
    decreases items, 0
  {
    if |items| > 0 {
      CompactItemPrints(items[0]);
      CompactItemsPrint(items[1..]);
      assert ItemsValue(items)[1..] == ItemsValue(items[1..]);
    }
  }

  lemma {:induction false} CompactFieldPrints(field: Field)
    requires IsField(field) && CompactField(field)
    ensures PrintMember(FieldValue(field)) == FieldText(field)
    decreases field, 2
  {
    CompactItemPrints(field.value);
    CompactPieces(field.key);
    Assoc("\"", PiecesText(field.key), "\"");
    NoBlanks(Quoted(field.key), ItemText(field.value));
  }

  lemma {:induction false} CompactFieldsPrint(fields: seq<Field>)
    requires AreFields(fields) && CompactFields(fields)
    ensures PrintMembers(FieldsValue(fields)) == FieldsText(fields) && |FieldsValue(fields)| == |fields|
    decreases fields, 0
  {
    if |fields| > 0 {
      CompactFieldPrints(fields[0]);
      CompactFieldsPrint(fields[1..]);
      assert FieldsValue(fields)[1..] == FieldsValue(fields[1..]);
    }
  }

  /** json.dumps writes the one compact text of a value: no other text of it is
      without blanks, in ASCII, each character in its shortest form. */
  lemma PrintIsTheCompactText(text: string, j: Json)
    ensures Print(j) == text <==> exists d :: IsDoc(d) && IsCompact(d) && DocText(d) == text && DocValue(d) == j
  {
    if Print(j) == text {
      var d := PrintDoc(j);
      assert IsDoc(d) && IsCompact(d);
    }
    forall d | IsDoc(d) && IsCompact(d) && DocText(d) == text && DocValue(d) == j ensures Print(j) == text {
      CompactPrints(d);
    }
  }

  /** A printed value is read back whole, whatever delimiter follows it. */
  lemma PrintReads(j: Json, rest: string)
    requires Ends(rest)
    ensures ReadValue(Print(j) + rest) == Some(Read(j, rest))
  {
    var d := PrintDoc(j);
    DocReads(d, rest);
  }

  /** json.loads gives back every value json.dumps printed. */
  lemma ParsePrint(j: Json)
    ensures Parse(Print(j)) == Some(j)
  {
    var item := PrintItemDoc(j);
    ParseSpells(Print(j), j);
  }
}
