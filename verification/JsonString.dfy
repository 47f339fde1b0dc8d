/** JSON strings (RFC 8259 section 7): their grammar, the ASCII-only escaping of
    json.dumps, and the strict reader of json.loads. A string is a sequence of
    Unicode scalar values. */
module JsonString {
  import opened Options
  import Hex

  const BACKSPACE: char := 8 as char
  const FORM_FEED: char := 12 as char

  type Unit = n: int | 0 <= n < 0x1_0000

  // ---- The grammar -------------------------------------------------------

  /** One character of a string's text: itself, a two-character escape, or one
      or two escaped UTF-16 units. */
  datatype Piece = Raw(c: char) | Short(letter: char, c: char) | Unicode(hex: string) | Surrogates(high: string, low: string)

  /** The two-character escapes and what they stand for. */
  predicate IsShort(letter: char, c: char) {
    || (letter == '"' && c == '"') || (letter == '\\' && c == '\\') || (letter == '/' && c == '/')
    || (letter == 'b' && c as int == 0x8) || (letter == 'f' && c as int == 0xC)
    || (letter == 'n' && c as int == 0xA) || (letter == 'r' && c as int == 0xD) || (letter == 't' && c as int == 0x9)
  }

  predicate IsHex4(h: string) {
    |h| == 4 && Hex.AllHex(h)
  }

  function CodeUnit(h: string): (n: int)
    requires IsHex4(h)
    ensures 0 <= n < 0x1_0000
  {
    Hex.Value(h[0]).value * 0x1000 + Hex.Value(h[1]).value * 0x100 + Hex.Value(h[2]).value * 0x10 + Hex.Value(h[3]).value
  }

  predicate IsPiece(p: Piece) {
    match p
    case Raw(c) => c as int >= 0x20 && c != '"' && c != '\\'
    case Short(letter, c) => IsShort(letter, c)
    case Unicode(hex) => IsHex4(hex) && !(0xD800 <= CodeUnit(hex) < 0xE000)
    case Surrogates(high, low) =>
      IsHex4(high) && IsHex4(low) && 0xD800 <= CodeUnit(high) < 0xDC00 && 0xDC00 <= CodeUnit(low) < 0xE000
  }

  function PieceText(p: Piece): string {
    match p
    case Raw(c) => [c]
    case Short(letter, _) => ['\\', letter]
    case Unicode(hex) => "\\u" + hex
    case Surrogates(high, low) => "\\u" + (high + ("\\u" + low))
  }

  function PieceChar(p: Piece): char
    requires IsPiece(p)
  {
    match p
    case Raw(c) => c
    case Short(_, c) => c
    case Unicode(hex) => CodeUnit(hex) as char
    case Surrogates(high, low) => (0x1_0000 + (CodeUnit(high) - 0xD800) * 0x400 + (CodeUnit(low) - 0xDC00)) as char
  }

  predicate ArePieces(ps: seq<Piece>) {
    forall i :: 0 <= i < |ps| ==> IsPiece(ps[i])
  }

  function PiecesText(ps: seq<Piece>): string {
    if |ps| == 0 then "" else PieceText(ps[0]) + PiecesText(ps[1..])
  }

  function PiecesValue(ps: seq<Piece>): string
    requires ArePieces(ps)
  {
    if |ps| == 0 then "" else [PieceChar(ps[0])] + PiecesValue(ps[1..])
  }

  // ---- Writing -----------------------------------------------------------

  function Hex4(n: Unit): (s: string)
    ensures |s| == 4
  {
    Hex.Pair(n / 0x100) + Hex.Pair(n % 0x100)
  }

  function Hex4Value(s: string): Option<Unit> {
    if |s| != 4 then None
    else
      match (Hex.PairValue(s[0], s[1]), Hex.PairValue(s[2], s[3]))
      case (Some(high), Some(low)) => Some(Join(high, low))
      case _ => None
  }

  function Join(high: int, low: int): Unit
    requires 0 <= high < 0x100 && 0 <= low < 0x100
  {
    high * 0x100 + low
  }

  predicate IsHighSurrogate(n: Unit) {
    0xD800 <= n < 0xDC00
  }

  predicate IsLowSurrogate(n: Unit) {
    0xDC00 <= n < 0xE000
  }

  function HighSurrogate(c: char): Unit
    requires c as int >= 0x1_0000
  {
    var n: int := c as int - 0x1_0000;
    0xD800 + n / 0x400
  }

  function LowSurrogate(c: char): Unit
    requires c as int >= 0x1_0000
  {
    var n: int := c as int - 0x1_0000;
    0xDC00 + n % 0x400
  }

  predicate IsPlain(c: char) {
    ' ' <= c <= '~' && c != '"' && c != '\\'
  }

  /** The letter of a two-character escape. */
  function ShortEscape(c: char): Option<char> {
    if c == '"' || c == '\\' then Some(c)
    else if c == '\n' then Some('n')
    else if c == '\r' then Some('r')
    else if c == '\t' then Some('t')
    else if c == BACKSPACE then Some('b')
    else if c == FORM_FEED then Some('f')
    else None
  }

  /** What a two-character escape stands for; the solidus may be escaped too. */
  function ShortValue(e: char): Option<char> {
    if e == '"' || e == '\\' || e == '/' then Some(e)
    else if e == 'n' then Some('\n')
    else if e == 'r' then Some('\r')
    else if e == 't' then Some('\t')
    else if e == 'b' then Some(BACKSPACE)
    else if e == 'f' then Some(FORM_FEED)
    else None
  }

  function UnicodeEscape(c: char): string {
    if c as int < 0x1_0000 then Hex4(c as int)
    else Hex4(HighSurrogate(c)) + ("\\u" + Hex4(LowSurrogate(c)))
  }

  function EscapeChar(c: char): string {
    if IsPlain(c) then [c]
    else
      match ShortEscape(c)
      case Some(e) => ['\\', e]
      case None => "\\u" + UnicodeEscape(c)
  }

  function Escape(s: string): string {
    if s == "" then "" else EscapeChar(s[0]) + Escape(s[1..])
  }

  function Quote(s: string): string {
    "\"" + Escape(s) + "\""
  }

  // ---- Reading -----------------------------------------------------------

  /** A character and how much text it was read from. */
  datatype Scanned = Scanned(c: char, length: nat)

  /** What follows \u: four hex digits, and for a high surrogate the escaped
      low surrogate it must be paired with. A lone surrogate is not a Unicode
      scalar value. */
  function ScanUnicode(s: string): (r: Option<Scanned>)
    ensures r.Some? ==> 0 < r.value.length <= |s|
  {
    if |s| < 4 then None
    else
      match Hex4Value(s[..4])
      case None => None
      case Some(n) =>
        if IsHighSurrogate(n) then
          if |s| >= 10 && s[4] == '\\' && s[5] == 'u' then
            match Hex4Value(s[6..10])
            case None => None
            case Some(m) =>
              if IsLowSurrogate(m) then Some(Scanned(Pair(n, m), 10)) else None
          else None
        else if IsLowSurrogate(n) then None
        else Some(Scanned(n as char, 4))
  }

  function Pair(high: Unit, low: Unit): char
    requires IsHighSurrogate(high) && IsLowSurrogate(low)
  {
    var n: int := 0x1_0000 + (high - 0xD800) * 0x400 + (low - 0xDC00);
    n as char
  }

  /** What follows a backslash. */
  function ScanEscape(s: string): (r: Option<Scanned>)
    ensures r.Some? ==> 0 < r.value.length <= |s|
  {
    if s == "" then None
    else if s[0] == 'u' then
      match ScanUnicode(s[1..])
      case None => None
      case Some(u) => Some(Scanned(u.c, 1 + u.length))
    else
      match ShortValue(s[0])
      case None => None
      case Some(c) => Some(Scanned(c, 1))
  }

  /** One character of a string, escaped or not; a control character must be. */
  function ScanChar(s: string): (r: Option<Scanned>)
    requires s != ""
    ensures r.Some? ==> 0 < r.value.length <= |s|
  {
    if s[0] == '\\' then
      match ScanEscape(s[1..])
      case None => None
      case Some(e) => Some(Scanned(e.c, 1 + e.length))
    else if s[0] < ' ' then None
    else Some(Scanned(s[0], 1))
  }

  /** A string's value and the text after its closing quote; s starts after the
      opening one. */
  function ScanString(s: string): (r: Option<(string, string)>)
    ensures r.Some? ==> |r.value.1| < |s|
    decreases |s|
  {
    if s == "" then None
    else if s[0] == '"' then Some(("", s[1..]))
    else
      match ScanChar(s)
      case None => None
      case Some(first) =>
        match ScanString(s[first.length..])
        case None => None
        case Some((value, rest)) => Some(([first.c] + value, rest))
  }

  lemma Hex4Inverse(n: Unit)
    ensures Hex4Value(Hex4(n)) == Some(n)
  {
    Hex.PairInverse(n / 0x100);
    Hex.PairInverse(n % 0x100);
  }

  lemma SurrogatesInverse(c: char)
    requires c as int >= 0x1_0000
    ensures IsHighSurrogate(HighSurrogate(c)) && IsLowSurrogate(LowSurrogate(c))
    ensures Pair(HighSurrogate(c), LowSurrogate(c)) == c
  {
  }

  lemma AppendInside(a: string, b: string, c: string, rest: string)
    ensures (a + (b + c)) + rest == a + (b + (c + rest))
  {
  }

  // ---- The reader takes pieces, and nothing else -------------------------

  /** Four hex digits are read as the unit they spell. */
  lemma UnitIs(h: string)
    ensures Hex4Value(h).Some? <==> IsHex4(h)
    ensures IsHex4(h) ==> Hex4Value(h) == Some(CodeUnit(h))
  {
    if |h| == 4 {
      assert Hex.AllHex(h) <==> Hex.Value(h[0]).Some? && Hex.Value(h[1]).Some? && Hex.Value(h[2]).Some? && Hex.Value(h[3]).Some?;
    }
  }

  lemma DropHex(h: string, rest: string)
    requires |h| == 4
    ensures (h + rest)[..4] == h && (h + rest)[4..] == rest
  {
  }

  lemma UnicodeScans(hex: string, rest: string)
    requires IsPiece(Unicode(hex))
    ensures ScanUnicode(hex + rest) == Some(Scanned(PieceChar(Unicode(hex)), 4))
  {
    DropHex(hex, rest);
    UnitIs(hex);
  }

  lemma SurrogatesScan(high: string, low: string, rest: string)
    requires IsPiece(Surrogates(high, low))
    ensures ScanUnicode(high + ("\\u" + (low + rest))) == Some(Scanned(PieceChar(Surrogates(high, low)), 10))
  {
    DropHex(high, "\\u" + (low + rest));
    DropHex(low, rest);
    UnitIs(high);
    UnitIs(low);
    PairScans(high + ("\\u" + (low + rest)), low + rest, CodeUnit(high), CodeUnit(low));
  }

  lemma PairScans(s: string, after: string, high: Unit, low: Unit)
    requires |s| >= 4 && s[4..] == "\\u" + after && |after| >= 4 && IsHighSurrogate(high) && IsLowSurrogate(low)
    requires Hex4Value(s[..4]) == Some(high) && Hex4Value(after[..4]) == Some(low)
    ensures ScanUnicode(s) == Some(Scanned(Pair(high, low), 10))
  {
    assert s[4] == s[4..][0] && s[5] == s[4..][1];
    assert s[6..10] == s[4..][2..6] == after[..4];
  }

  lemma EscapeOpens(t: string, u: Scanned)
    requires ScanUnicode(t) == Some(u)
    ensures ScanChar("\\u" + t) == Some(Scanned(u.c, u.length + 2))
  {
    assert ("\\u" + t)[1..] == "u" + t && ("u" + t)[1..] == t;
  }

  lemma RawReads(c: char, rest: string)
    requires IsPiece(Raw(c))
    ensures ScanChar([c] + rest) == Some(Scanned(c, 1))
  {
  }

  lemma ShortReads(letter: char, c: char, rest: string)
    requires IsShort(letter, c)
    ensures ScanChar(['\\', letter] + rest) == Some(Scanned(c, 2))
  {
    assert (['\\', letter] + rest)[1..] == [letter] + rest;
  }

  /** Each piece is read as the character it stands for, whatever text comes
      after it. */
  lemma PieceReads(p: Piece, rest: string)
    requires IsPiece(p)
    ensures PieceText(p) != "" && PieceText(p)[0] != '"'
    ensures ScanChar(PieceText(p) + rest) == Some(Scanned(PieceChar(p), |PieceText(p)|))
  {
    match p
    case Raw(c) => RawReads(c, rest);
    case Short(letter, c) => ShortReads(letter, c, rest);
    case Unicode(hex) =>
      UnicodeScans(hex, rest);
      EscapeOpens(hex + rest, Scanned(PieceChar(p), 4));
      assert ("\\u" + hex) + rest == "\\u" + (hex + rest);
    case Surrogates(high, low) =>
      SurrogatesScan(high, low, rest);
      EscapeOpens(high + ("\\u" + (low + rest)), Scanned(PieceChar(p), 10));
      Nested(high, low, rest);
  }

  lemma Nested(high: string, low: string, rest: string)
    ensures ("\\u" + (high + ("\\u" + low))) + rest == "\\u" + (high + ("\\u" + (low + rest)))
  {
    AppendInside("\\u", high, "\\u" + low, rest);
    assert ("\\u" + low) + rest == "\\u" + (low + rest);
  }

  /** A string's text is read as the characters of its pieces, up to its own
      closing quote. */
  lemma {:induction false} PiecesRead(ps: seq<Piece>, rest: string)
    requires ArePieces(ps)
    ensures ScanString(PiecesText(ps) + ("\"" + rest)) == Some((PiecesValue(ps), rest))
  {
    if |ps| == 0 {
      QuoteEnds(rest);
    } else {
      var tail := PiecesText(ps[1..]) + ("\"" + rest);
      PieceReads(ps[0], tail);
      PiecesRead(ps[1..], rest);
      OnePieceMore(PieceText(ps[0]), PieceChar(ps[0]), tail, PiecesValue(ps[1..]), rest);
      AppendTwo(PieceText(ps[0]), PiecesText(ps[1..]), "\"" + rest);
    }
  }

  lemma QuoteEnds(rest: string)
    ensures ScanString("" + ("\"" + rest)) == Some(("", rest))
  {
    assert "" + ("\"" + rest) == "\"" + rest;
    assert ("\"" + rest)[1..] == rest;
  }

  lemma OnePieceMore(text: string, c: char, tail: string, value: string, rest: string)
    requires text != "" && text[0] != '"' && ScanChar(text + tail) == Some(Scanned(c, |text|))
    requires ScanString(tail) == Some((value, rest))
    ensures ScanString(text + tail) == Some(([c] + value, rest))
  {
    assert (text + tail)[|text|..] == tail;
  }

  lemma ScannedUnicode(s: string) returns (p: Piece)
    requires ScanUnicode(s).Some?
    ensures IsPiece(p) && PieceText(p) == "\\u" + s[..ScanUnicode(s).value.length] && PieceChar(p) == ScanUnicode(s).value.c
  {
    var high := s[..4];
    UnitIs(high);
    if IsHighSurrogate(CodeUnit(high)) {
      var low := s[6..10];
      UnitIs(low);
      p := Surrogates(high, low);
      assert s[..10] == high + ("\\u" + low);
    } else {
      p := Unicode(high);
    }
  }

  /** Whatever is read as a character is a piece. */
  lemma ScannedPiece(s: string) returns (p: Piece)
    requires s != "" && s[0] != '"' && ScanChar(s).Some?
    ensures IsPiece(p) && PieceText(p) == s[..ScanChar(s).value.length] && PieceChar(p) == ScanChar(s).value.c
  {
    if s[0] != '\\' {
      p := Raw(s[0]);
    } else {
      p := ScannedEscape(s);
    }
  }

  lemma ScannedEscape(s: string) returns (p: Piece)
    requires s != "" && s[0] == '\\' && ScanChar(s).Some?
    ensures IsPiece(p) && PieceText(p) == s[..ScanChar(s).value.length] && PieceChar(p) == ScanChar(s).value.c
  {
    if s[1] == 'u' {
      var t := s[1..][1..];
      p := ScannedUnicode(t);
      TakeTwo(s, ScanUnicode(t).value.length);
    } else {
      p := Short(s[1], ShortValue(s[1]).value);
      assert s[..2] == [s[0], s[1]];
    }
  }

  lemma TakeTwo(s: string, n: nat)
    requires |s| >= n + 2 && s[0] == '\\' && s[1] == 'u'
    ensures s[..n + 2] == "\\u" + s[1..][1..][..n]
  {
  }

  /** Whatever is read as a string is the text of pieces. */
  lemma ScannedPieces(s: string) returns (ps: seq<Piece>)
    requires ScanString(s).Some?
    ensures ArePieces(ps) && s == PiecesText(ps) + ("\"" + ScanString(s).value.1) && PiecesValue(ps) == ScanString(s).value.0
    decreases |s|
  {
    if s[0] == '"' {
      ps := [];
      assert s == "\"" + s[1..];
    } else {
      var first := ScannedPiece(s);
      var n := ScanChar(s).value.length;
      var more := ScannedPieces(s[n..]);
      ps := [first] + more;
      assert ps[1..] == more;
      assert s == s[..n] + s[n..];
      AppendTwo(PieceText(first), PiecesText(more), "\"" + ScanString(s).value.1);
    }
  }

  lemma AppendTwo(a: string, b: string, c: string)
    ensures (a + b) + c == a + (b + c)
  {
  }

  // ---- What is written is read -------------------------------------------

  /** The piece json.dumps writes a character as: itself when it is printable
      ASCII, its two-character escape when it has one but for the solidus, and
      lowercase hex otherwise. */
  predicate IsCompactPiece(p: Piece) {
    match p
    case Raw(c) => c as int <= 0x7E
    case Short(letter, _) => letter != '/'
    case Unicode(hex) => IsPiece(p) && LowerHex(hex) && !IsPlain(PieceChar(p)) && (forall l :: !IsShort(l, PieceChar(p)) || l == '/')
    case Surrogates(high, low) => LowerHex(high) && LowerHex(low)
  }

  predicate LowerHex(h: string) {
    forall i :: 0 <= i < |h| ==> Hex.Lower(h[i]) == h[i]
  }

  function PieceOf(c: char): Piece {
    if IsPlain(c) then Raw(c)
    else
      match ShortEscape(c)
      case Some(e) => Short(e, c)
      case None => if c as int < 0x1_0000 then Unicode(Hex4(c as int)) else Surrogates(Hex4(HighSurrogate(c)), Hex4(LowSurrogate(c)))
  }

  lemma Hex4Is(n: Unit)
    ensures IsHex4(Hex4(n)) && CodeUnit(Hex4(n)) == n && LowerHex(Hex4(n))
  {
    Hex4Inverse(n);
    UnitIs(Hex4(n));
  }

  lemma PieceOfIs(c: char)
    ensures IsPiece(PieceOf(c)) && PieceText(PieceOf(c)) == EscapeChar(c) && PieceChar(PieceOf(c)) == c
    ensures IsCompactPiece(PieceOf(c))
  {
    if !IsPlain(c) && ShortEscape(c).None? {
      if c as int < 0x1_0000 { UnitPiece(c); } else { AstralPiece(c); }
    }
  }

  lemma UnitPiece(c: char)
    requires !IsPlain(c) && ShortEscape(c).None? && c as int < 0x1_0000
    ensures IsPiece(Unicode(Hex4(c as int))) && PieceChar(Unicode(Hex4(c as int))) == c && IsCompactPiece(Unicode(Hex4(c as int)))
  {
    Hex4Is(c as int);
  }

  lemma AstralPiece(c: char)
    requires c as int >= 0x1_0000
    ensures var p := Surrogates(Hex4(HighSurrogate(c)), Hex4(LowSurrogate(c)));
            IsPiece(p) && PieceChar(p) == c && IsCompactPiece(p)
  {
    SurrogatesInverse(c);
    Hex4Is(HighSurrogate(c));
    Hex4Is(LowSurrogate(c));
  }

  function PiecesOf(s: string): (ps: seq<Piece>)
    ensures |ps| == |s|
  {
    if s == "" then [] else [PieceOf(s[0])] + PiecesOf(s[1..])
  }

  lemma {:induction false} PiecesOfIs(s: string)
    ensures ArePieces(PiecesOf(s)) && PiecesText(PiecesOf(s)) == Escape(s) && PiecesValue(PiecesOf(s)) == s
    ensures forall p <- PiecesOf(s) :: IsCompactPiece(p)
  {
    if s != "" {
      PieceOfIs(s[0]);
      PiecesOfIs(s[1..]);
      var more := PiecesOf(s[1..]);
      assert PiecesOf(s) == [PieceOf(s[0])] + more;
      OnePiece(PieceOf(s[0]), more);
      assert PiecesText(PiecesOf(s)) == EscapeChar(s[0]) + Escape(s[1..]);
      assert s == [s[0]] + s[1..];
    }
  }

  lemma OnePiece(p: Piece, more: seq<Piece>)
    requires IsPiece(p) && ArePieces(more)
    ensures var ps := [p] + more;
            ArePieces(ps) && PiecesText(ps) == PieceText(p) + PiecesText(more) && PiecesValue(ps) == [PieceChar(p)] + PiecesValue(more)
  {
    assert ([p] + more)[1..] == more;
  }

  /** Each character's escape is read back as that character, whatever text
      comes after it. */
  lemma EscapeCharReads(c: char, rest: string)
    ensures EscapeChar(c) != "" && EscapeChar(c)[0] != '"'
    ensures ScanChar(EscapeChar(c) + rest) == Some(Scanned(c, |EscapeChar(c)|))
  {
    PieceOfIs(c);
    PieceReads(PieceOf(c), rest);
  }

  /** A quoted string is read back as itself, up to its own closing quote. */
  lemma QuoteReads(s: string, rest: string)
    ensures ScanString(Escape(s) + "\"" + rest) == Some((s, rest))
  {
    PiecesOfIs(s);
    PiecesRead(PiecesOf(s), rest);
    AppendTwo(Escape(s), "\"", rest);
  }

  // ---- And written in no other way ---------------------------------------

  lemma LowerHexIs(h: string)
    requires IsHex4(h) && LowerHex(h)
    ensures Hex4(CodeUnit(h)) == h
  {
    Hex.ValueInverse(h[0]);
    Hex.ValueInverse(h[1]);
    Hex.ValueInverse(h[2]);
    Hex.ValueInverse(h[3]);
    PairOf(h[0], h[1]);
    PairOf(h[2], h[3]);
    var high: int := Hex.Value(h[0]).value * 0x10 + Hex.Value(h[1]).value;
    var low: int := Hex.Value(h[2]).value * 0x10 + Hex.Value(h[3]).value;
    Halves(high, low);
    assert CodeUnit(h) == high * 0x100 + low;
    assert h == h[..2] + h[2..];
  }

  lemma Halves(high: int, low: int)
    requires 0 <= low < 0x100
    ensures (high * 0x100 + low) / 0x100 == high && (high * 0x100 + low) % 0x100 == low
  {
  }

  lemma PairOf(a: char, b: char)
    requires Hex.Value(a).Some? && Hex.Value(b).Some? && Hex.Lower(a) == a && Hex.Lower(b) == b
    ensures Hex.Pair(Hex.Value(a).value * 0x10 + Hex.Value(b).value) == [a, b]
  {
    Hex.ValueInverse(a);
    Hex.ValueInverse(b);
  }

  lemma CompactPiece(p: Piece)
    requires IsPiece(p) && IsCompactPiece(p)
    ensures EscapeChar(PieceChar(p)) == PieceText(p)
  {
    match p
    case Raw(c) =>
    case Short(letter, c) => CompactShort(letter, c);
    case Unicode(hex) => CompactUnicode(hex);
    case Surrogates(high, low) => CompactSurrogates(high, low);
  }

  lemma CompactShort(letter: char, c: char)
    requires IsShort(letter, c) && letter != '/'
    ensures EscapeChar(c) == ['\\', letter]
  {
  }

  lemma CompactUnicode(hex: string)
    requires IsPiece(Unicode(hex)) && IsCompactPiece(Unicode(hex))
    ensures EscapeChar(CodeUnit(hex) as char) == "\\u" + hex
  {
    LowerHexIs(hex);
    NoShort(CodeUnit(hex) as char);
  }

  lemma CompactSurrogates(high: string, low: string)
    requires IsPiece(Surrogates(high, low)) && LowerHex(high) && LowerHex(low)
    ensures EscapeChar(PieceChar(Surrogates(high, low))) == "\\u" + (high + ("\\u" + low))
  {
    LowerHexIs(high);
    LowerHexIs(low);
    SurrogateParts(CodeUnit(high), CodeUnit(low));
  }

  lemma SurrogateParts(high: Unit, low: Unit)
    requires IsHighSurrogate(high) && IsLowSurrogate(low)
    ensures var c := Pair(high, low); c as int >= 0x1_0000 && HighSurrogate(c) == high && LowSurrogate(c) == low
  {
  }

  lemma NoShort(c: char)
    requires forall l :: !IsShort(l, c) || l == '/'
    ensures ShortEscape(c).None?
  {
    assert !IsShort('"', c) && !IsShort('\\', c) && !IsShort('b', c) && !IsShort('f', c)
           && !IsShort('n', c) && !IsShort('r', c) && !IsShort('t', c);
  }

  /** A text of compact pieces is the one json.dumps writes for its value. */
  lemma {:induction false} CompactPieces(ps: seq<Piece>)
    requires ArePieces(ps) && forall p <- ps :: IsCompactPiece(p)
    ensures Escape(PiecesValue(ps)) == PiecesText(ps)
  {
    if |ps| > 0 {
      CompactPiece(ps[0]);
      CompactPieces(ps[1..]);
      assert PiecesValue(ps)[1..] == PiecesValue(ps[1..]);
    }
  }
}
