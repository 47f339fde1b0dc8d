/** JSON numbers (RFC 8259 section 6): their grammar, the scanner json.loads reads
    them with, and the decimal text json.dumps writes an integer as. */
module JsonNumber {
  import opened Options

  /** A float is the decimal text that denotes it, or one of the three values
      that have none. */
  datatype Float = Finite(text: FloatText) | NaN | Infinity | NegInfinity

  predicate IsDigit(c: char) {
    '0' <= c <= '9'
  }

  predicate AllDigits(s: string) {
    forall i :: 0 <= i < |s| ==> IsDigit(s[i])
  }

  // ---- The grammar -------------------------------------------------------

  datatype Exponent = Exponent(mark: char, sign: string, digits: string)

  /** A number by its parts. */
  datatype Numeral = Numeral(minus: bool, whole: string, frac: Option<string>, exp: Option<Exponent>)

  predicate IsDigits(s: string) {
    |s| > 0 && AllDigits(s)
  }

  predicate IsWhole(s: string) {
    IsDigits(s) && (s[0] == '0' ==> |s| == 1)
  }

  predicate IsExponent(e: Exponent) {
    (e.mark == 'e' || e.mark == 'E') && (e.sign == "" || e.sign == "+" || e.sign == "-") && IsDigits(e.digits)
  }

  predicate IsNumeral(n: Numeral) {
    IsWhole(n.whole) && (n.frac.Some? ==> IsDigits(n.frac.value)) && (n.exp.Some? ==> IsExponent(n.exp.value))
  }

  function FracText(frac: Option<string>): string {
    if frac.Some? then "." + frac.value else ""
  }

  function ExpText(exp: Option<Exponent>): string {
    if exp.Some? then [exp.value.mark] + (exp.value.sign + exp.value.digits) else ""
  }

  function SignText(minus: bool): string {
    if minus then "-" else ""
  }

  function NumeralText(n: Numeral): string {
    (SignText(n.minus) + n.whole) + (FracText(n.frac) + ExpText(n.exp))
  }

  /** It is a float exactly when it has a fraction or an exponent. */
  predicate IsFloatNumeral(n: Numeral) {
    n.frac.Some? || n.exp.Some?
  }

  function Power10(k: nat): nat {
    if k == 0 then 1 else 10 * Power10(k - 1)
  }

  /** What digits are worth, each by its place. */
  function DecimalValue(digits: string): int {
    if digits == "" then 0
    else (digits[0] as int - '0' as int) * Power10(|digits| - 1) + DecimalValue(digits[1..])
  }

  function WholeValue(n: Numeral): int {
    if n.minus then -DecimalValue(n.whole) else DecimalValue(n.whole)
  }

  ghost predicate IsFloatText(s: string) {
    exists n: Numeral :: IsNumeral(n) && IsFloatNumeral(n) && NumeralText(n) == s
  }

  lemma ZeroIsFloatText()
    ensures IsFloatText("0.0")
  {
    var n := Numeral(false, "0", Some("0"), None);
    assert NumeralText(n) == "0.0";
    assert IsNumeral(n);
  }

  type FloatText = s: string | IsFloatText(s) ghost witness (ZeroIsFloatText(); "0.0")

  // ---- The scanner -------------------------------------------------------

  function DigitsLength(s: string): (n: nat)
    ensures n <= |s|
  {
    if s != "" && IsDigit(s[0]) then 1 + DigitsLength(s[1..]) else 0
  }

  /** The length of -?(0|[1-9][0-9]*) at the start of s, or 0. */
  function IntLength(s: string): (n: nat)
    ensures n <= |s|
  {
    var sign := if s != "" && s[0] == '-' then 1 else 0;
    if |s| == sign then 0
    else if s[sign] == '0' then sign + 1
    else if IsDigit(s[sign]) then sign + DigitsLength(s[sign..])
    else 0
  }

  /** The length of [.][0-9]+ at the start of s, or 0. */
  function FracLength(s: string): (n: nat)
    ensures n <= |s|
  {
    if s != "" && s[0] == '.' && DigitsLength(s[1..]) > 0 then 1 + DigitsLength(s[1..]) else 0
  }

  /** The length of [eE][-+]?[0-9]+ at the start of s, or 0. */
  function ExpLength(s: string): (n: nat)
    ensures n <= |s|
  {
    if s == "" || (s[0] != 'e' && s[0] != 'E') then 0
    else
      var sign := if |s| > 1 && (s[1] == '-' || s[1] == '+') then 2 else 1;
      if DigitsLength(s[sign..]) > 0 then sign + DigitsLength(s[sign..]) else 0
  }

  /** The length of the fraction and the exponent, each optional. */
  function TailLength(s: string): (n: nat)
    ensures n <= |s|
  {
    var frac := FracLength(s);
    frac + ExpLength(s[frac..])
  }

  datatype Number = Number(length: nat, float: bool)

  /** The number at the start of s: a float when it has a fraction or an
      exponent. */
  function ScanNumber(s: string): (n: Option<Number>)
    ensures n.Some? ==> 0 < n.value.length <= |s|
  {
    var whole := IntLength(s);
    if whole == 0 then None
    else
      var tail := TailLength(s[whole..]);
      Some(Number(whole + tail, tail > 0))
  }

  function NatText(n: nat): string {
    if n < 10 then [('0' as int + n) as char] else NatText(n / 10) + [('0' as int + n % 10) as char]
  }

  function IntText(i: int): string {
    if i < 0 then "-" + NatText(-i) else NatText(i)
  }

  function NatValue(s: string): int {
    if s == "" then 0 else NatValue(s[..|s| - 1]) * 10 + (s[|s| - 1] as int - '0' as int)
  }

  function IntValue(s: string): int {
    if s != "" && s[0] == '-' then -NatValue(s[1..]) else NatValue(s)
  }

  predicate IsNumberChar(c: char) {
    IsDigit(c) || c == '.' || c == 'e' || c == 'E' || c == '+' || c == '-'
  }

  /** What may follow a number without being read as part of it. */
  predicate Ends(rest: string) {
    rest == "" || !IsNumberChar(rest[0])
  }

  /** The digits s starts with, and all of them. */
  lemma {:induction false} DigitsLengthIs(s: string)
    ensures AllDigits(s[..DigitsLength(s)])
    ensures DigitsLength(s) < |s| ==> !IsDigit(s[DigitsLength(s)])
  {
    if s != "" && IsDigit(s[0]) {
      DigitsLengthIs(s[1..]);
      assert s[..DigitsLength(s)] == [s[0]] + s[1..][..DigitsLength(s[1..])];
    }
  }

  lemma {:induction false} DigitsStop(s: string, rest: string)
    requires rest == "" || !IsDigit(rest[0])
    ensures DigitsLength(s + rest) == DigitsLength(s)
  {
    if s == "" {
      assert s + rest == rest;
    } else {
      assert (s + rest)[1..] == s[1..] + rest;
      DigitsStop(s[1..], rest);
    }
  }

  lemma IntStops(s: string, rest: string)
    requires IntLength(s) > 0 && Ends(rest)
    ensures IntLength(s + rest) == IntLength(s)
  {
    var sign := if s[0] == '-' then 1 else 0;
    assert (s + rest)[sign..] == s[sign..] + rest;
    DigitsStop(s[sign..], rest);
  }

  lemma FracStops(f: string, rest: string)
    requires Ends(rest)
    ensures FracLength(f + rest) == FracLength(f)
  {
    if f == "" {
      assert f + rest == rest;
    } else {
      assert (f + rest)[1..] == f[1..] + rest;
      DigitsStop(f[1..], rest);
    }
  }

  lemma ExpStops(e: string, rest: string)
    requires Ends(rest)
    ensures ExpLength(e + rest) == ExpLength(e)
  {
    if e == "" {
      assert e + rest == rest;
    } else if e[0] == 'e' || e[0] == 'E' {
      var sign := if |e| > 1 && (e[1] == '-' || e[1] == '+') then 2 else 1;
      assert (e + rest)[sign..] == e[sign..] + rest;
      DigitsStop(e[sign..], rest);
    }
  }

  lemma DropAppend(s: string, n: nat, rest: string)
    requires n <= |s|
    ensures (s + rest)[n..] == s[n..] + rest
  {
  }

  lemma TailStops(f: string, rest: string)
    requires Ends(rest)
    ensures TailLength(f + rest) == TailLength(f)
  {
    FracStops(f, rest);
    var frac := FracLength(f);
    DropAppend(f, frac, rest);
    ExpStops(f[frac..], rest);
  }

  lemma ScanIs(s: string, whole: nat, tail: nat)
    requires 0 < whole <= |s| && IntLength(s) == whole && TailLength(s[whole..]) == tail
    ensures ScanNumber(s) == Some(Number(whole + tail, tail > 0))
  {
  }

  lemma SameScan(head: string, t: string, u: string)
    requires head != "" && IntLength(head + t) == |head| == IntLength(head + u) && TailLength(t) == TailLength(u)
    ensures ScanNumber(head + u) == ScanNumber(head + t)
  {
    HeadScans(head, t, TailLength(t));
    HeadScans(head, u, TailLength(u));
  }

  lemma Split(s: string, n: nat, rest: string)
    requires n <= |s|
    ensures s == s[..n] + s[n..] && s + rest == s[..n] + (s[n..] + rest)
  {
  }

  /** A number is read to its own end, whatever delimiter follows it. */
  lemma ScanNumberStops(s: string, rest: string)
    requires ScanNumber(s).Some? && Ends(rest)
    ensures ScanNumber(s + rest) == ScanNumber(s)
  {
    IntStops(s, rest);
    var whole := IntLength(s);
    var head, t := s[..whole], s[whole..];
    TailStops(t, rest);
    Split(s, whole, rest);
    SameScan(head, t, t + rest);
  }

  // ---- The scanner takes numerals, and nothing else ----------------------

  lemma {:induction false} DigitsRead(digits: string, rest: string)
    requires AllDigits(digits) && (rest == "" || !IsDigit(rest[0]))
    ensures DigitsLength(digits + rest) == |digits|
  {
    if digits == "" {
      assert digits + rest == rest;
    } else {
      assert (digits + rest)[1..] == digits[1..] + rest;
      DigitsRead(digits[1..], rest);
    }
  }

  lemma WholeReads(whole: string, rest: string)
    requires IsWhole(whole) && (rest == "" || !IsDigit(rest[0]))
    ensures IntLength(whole + rest) == |whole|
    ensures IntLength("-" + (whole + rest)) == 1 + |whole|
  {
    DigitsRead(whole, rest);
    assert (whole + rest)[0..] == whole + rest;
    assert ("-" + (whole + rest))[1..] == whole + rest;
  }

  lemma FracReads(frac: Option<string>, rest: string)
    requires frac.Some? ==> IsDigits(frac.value)
    requires rest == "" || (rest[0] != '.' && !IsDigit(rest[0]))
    ensures FracLength(FracText(frac) + rest) == |FracText(frac)|
  {
    if frac.Some? {
      DigitsRead(frac.value, rest);
      assert (FracText(frac) + rest)[1..] == frac.value + rest;
    } else {
      assert FracText(frac) + rest == rest;
    }
  }

  lemma ExpReads(exp: Option<Exponent>, rest: string)
    requires (exp.Some? ==> IsExponent(exp.value)) && Ends(rest)
    ensures ExpLength(ExpText(exp) + rest) == |ExpText(exp)|
  {
    if exp.Some? {
      var e := exp.value;
      DigitsRead(e.digits, rest);
      ExpParts(e, rest);
      ExpIs(ExpText(exp) + rest, 1 + |e.sign|, |e.digits|);
    } else {
      assert ExpText(exp) + rest == rest;
    }
  }

  lemma ExpIs(s: string, sign: nat, digits: nat)
    requires |s| > 1 && (s[0] == 'e' || s[0] == 'E') && sign == (if s[1] == '-' || s[1] == '+' then 2 else 1)
    requires DigitsLength(s[sign..]) == digits > 0
    ensures ExpLength(s) == sign + digits
  {
  }

  lemma ExpParts(e: Exponent, rest: string)
    requires IsExponent(e)
    ensures var s := ([e.mark] + (e.sign + e.digits)) + rest;
            && |s| > 1 && s[0] == e.mark && s[1 + |e.sign|..] == e.digits + rest
            && 1 + |e.sign| == if s[1] == '-' || s[1] == '+' then 2 else 1
  {
  }

  lemma TailReads(n: Numeral, rest: string)
    requires IsNumeral(n) && Ends(rest)
    ensures var tail := FracText(n.frac) + ExpText(n.exp); TailLength(tail + rest) == |tail|
  {
    var f, e := FracText(n.frac), ExpText(n.exp);
    ExpReads(n.exp, rest);
    ExpStarts(n.exp, rest);
    FracReads(n.frac, e + rest);
    TailIs(f, e, rest);
  }

  lemma ExpStarts(exp: Option<Exponent>, rest: string)
    requires (exp.Some? ==> IsExponent(exp.value)) && Ends(rest)
    ensures ExpText(exp) + rest == "" || ((ExpText(exp) + rest)[0] != '.' && !IsDigit((ExpText(exp) + rest)[0]))
  {
  }

  lemma TailIs(f: string, e: string, rest: string)
    requires FracLength(f + (e + rest)) == |f| && ExpLength(e + rest) == |e|
    ensures TailLength((f + e) + rest) == |f + e|
  {
    assert (f + e) + rest == f + (e + rest);
    DropPart(f, e + rest);
  }

  /** What comes after the digits of a whole part is no digit, and nothing when
      there is neither fraction nor exponent. */
  lemma TailStarts(n: Numeral, rest: string)
    requires IsNumeral(n) && Ends(rest)
    ensures var tail := FracText(n.frac) + ExpText(n.exp);
            (tail == "" <==> !IsFloatNumeral(n)) && (tail + rest == "" || !IsDigit((tail + rest)[0]))
  {
  }

  lemma DropPart(a: string, b: string)
    ensures (a + b)[|a|..] == b && (a + b)[..|a|] == a
  {
  }

  /** Every numeral is scanned to its own end, whatever delimiter follows it, as
      an integer or a float. */
  lemma NumeralScans(n: Numeral, rest: string)
    requires IsNumeral(n) && Ends(rest)
    ensures ScanNumber(NumeralText(n) + rest) == Some(Number(|NumeralText(n)|, IsFloatNumeral(n)))
  {
    TailReads(n, rest);
    TailStarts(n, rest);
    var tail := FracText(n.frac) + ExpText(n.exp);
    SignedReads(n.minus, n.whole, tail + rest);
    TextScans(SignText(n.minus) + n.whole, tail, rest);
  }

  lemma TextScans(head: string, tail: string, rest: string)
    requires head != "" && IntLength(head + (tail + rest)) == |head| && TailLength(tail + rest) == |tail|
    ensures ScanNumber((head + tail) + rest) == Some(Number(|head + tail|, |tail| > 0))
  {
    HeadScans(head, tail + rest, |tail|);
    Regroup(head, tail, rest);
  }

  lemma SignedReads(minus: bool, whole: string, t: string)
    requires IsWhole(whole) && (t == "" || !IsDigit(t[0]))
    ensures IntLength((SignText(minus) + whole) + t) == |SignText(minus) + whole|
  {
    WholeReads(whole, t);
    SignedIs(minus, whole, t);
  }

  lemma HeadScans(head: string, t: string, tail: nat)
    requires head != "" && IntLength(head + t) == |head| && TailLength(t) == tail
    ensures ScanNumber(head + t) == Some(Number(|head| + tail, tail > 0))
  {
    DropPart(head, t);
    ScanIs(head + t, |head|, tail);
  }

  lemma SignedIs(minus: bool, whole: string, t: string)
    ensures (SignText(minus) + whole) + t == if minus then "-" + (whole + t) else whole + t
  {
  }

  lemma Regroup(a: string, b: string, c: string)
    ensures (a + b) + c == a + (b + c)
  {
  }

  lemma WholeShown(s: string) returns (minus: bool, whole: string)
    requires IntLength(s) > 0
    ensures IsWhole(whole) && s[..IntLength(s)] == SignText(minus) + whole
  {
    minus := s[0] == '-';
    var sign := if minus then 1 else 0;
    whole := s[sign..IntLength(s)];
    DigitsLengthIs(s[sign..]);
    assert s[sign..][..IntLength(s) - sign] == whole;
    assert whole[0] == s[sign];
  }

  lemma FracShown(s: string) returns (frac: Option<string>)
    ensures (frac.Some? ==> IsDigits(frac.value)) && s[..FracLength(s)] == FracText(frac)
  {
    var n := FracLength(s);
    if n == 0 {
      frac := None;
    } else {
      frac := Some(s[1..n]);
      DigitsLengthIs(s[1..]);
      assert s[1..][..n - 1] == s[1..n];
      assert s[..n] == "." + s[1..n];
    }
  }

  lemma ExpShown(s: string) returns (exp: Option<Exponent>)
    ensures (exp.Some? ==> IsExponent(exp.value)) && s[..ExpLength(s)] == ExpText(exp)
  {
    var n := ExpLength(s);
    if n == 0 {
      exp := None;
    } else {
      var sign := if |s| > 1 && (s[1] == '-' || s[1] == '+') then 2 else 1;
      var e := Exponent(s[0], s[1..sign], s[sign..n]);
      DigitsLengthIs(s[sign..]);
      assert s[sign..][..n - sign] == e.digits;
      assert e.sign == if sign == 2 then [s[1]] else "";
      exp := Some(e);
    }
  }

  /** And whatever is scanned is a numeral. */
  lemma ScannedNumeral(s: string) returns (n: Numeral)
    requires ScanNumber(s).Some?
    ensures IsNumeral(n) && NumeralText(n) == s[..ScanNumber(s).value.length] && IsFloatNumeral(n) == ScanNumber(s).value.float
  {
    var whole := IntLength(s);
    var t := s[whole..];
    var minus, w := WholeShown(s);
    var frac := FracShown(t);
    var u := t[FracLength(t)..];
    var exp := ExpShown(u);
    n := Numeral(minus, w, frac, exp);
    Pieces(s, whole, FracLength(t), ExpLength(u));
  }

  lemma FloatScanned(s: string)
    requires ScanNumber(s).Some? && ScanNumber(s).value.float
    ensures IsFloatText(s[..ScanNumber(s).value.length])
  {
    var n := ScannedNumeral(s);
  }

  lemma Pieces(s: string, a: nat, b: nat, c: nat)
    requires a + b + c <= |s|
    ensures s[..a + b + c] == s[..a] + (s[a..][..b] + s[a..][b..][..c])
  {
  }

  // ---- What integers are worth -------------------------------------------

  lemma {:induction false} ValueByPlace(s: string)
    requires s != ""
    ensures NatValue(s) == (s[0] as int - '0' as int) * Power10(|s| - 1) + NatValue(s[1..])
  {
    if |s| == 1 {
      assert s[..0] == "" && s[1..] == "";
    } else {
      var before := s[..|s| - 1];
      ValueByPlace(before);
      assert s[1..][..|s| - 2] == before[1..];
      PlaceUp(s[0] as int - '0' as int, |s| - 1);
    }
  }

  lemma PlaceUp(digit: int, k: nat)
    requires k > 0
    ensures digit * Power10(k - 1) * 10 == digit * Power10(k)
  {
  }

  lemma {:induction false} ValueIsDecimal(s: string)
    ensures NatValue(s) == DecimalValue(s)
  {
    if s != "" {
      ValueByPlace(s);
      ValueIsDecimal(s[1..]);
    }
  }

  lemma IntValueIs(n: Numeral)
    requires IsNumeral(n) && !IsFloatNumeral(n)
    ensures IntValue(NumeralText(n)) == WholeValue(n)
  {
    ValueIsDecimal(n.whole);
    assert NumeralText(n) == SignText(n.minus) + n.whole;
    if n.minus { assert NumeralText(n)[1..] == n.whole; } else { assert NumeralText(n) == n.whole; }
  }

  lemma {:induction false} NatTextReads(n: nat)
    ensures |NatText(n)| > 0 && AllDigits(NatText(n)) && (n > 0 ==> NatText(n)[0] != '0')
    ensures NatValue(NatText(n)) == n
  {
    if n < 10 {
      assert NatText(n)[..0] == "";
    } else {
      NatTextReads(n / 10);
      assert NatText(n)[..|NatText(n)| - 1] == NatText(n / 10);
    }
  }

  /** Decimal text is the only text of its value. */
  lemma {:induction false} NatTextOf(s: string)
    requires IsWhole(s)
    ensures NatValue(s) >= 0 && NatText(NatValue(s)) == s
    ensures s[0] != '0' ==> NatValue(s) > 0
  {
    var before, last := s[..|s| - 1], s[|s| - 1];
    if |s| == 1 {
      assert NatValue(before) == 0;
    } else {
      NatTextOf(before);
      assert s == before + [last];
    }
  }

  lemma {:induction false} AllDigitsLength(s: string)
    requires AllDigits(s)
    ensures DigitsLength(s) == |s|
  {
    if s != "" {
      AllDigitsLength(s[1..]);
    }
  }

  /** The text of an integer is read whole, as an integer, with its value. */
  lemma IntTextReads(i: int)
    ensures ScanNumber(IntText(i)) == Some(Number(|IntText(i)|, false))
    ensures IntValue(IntText(i)) == i
    ensures IntText(i)[0] == '-' || IsDigit(IntText(i)[0])
  {
    var n := if i < 0 then -i else i;
    NatTextReads(n);
    AllDigitsLength(NatText(n));
    if i < 0 {
      assert IntText(i)[1..] == NatText(n);
    } else {
      assert IntText(i)[0..] == NatText(n);
    }
    if n == 0 {
      assert NatText(0) == "0";
    }
    assert IntLength(IntText(i)) == |IntText(i)|;
    assert IntText(i)[|IntText(i)|..] == "";
  }
}
