/** Hexadecimal digits: the ones the codec writes are lowercase, and both cases
    are read. */
module Hex {
  import opened Options

  type Nibble = n: int | 0 <= n < 16

  function Digit(n: Nibble): char {
    if n < 10 then ('0' as int + n) as char else ('a' as int + n - 10) as char
  }

  function Value(c: char): (n: Option<int>)
    ensures n.Some? ==> 0 <= n.value < 16
  {
    if '0' <= c <= '9' then Some(c as int - '0' as int)
    else if 'a' <= c <= 'f' then Some(c as int - 'a' as int + 10)
    else if 'A' <= c <= 'F' then Some(c as int - 'A' as int + 10)
    else None
  }

  /** Whether every character is a hex digit, of either case. */
  predicate AllHex(s: string) {
    forall i :: 0 <= i < |s| ==> Value(s[i]).Some?
  }

  function Lower(c: char): char {
    if 'A' <= c <= 'F' then (c as int - 'A' as int + 'a' as int) as char else c
  }

  const LOWERCASE := "0123456789abcdef"
  const UPPERCASE := "0123456789ABCDEF"

  /** A digit's value is its place in the table, in either case; the lowercase
      one is written. */
  lemma DigitIs(n: Nibble, c: char)
    ensures Digit(n) == LOWERCASE[n]
    ensures Value(c) == Some(n) <==> c == LOWERCASE[n] || c == UPPERCASE[n]
  {
    assert n == 0 || n == 1 || n == 2 || n == 3 || n == 4 || n == 5 || n == 6 || n == 7 || n == 8 || n == 9 || n == 10 || n == 11 || n == 12 || n == 13 || n == 14 || n == 15;
  }

  lemma DigitInverse(n: Nibble)
    ensures Value(Digit(n)) == Some(n)
  {
  }

  lemma ValueInverse(c: char)
    requires Value(c).Some?
    ensures Digit(Value(c).value) == Lower(c)
  {
  }

  /** A byte as two digits. */
  function Pair(b: int): (s: string)
    requires 0 <= b < 256
    ensures |s| == 2
  {
    [Digit(b / 16), Digit(b % 16)]
  }

  function PairValue(high: char, low: char): (b: Option<int>)
    ensures b.Some? ==> 0 <= b.value < 256
  {
    match (Value(high), Value(low))
    case (Some(h), Some(l)) => Some(h * 16 + l)
    case _ => None
  }

  lemma PairInverse(b: int)
    requires 0 <= b < 256
    ensures PairValue(Pair(b)[0], Pair(b)[1]) == Some(b)
  {
    DigitInverse(b / 16);
    DigitInverse(b % 16);
  }
}
