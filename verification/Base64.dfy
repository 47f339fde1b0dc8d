/** Base64 as RFC 4648 section 4 defines it, and as the payload codec uses it:
    b64encode for bytes on their way out, and the strict b64decode
    (validate=True) for the text of a "$bytes" tag on its way in. */
module Base64 {
  import opened Options

  type Byte = b: int | 0 <= b < 256
  type Sextet = n: int | 0 <= n < 64

  /** RFC 4648 table 1. */
  function Symbol(n: Sextet): char {
    if n < 26 then ('A' as int + n) as char
    else if n < 52 then ('a' as int + n - 26) as char
    else if n < 62 then ('0' as int + n - 52) as char
    else if n == 62 then '+'
    else '/'
  }

  function SextetOf(c: char): Option<Sextet> {
    if 'A' <= c <= 'Z' then Some(c as int - 'A' as int)
    else if 'a' <= c <= 'z' then Some(c as int - 'a' as int + 26)
    else if '0' <= c <= '9' then Some(c as int - '0' as int + 52)
    else if c == '+' then Some(62)
    else if c == '/' then Some(63)
    else None
  }

  const UPPERCASE := "ABCDEFGHIJKLMNOPQRSTUVWXYZ"
  const LOWERCASE := "abcdefghijklmnopqrstuvwxyz"
  const DIGITS_AND_SIGNS := "0123456789+/"
  const ALPHABET := UPPERCASE + (LOWERCASE + DIGITS_AND_SIGNS)

  /** The symbols are the alphabet's characters by their place, and nothing else
      is one. */
  lemma SymbolIs(n: Sextet, c: char)
    ensures |ALPHABET| == 64 && Symbol(n) == ALPHABET[n]
    ensures SextetOf(c) == Some(n) <==> ALPHABET[n] == c
  {
    AlphabetAt(n);
    SymbolInverse(n);
    if SextetOf(c) == Some(n) { SextetInverse(c); }
  }

  lemma AlphabetAt(n: Sextet)
    ensures |ALPHABET| == 64 && ALPHABET[n] == Symbol(n)
  {
    if n < 26 { Uppercase(n); } else if n < 52 { Lowercase(n - 26); } else { Others(n - 52); }
  }

  lemma Uppercase(n: nat)
    requires n < 26
    ensures UPPERCASE[n] == ('A' as int + n) as char
  {
    assert n == 0 || n == 1 || n == 2 || n == 3 || n == 4 || n == 5 || n == 6 || n == 7 || n == 8 || n == 9 || n == 10 || n == 11 || n == 12 || n == 13 || n == 14 || n == 15 || n == 16 || n == 17 || n == 18 || n == 19 || n == 20 || n == 21 || n == 22 || n == 23 || n == 24 || n == 25;
  }

  lemma Lowercase(n: nat)
    requires n < 26
    ensures LOWERCASE[n] == ('a' as int + n) as char
  {
    assert n == 0 || n == 1 || n == 2 || n == 3 || n == 4 || n == 5 || n == 6 || n == 7 || n == 8 || n == 9 || n == 10 || n == 11 || n == 12 || n == 13 || n == 14 || n == 15 || n == 16 || n == 17 || n == 18 || n == 19 || n == 20 || n == 21 || n == 22 || n == 23 || n == 24 || n == 25;
  }

  lemma Others(n: nat)
    requires n < 12
    ensures DIGITS_AND_SIGNS[n] == Symbol(n + 52)
  {
    assert n == 0 || n == 1 || n == 2 || n == 3 || n == 4 || n == 5 || n == 6 || n == 7 || n == 8 || n == 9 || n == 10 || n == 11;
  }

  lemma SymbolInverse(n: Sextet)
    ensures SextetOf(Symbol(n)) == Some(n)
  {
  }

  lemma SextetInverse(c: char)
    requires SextetOf(c).Some?
    ensures Symbol(SextetOf(c).value) == c
  {
  }

  function Encode(data: seq<Byte>): string {
    if |data| == 0 then ""
    else if |data| == 1 then
      [Symbol(data[0] / 4), Symbol(data[0] % 4 * 16), '=', '=']
    else if |data| == 2 then
      [Symbol(data[0] / 4), Symbol(data[0] % 4 * 16 + data[1] / 16), Symbol(data[1] % 16 * 4), '=']
    else
      [Symbol(data[0] / 4), Symbol(data[0] % 4 * 16 + data[1] / 16),
       Symbol(data[1] % 16 * 4 + data[2] / 64), Symbol(data[2] % 64)] + Encode(data[3..])
  }

  /** The bytes four, three or two sextets carry; the bits a short quantum
      leaves over are dropped. */
  function Three(p: int, q: int, r: int, s: int): (data: seq<Byte>)
    requires 0 <= p < 64 && 0 <= q < 64 && 0 <= r < 64 && 0 <= s < 64
  {
    [p * 4 + q / 16, q % 16 * 16 + r / 4, r % 4 * 64 + s]
  }

  function Two(p: int, q: int, r: int): (data: seq<Byte>)
    requires 0 <= p < 64 && 0 <= q < 64 && 0 <= r < 64
  {
    [p * 4 + q / 16, q % 16 * 16 + r / 4]
  }

  function One(p: int, q: int): (data: seq<Byte>)
    requires 0 <= p < 64 && 0 <= q < 64
  {
    [p * 4 + q / 16]
  }

  function DecodeQuantum(a: char, b: char, c: char, d: char, last: bool): Option<seq<Byte>> {
    match (SextetOf(a), SextetOf(b), SextetOf(c), SextetOf(d))
    case (Some(p), Some(q), Some(r), Some(s)) => Some(Three(p, q, r, s))
    case (Some(p), Some(q), Some(r), None) => if last && d == '=' then Some(Two(p, q, r)) else None
    case (Some(p), Some(q), None, None) => if last && c == '=' && d == '=' then Some(One(p, q)) else None
    case _ => None
  }

  /** Strict decoding: whole quanta of the alphabet, padding only at the end. */
  function Decode(text: string): Option<seq<Byte>> {
    if |text| == 0 then Some([])
    else if |text| < 4 then None
    else
      match (DecodeQuantum(text[0], text[1], text[2], text[3], |text| == 4), Decode(text[4..]))
      case (Some(head), Some(tail)) => Some(head + tail)
      case _ => None
  }

  /** The bits a padded final quantum leaves over are zero, as an encoder that
      follows RFC 4648 section 3.5 leaves them. */
  predicate Canonical(text: string) {
    |text| >= 4 ==>
      var tail := text[|text| - 4..];
      && (tail[2] == '=' ==> SextetOf(tail[1]).Some? && SextetOf(tail[1]).value % 16 == 0)
      && (tail[2] != '=' && tail[3] == '=' ==> SextetOf(tail[2]).Some? && SextetOf(tail[2]).value % 4 == 0)
  }

  // A number written in two parts, taken apart again.

  lemma Join4(high: int, low: int)
    requires 0 <= low < 4
    ensures (high * 4 + low) / 4 == high && (high * 4 + low) % 4 == low
  {
  }

  lemma Join16(high: int, low: int)
    requires 0 <= low < 16
    ensures (high * 16 + low) / 16 == high && (high * 16 + low) % 16 == low
  {
  }

  lemma Join64(high: int, low: int)
    requires 0 <= low < 64
    ensures (high * 64 + low) / 64 == high && (high * 64 + low) % 64 == low
  {
  }

  lemma EncodesThree(x: Byte, y: Byte, z: Byte)
    ensures Encode([x, y, z]) == [Symbol(x / 4), Symbol(x % 4 * 16 + y / 16), Symbol(y % 16 * 4 + z / 64), Symbol(z % 64)]
  {
    var data: seq<Byte> := [x, y, z];
    assert data[3..] == [];
    assert Encode(data[3..]) == "";
  }

  lemma ThreeBytes(x: Byte, y: Byte, z: Byte)
    ensures Three(x / 4, x % 4 * 16 + y / 16, y % 16 * 4 + z / 64, z % 64) == [x, y, z]
  {
    Join16(x % 4, y / 16);
    Join4(y % 16, z / 64);
  }

  lemma ThreeInverse(p: Sextet, q: Sextet, r: Sextet, s: Sextet)
    ensures Encode(Three(p, q, r, s)) == [Symbol(p), Symbol(q), Symbol(r), Symbol(s)]
  {
    Join4(p, q / 16);
    Join16(q % 16, r / 4);
    Join64(r % 4, s);
    EncodesThree(p * 4 + q / 16, q % 16 * 16 + r / 4, r % 4 * 64 + s);
  }

  lemma TwoInverse(p: Sextet, q: Sextet, r: Sextet)
    ensures Encode(Two(p, q, r)) == [Symbol(p), Symbol(q), Symbol(r / 4 * 4), '=']
  {
    Join4(p, q / 16);
    Join16(q % 16, r / 4);
  }

  lemma OneInverse(p: Sextet, q: Sextet)
    ensures Encode(One(p, q)) == [Symbol(p), Symbol(q / 16 * 16), '=', '=']
  {
    Join4(p, q / 16);
  }

  lemma OneByte(x: Byte)
    ensures One(x / 4, x % 4 * 16) == [x]
  {
    Join16(x % 4, 0);
  }

  lemma OneForward(x: Byte)
    ensures var text := Encode([x]);
            |text| == 4 && DecodeQuantum(text[0], text[1], text[2], text[3], true) == Some([x])
  {
    SymbolInverse(x / 4);
    SymbolInverse(x % 4 * 16);
    OneByte(x);
  }

  lemma TwoBytes(x: Byte, y: Byte)
    ensures Two(x / 4, x % 4 * 16 + y / 16, y % 16 * 4) == [x, y]
  {
    Join16(x % 4, y / 16);
    Join4(y % 16, 0);
  }

  lemma TwoForward(x: Byte, y: Byte)
    ensures var text := Encode([x, y]);
            |text| == 4 && DecodeQuantum(text[0], text[1], text[2], text[3], true) == Some([x, y])
  {
    EncodesTwo(x, y);
    TwoBytes(x, y);
    TwoSymbols(x / 4, x % 4 * 16 + y / 16, y % 16 * 4);
  }

  lemma EncodesTwo(x: Byte, y: Byte)
    ensures Encode([x, y]) == [Symbol(x / 4), Symbol(x % 4 * 16 + y / 16), Symbol(y % 16 * 4), '=']
  {
  }

  lemma TwoSymbols(p: Sextet, q: Sextet, r: Sextet)
    ensures DecodeQuantum(Symbol(p), Symbol(q), Symbol(r), '=', true) == Some(Two(p, q, r))
  {
    SymbolInverse(p);
    SymbolInverse(q);
    SymbolInverse(r);
  }

  lemma ThreeForward(x: Byte, y: Byte, z: Byte, last: bool)
    ensures var text := Encode([x, y, z]);
            |text| == 4 && DecodeQuantum(text[0], text[1], text[2], text[3], last) == Some([x, y, z])
  {
    EncodesThree(x, y, z);
    ThreeBytes(x, y, z);
    ThreeSymbols(x / 4, x % 4 * 16 + y / 16, y % 16 * 4 + z / 64, z % 64, last);
  }

  lemma ThreeSymbols(p: Sextet, q: Sextet, r: Sextet, s: Sextet, last: bool)
    ensures DecodeQuantum(Symbol(p), Symbol(q), Symbol(r), Symbol(s), last) == Some(Three(p, q, r, s))
  {
    SymbolInverse(p);
    SymbolInverse(q);
    SymbolInverse(r);
    SymbolInverse(s);
  }

  lemma QuantumForward(data: seq<Byte>, last: bool)
    requires 1 <= |data| <= 3 && (|data| < 3 ==> last)
    ensures var text := Encode(data);
            |text| == 4 && DecodeQuantum(text[0], text[1], text[2], text[3], last) == Some(data)
  {
    if |data| == 1 {
      OneForward(data[0]);
      assert data == [data[0]];
    } else if |data| == 2 {
      TwoForward(data[0], data[1]);
      assert data == [data[0], data[1]];
    } else {
      ThreeForward(data[0], data[1], data[2], last);
      assert data == [data[0], data[1], data[2]];
    }
  }

  /** Every byte string, of every length, comes back from its own text. */
  lemma {:induction false} EncodeDecode(data: seq<Byte>)
    ensures Decode(Encode(data)) == Some(data)
  {
    if 1 <= |data| <= 3 {
      QuantumForward(data, true);
      assert Encode(data)[4..] == "";
      assert Decode("") == Some([]);
      assert data + [] == data;
    } else if |data| > 3 {
      QuantumForward(data[..3], false);
      EncodeDecode(data[3..]);
      EncodeSplit(data[..3], data[3..]);
      assert data == data[..3] + data[3..];
      assert Encode(data)[4..] == Encode(data[3..]);
      assert |Encode(data[3..])| > 0;
    }
  }

  /** What the strict decoder accepts is, up to the spare bits of a padded
      quantum, exactly the encoder's image. */
  lemma {:induction false} DecodeEncode(text: string)
    requires Decode(text).Some?
    ensures Encode(Decode(text).value) == text <==> Canonical(text)
  {
    if |text| >= 4 {
      var head := DecodeQuantum(text[0], text[1], text[2], text[3], |text| == 4).value;
      var tail := Decode(text[4..]).value;
      assert Decode(text).value == head + tail;
      QuantumInverse(text[..4], |text| == 4);
      if |text| == 4 {
        assert head + tail == head;
        assert text == text[..4];
      } else {
        DecodeEncode(text[4..]);
        EncodeSplit(head, tail);
        AppendEqual(Encode(head), Encode(tail), text);
        CanonicalTail(text);
      }
    }
  }

  lemma AppendEqual(head: string, tail: string, text: string)
    requires |text| >= 4 && head == text[..4]
    ensures head + tail == text <==> tail == text[4..]
  {
    assert text == text[..4] + text[4..];
    assert (head + tail)[4..] == tail;
  }

  lemma CanonicalTail(text: string)
    requires |text| >= 8
    ensures Canonical(text) <==> Canonical(text[4..])
  {
    assert text[|text| - 4..] == text[4..][|text[4..]| - 4..];
  }

  lemma EncodeSplit(head: seq<Byte>, tail: seq<Byte>)
    requires |head| == 3
    ensures Encode(head + tail) == Encode(head) + Encode(tail)
  {
    assert head[3..] == [];
    assert (head + tail)[3..] == tail;
    assert Encode(head + tail) == Encode(head)[..4] + Encode(tail);
  }

  lemma QuantumInverse(quad: string, last: bool)
    requires |quad| == 4 && DecodeQuantum(quad[0], quad[1], quad[2], quad[3], last).Some?
    ensures var data := DecodeQuantum(quad[0], quad[1], quad[2], quad[3], last).value;
            && (Encode(data) == quad <==> Canonical(quad))
            && (!last ==> |data| == 3 && Encode(data) == quad)
  {
    var p, q := SextetOf(quad[0]).value, SextetOf(quad[1]).value;
    SextetInverse(quad[0]);
    SextetInverse(quad[1]);
    assert quad[|quad| - 4..] == quad == [quad[0], quad[1], quad[2], quad[3]];
    if SextetOf(quad[2]).None? {
      OneInverse(p, q);
      SymbolInverse(q / 16 * 16);
    } else {
      SextetInverse(quad[2]);
      var r := SextetOf(quad[2]).value;
      if SextetOf(quad[3]).None? {
        TwoInverse(p, q, r);
        SymbolInverse(r / 4 * 4);
      } else {
        SextetInverse(quad[3]);
        ThreeInverse(p, q, r, SextetOf(quad[3]).value);
      }
    }
  }

  // ---- Bit for bit -------------------------------------------------------

  /** text carries data: each three bytes in the bits of four symbols, the last
      one or two padded; the bits a padded quantum has to spare are zero, or
      with spare anything. */
  predicate Carries(text: string, data: seq<Byte>, spare: bool) {
    if |data| == 0 then text == ""
    else if |text| < 4 || SextetOf(text[0]).None? || SextetOf(text[1]).None? then false
    else
      var p, q := SextetOf(text[0]).value, SextetOf(text[1]).value;
      if |data| == 1 then text[2..] == "==" && Fits(Bits12(p, q), data[0], 0x10, spare)
      else if SextetOf(text[2]).None? then false
      else
        var r := SextetOf(text[2]).value;
        if |data| == 2 then
          text[3..] == "=" && Fits(Bits18(p, q, r), Bytes16(data[0], data[1]), 4, spare)
        else
          && SextetOf(text[3]).Some?
          && Bits24(p, q, r, SextetOf(text[3]).value) == Bytes24(data[0], data[1], data[2])
          && Carries(text[4..], data[3..], spare)
  }

  function Bits12(p: int, q: int): int {
    p * 0x40 + q
  }

  function Bits18(p: int, q: int, r: int): int {
    p * 0x1000 + q * 0x40 + r
  }

  function Bits24(p: int, q: int, r: int, s: int): int {
    p * 0x4_0000 + q * 0x1000 + r * 0x40 + s
  }

  function Bytes16(x: int, y: int): int {
    x * 0x100 + y
  }

  function Bytes24(x: int, y: int, z: int): int {
    x * 0x1_0000 + y * 0x100 + z
  }

  /** The bits are these, with room for less than the unit below them. */
  predicate Fits(bits: int, value: int, unit: int, spare: bool) {
    if spare then value * unit <= bits < value * unit + unit else bits == value * unit
  }

  lemma BitsOfThree(p: Sextet, q: Sextet, r: Sextet, s: Sextet, x: Byte, y: Byte, z: Byte)
    ensures Three(p, q, r, s) == [x, y, z] <==> Bits24(p, q, r, s) == Bytes24(x, y, z)
  {
    assert Bits24(p, q, r, s) == Bytes24(p * 4 + q / 16, q % 16 * 16 + r / 4, r % 4 * 64 + s);
    SameBytes(p * 4 + q / 16, q % 16 * 16 + r / 4, r % 4 * 64 + s, x, y, z);
  }

  lemma SameBytes(a: int, b: int, c: int, x: int, y: int, z: int)
    requires 0 <= b < 256 && 0 <= c < 256 && 0 <= y < 256 && 0 <= z < 256
    ensures [a, b, c] == [x, y, z] <==> Bytes24(a, b, c) == Bytes24(x, y, z)
  {
    assert [a, b, c] == [x, y, z] <==> a == x && b == y && c == z;
  }

  lemma BitsOfTwo(p: Sextet, q: Sextet, r: Sextet, x: Byte, y: Byte)
    ensures Two(p, q, r) == [x, y] <==> Fits(Bits18(p, q, r), Bytes16(x, y), 4, true)
  {
    assert Bits18(p, q, r) == Bytes16(p * 4 + q / 16, q % 16 * 16 + r / 4) * 4 + r % 4;
    assert Two(p, q, r) == [x, y] <==> p * 4 + q / 16 == x && q % 16 * 16 + r / 4 == y;
    SamePair(p * 4 + q / 16, q % 16 * 16 + r / 4, x, y);
  }

  lemma SamePair(a: int, b: int, x: int, y: int)
    requires 0 <= b < 256 && 0 <= y < 256
    ensures a == x && b == y <==> Bytes16(a, b) == Bytes16(x, y)
  {
  }

  lemma BitsOfOne(p: Sextet, q: Sextet, x: Byte)
    ensures One(p, q) == [x] <==> Fits(Bits12(p, q), x, 0x10, true)
  {
    assert Bits12(p, q) == (p * 4 + q / 16) * 0x10 + q % 16;
    assert One(p, q) == [x] <==> p * 4 + q / 16 == x;
  }

  /** The strict decoder reads a text as exactly the bytes it carries, whatever
      its spare bits, and takes no other text. */
  lemma {:induction false} DecodesBits(text: string, data: seq<Byte>)
    ensures Decode(text) == Some(data) <==> Carries(text, data, true)
    decreases |text|
  {
    if |text| < 4 {
      assert |data| == 0 || !Carries(text, data, true);
    } else if |text| == 4 {
      LastQuantum(text, data);
    } else {
      FullQuantum(text, data);
    }
  }

  lemma LastQuantum(text: string, data: seq<Byte>)
    requires |text| == 4
    ensures Decode(text) == Some(data) <==> Carries(text, data, true)
  {
    assert text[4..] == "" && text[2..] == [text[2], text[3]] && text[3..] == [text[3]];
    var head := DecodeQuantum(text[0], text[1], text[2], text[3], true);
    if head.Some? { assert head.value + [] == head.value; }
    LastIs(text[0], text[1], text[2], text[3], data);
    if |data| >= 3 { NoneLeft(text, data); }
  }

  lemma NoneLeft(text: string, data: seq<Byte>)
    requires |text| == 4 && |data| >= 3
    ensures Carries(text[4..], data[3..], true) <==> |data| == 3
  {
  }

  lemma LastIs(a: char, b: char, c: char, d: char, data: seq<Byte>)
    ensures DecodeQuantum(a, b, c, d, true) == Some(data) <==>
            && SextetOf(a).Some? && SextetOf(b).Some? && 1 <= |data| <= 3
            && var p, q := SextetOf(a).value, SextetOf(b).value;
               if |data| == 1 then c == '=' && d == '=' && Fits(Bits12(p, q), data[0], 0x10, true)
               else
                 && SextetOf(c).Some?
                 && var r := SextetOf(c).value;
                    if |data| == 2 then d == '=' && Fits(Bits18(p, q, r), Bytes16(data[0], data[1]), 4, true)
                    else
                      && SextetOf(d).Some?
                      && Bits24(p, q, r, SextetOf(d).value) == Bytes24(data[0], data[1], data[2])
  {
    if SextetOf(a).Some? && SextetOf(b).Some? {
      var p, q := SextetOf(a).value, SextetOf(b).value;
      if |data| == 1 { BitsOfOne(p, q, data[0]); assert data == [data[0]]; }
      if SextetOf(c).Some? {
        var r := SextetOf(c).value;
        if |data| == 2 { BitsOfTwo(p, q, r, data[0], data[1]); assert data == [data[0], data[1]]; }
        if SextetOf(d).Some? && |data| == 3 {
          BitsOfThree(p, q, r, SextetOf(d).value, data[0], data[1], data[2]);
          assert data == [data[0], data[1], data[2]];
        }
      }
    }
  }

  lemma {:induction false} FullQuantum(text: string, data: seq<Byte>)
    requires |text| > 4
    ensures Decode(text) == Some(data) <==> Carries(text, data, true)
    decreases |text|, 0
  {
    assert text[4..] != "";
    if |data| >= 3 {
      DecodesBits(text[4..], data[3..]);
      var x, y, z := data[0], data[1], data[2];
      assert data == [x, y, z] + data[3..];
      if SextetOf(text[0]).Some? && SextetOf(text[1]).Some? && SextetOf(text[2]).Some? && SextetOf(text[3]).Some? {
        var p, q, r, s := SextetOf(text[0]).value, SextetOf(text[1]).value, SextetOf(text[2]).value, SextetOf(text[3]).value;
        BitsOfThree(p, q, r, s, x, y, z);
        if Decode(text[4..]).Some? { HeadAndTail(Three(p, q, r, s), Decode(text[4..]).value, [x, y, z], data[3..]); }
      }
    } else {
      assert text[2..] != "==" && text[3..] != "=";
    }
  }

  lemma HeadAndTail(a: seq<Byte>, b: seq<Byte>, c: seq<Byte>, d: seq<Byte>)
    requires |a| == |c| == 3
    ensures a + b == c + d <==> a == c && b == d
  {
    assert (a + b)[..3] == a && (a + b)[3..] == b && (c + d)[..3] == c && (c + d)[3..] == d;
  }

  lemma {:induction false} ZeroIsCanonical(text: string, data: seq<Byte>)
    requires Carries(text, data, true)
    ensures Carries(text, data, false) <==> Canonical(text)
    decreases |data|
  {
    if |data| > 3 {
      ZeroIsCanonical(text[4..], data[3..]);
      CanonicalTail(text);
    } else if |data| > 0 {
      ZeroInLast(text, data);
    }
  }

  lemma ZeroInLast(text: string, data: seq<Byte>)
    requires Carries(text, data, true) && 1 <= |data| <= 3
    ensures Carries(text, data, false) <==> Canonical(text)
  {
    if |data| == 3 { ZeroInThree(text, data); } else if |data| == 2 { ZeroInTwo(text, data); } else { ZeroInOne(text, data); }
  }

  lemma ZeroInThree(text: string, data: seq<Byte>)
    requires Carries(text, data, true) && |data| == 3
    ensures Carries(text, data, false) && Canonical(text)
  {
    assert text[4..] == "";
    assert text[|text| - 4..] == text;
  }

  lemma ZeroInTwo(text: string, data: seq<Byte>)
    requires Carries(text, data, true) && |data| == 2
    ensures Carries(text, data, false) <==> Canonical(text)
  {
    assert |text| == 4 && text[3] == text[3..][0];
    assert text[|text| - 4..] == text;
    Spare(SextetOf(text[0]).value * 0x40 + SextetOf(text[1]).value, SextetOf(text[2]).value, Bytes16(data[0], data[1]));
  }

  /** Of the last symbol's bits the last two are spare. */
  lemma Spare(high: int, r: Sextet, value: int)
    requires value * 4 <= high * 0x40 + r < value * 4 + 4
    ensures high * 0x40 + r == value * 4 <==> r % 4 == 0
  {
  }

  lemma ZeroInOne(text: string, data: seq<Byte>)
    requires Carries(text, data, true) && |data| == 1
    ensures Carries(text, data, false) <==> Canonical(text)
  {
    assert |text| == 4 && text[2] == text[2..][0] && text[3] == text[2..][1];
    SpareFour(SextetOf(text[0]).value, SextetOf(text[1]).value, data[0]);
    OneCanonical(text);
  }

  lemma OneCanonical(text: string)
    requires |text| == 4 && text[2] == '=' && SextetOf(text[1]).Some?
    ensures Canonical(text) <==> SextetOf(text[1]).value % 16 == 0
  {
    assert text[|text| - 4..] == text;
  }

  lemma SpareFour(p: Sextet, q: Sextet, value: int)
    requires value * 0x10 <= Bits12(p, q) < value * 0x10 + 0x10
    ensures Bits12(p, q) == value * 0x10 <==> q % 16 == 0
  {
  }

  lemma {:induction false} ZeroIsSpare(text: string, data: seq<Byte>)
    requires Carries(text, data, false)
    ensures Carries(text, data, true)
    decreases |data|
  {
    if |data| >= 3 { ZeroIsSpare(text[4..], data[3..]); }
  }

  /** The encoder writes exactly the text that carries the bytes with no bit to
      spare. */
  lemma EncodesBits(text: string, data: seq<Byte>)
    ensures Encode(data) == text <==> Carries(text, data, false)
  {
    if Carries(text, data, false) { ZeroIsSpare(text, data); }
    EncodeDecode(data);
    DecodesBits(text, data);
    if Decode(text) == Some(data) {
      DecodeEncode(text);
      ZeroIsCanonical(text, data);
    }
  }
}
