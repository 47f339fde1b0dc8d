/** Ids as every call takes them: 32 bytes (a node, realm or record key) or 50
    (content), given raw or as hex text of either case. */
module Ids {
  import opened Options
  import Base64
  import Hex

  type Bytes = seq<Base64.Byte>

  datatype IdForm = Text(s: string) | Raw(b: Bytes)

  datatype IdError = NotHex | WrongLength(length: nat)

  const ID_BYTES := 32
  const MCID_BYTES := 50

  /** bytes.fromhex, on the digits the pattern has let through. */
  function FromHex(s: string): (b: Bytes)
    requires |s| % 2 == 0 && Hex.AllHex(s)
    ensures |b| == |s| / 2
  {
    if |s| == 0 then [] else [Hex.PairValue(s[0], s[1]).value] + FromHex(s[2..])
  }

  /** bytes.hex. */
  function ToHex(b: Bytes): (s: string)
    ensures |s| == 2 * |b|
  {
    if |b| == 0 then "" else Hex.Pair(b[0]) + ToHex(b[1..])
  }

  function IdOf(form: IdForm, n: nat): Result<Bytes, IdError> {
    match form
    case Text(s) => if |s| == 2 * n && Hex.AllHex(s) then Ok(FromHex(s)) else Err(NotHex)
    case Raw(b) => if |b| == n then Ok(b) else Err(WrongLength(|b|))
  }

  function Id32(form: IdForm): Result<Bytes, IdError> {
    IdOf(form, ID_BYTES)
  }

  function Mcid50(form: IdForm): Result<Bytes, IdError> {
    IdOf(form, MCID_BYTES)
  }

  /** Two digits a byte, the high one first. */
  lemma {:induction false} FromHexAt(s: string, i: nat)
    requires |s| % 2 == 0 && Hex.AllHex(s) && i < |s| / 2
    ensures FromHex(s)[i] == 16 * Hex.Value(s[2 * i]).value + Hex.Value(s[2 * i + 1]).value
  {
    if i > 0 {
      FromHexAt(s[2..], i - 1);
    }
  }

  lemma {:induction false} ToHexAt(b: Bytes, i: nat)
    requires i < |b|
    ensures ToHex(b)[2 * i] == Hex.Digit(b[i] / 16) && ToHex(b)[2 * i + 1] == Hex.Digit(b[i] % 16)
  {
    if i > 0 {
      ToHexAt(b[1..], i - 1);
    }
  }

  function LowerAll(s: string): (r: string)
    ensures |r| == |s|
  {
    seq(|s|, i requires 0 <= i < |s| => Hex.Lower(s[i]))
  }

  lemma {:induction false} ToHexReads(b: Bytes)
    ensures Hex.AllHex(ToHex(b)) && FromHex(ToHex(b)) == b
  {
    if |b| > 0 {
      ToHexReads(b[1..]);
      Hex.PairInverse(b[0]);
      assert ToHex(b)[2..] == ToHex(b[1..]);
      Hex.DigitInverse(b[0] / 16);
      Hex.DigitInverse(b[0] % 16);
    }
  }

  lemma PairPrints(high: char, low: char)
    requires Hex.Value(high).Some? && Hex.Value(low).Some?
    ensures Hex.Pair(Hex.PairValue(high, low).value) == [Hex.Lower(high), Hex.Lower(low)]
  {
    Hex.ValueInverse(high);
    Hex.ValueInverse(low);
    var h: int, l: int := Hex.Value(high).value, Hex.Value(low).value;
    assert (h * 16 + l) / 16 == h && (h * 16 + l) % 16 == l;
  }

  lemma {:induction false} FromHexPrints(s: string)
    requires |s| % 2 == 0 && Hex.AllHex(s)
    ensures ToHex(FromHex(s)) == LowerAll(s)
  {
    if |s| > 0 {
      FromHexPrints(s[2..]);
      PairPrints(s[0], s[1]);
      assert FromHex(s)[1..] == FromHex(s[2..]);
      assert LowerAll(s) == [Hex.Lower(s[0]), Hex.Lower(s[1])] + LowerAll(s[2..]);
    }
  }

  /** An accepted id's own hex is an accepted form of the same id. */
  lemma HexOfAnId(form: IdForm, n: nat)
    requires IdOf(form, n).Ok?
    ensures IdOf(Text(ToHex(IdOf(form, n).value)), n) == IdOf(form, n)
  {
    ToHexReads(IdOf(form, n).value);
  }

  lemma SameHex(b: Bytes, c: Bytes)
    ensures ToHex(b) == ToHex(c) <==> b == c
  {
    ToHexReads(b);
    ToHexReads(c);
  }

  lemma SameText(s: string, t: string)
    requires |s| == |t| && |s| % 2 == 0 && Hex.AllHex(s) && Hex.AllHex(t)
    ensures FromHex(s) == FromHex(t) <==> LowerAll(s) == LowerAll(t)
  {
    FromHexPrints(s);
    FromHexPrints(t);
    SameHex(FromHex(s), FromHex(t));
  }

  lemma TextOfRaw(s: string, b: Bytes)
    requires |s| % 2 == 0 && Hex.AllHex(s)
    ensures FromHex(s) == b <==> LowerAll(s) == ToHex(b)
  {
    FromHexPrints(s);
    SameHex(FromHex(s), b);
  }

  lemma TwoTexts(s: string, t: string, n: nat)
    requires IdOf(Text(s), n).Ok? && IdOf(Text(t), n).Ok?
    ensures IdOf(Text(s), n) == IdOf(Text(t), n) <==> LowerAll(s) == LowerAll(t)
  {
    SameText(s, t);
  }

  lemma TextAndRaw(s: string, b: Bytes, n: nat)
    requires IdOf(Text(s), n).Ok? && IdOf(Raw(b), n).Ok?
    ensures IdOf(Text(s), n) == IdOf(Raw(b), n) <==> LowerAll(s) == ToHex(b)
  {
    TextOfRaw(s, b);
  }

  /** An accepted id's own hex is an accepted form of it, and the form it came in
      makes no difference: two accepted ids have the same hex exactly when they
      are the same, and exactly the texts that agree up to the case of their
      digits, and the raw bytes they spell, name one. */
  lemma OneIdOneHex(v: IdForm, w: IdForm, n: nat)
    requires IdOf(v, n).Ok? && IdOf(w, n).Ok?
    ensures IdOf(Text(ToHex(IdOf(v, n).value)), n) == IdOf(v, n)
    ensures ToHex(IdOf(v, n).value) == ToHex(IdOf(w, n).value) <==> IdOf(v, n) == IdOf(w, n)
    ensures v.Text? && w.Text? ==> (IdOf(v, n) == IdOf(w, n) <==> LowerAll(v.s) == LowerAll(w.s))
    ensures v.Text? && w.Raw? ==> (IdOf(v, n) == IdOf(w, n) <==> LowerAll(v.s) == ToHex(w.b))
  {
    HexOfAnId(v, n);
    SameHex(IdOf(v, n).value, IdOf(w, n).value);
    if v.Text? {
      match w
      case Text(t) => TwoTexts(v.s, t, n);
      case Raw(b) => TextAndRaw(v.s, b, n);
    }
  }

  /** id32 and mcid50: what either accepts it accepts again, unchanged, as the
      hex and as the bytes it made of it, and the other refuses it. */
  lemma EachToItsOwn(form: IdForm)
    ensures Id32(form).Ok? ==>
              var id := Id32(form).value;
              |id| == 32 && Id32(Text(ToHex(id))) == Ok(id) && Id32(Raw(id)) == Ok(id) && Mcid50(form).Err? && Mcid50(Raw(id)).Err?
    ensures Mcid50(form).Ok? ==>
              var id := Mcid50(form).value;
              |id| == 50 && Mcid50(Text(ToHex(id))) == Ok(id) && Mcid50(Raw(id)) == Ok(id) && Id32(form).Err? && Id32(Raw(id)).Err?
  {
    if Id32(form).Ok? { HexOfAnId(form, ID_BYTES); }
    if Mcid50(form).Ok? { HexOfAnId(form, MCID_BYTES); }
  }

  /** Every id is nameable in both forms, and a form is refused exactly when it
      names no n bytes. */
  lemma FormsOfAnId(form: IdForm, n: nat)
    ensures IdOf(form, n).Err? ==> IdOf(form, n).error == if form.Text? then NotHex else WrongLength(|form.b|)
    ensures IdOf(form, n).Ok? <==> exists b: Bytes :: |b| == n && (form == Raw(b) || (form.Text? && LowerAll(form.s) == ToHex(b)))
  {
    match form
    case Raw(b) =>
    case Text(s) =>
      if IdOf(form, n).Ok? {
        FromHexPrints(s);
        assert |FromHex(s)| == n && LowerAll(s) == ToHex(FromHex(s));
      } else {
        forall b: Bytes | |b| == n ensures LowerAll(s) != ToHex(b) {
          ToHexReads(b);
          if LowerAll(s) == ToHex(b) { LowerHex(s); }
        }
      }
  }

  lemma LowerHex(s: string)
    requires Hex.AllHex(LowerAll(s))
    ensures Hex.AllHex(s)
  {
    forall i | 0 <= i < |s| ensures Hex.Value(s[i]).Some? {
      assert Hex.Value(LowerAll(s)[i]).Some?;
    }
  }
}
