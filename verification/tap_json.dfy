/** `JSON.stringify` and `JSON.parse` restricted to what the contraction
    screen stores: an array of integer millisecond timestamps. The encoder
    writes the canonical form (`[1,2,3]`, no white space); the decoder
    accepts exactly the canonical arrays of integers and rejects the rest. */
module TapJson {
  import opened Optional
  import opened JsText

  /** The numerals joined by commas, as `JSON.stringify` writes the array body. */
  function JoinInts(xs: seq<int>): string
  {
    if xs == [] then ""
    else if |xs| == 1 then IntToString(xs[0])
    else IntToString(xs[0]) + "," + JoinInts(xs[1..])
  }

  function Encode(xs: seq<int>): string
  {
    "[" + JoinInts(xs) + "]"
  }

  /** A JSON numeral without sign: "0" or digits without a leading zero. */
  function ParseJsonNat(digits: string): Option<int>
  {
    if digits == [] || !AllDigits(digits) || (|digits| > 1 && digits[0] == '0') then None
    else Some(DigitsValue(digits))
  }

  /** A JSON integer: an optional '-', then an unsigned numeral. */
  function ParseJsonInt(tok: string): Option<int>
  {
    if tok != [] && tok[0] == '-' then Negate(ParseJsonNat(tok[1..]))
    else ParseJsonNat(tok)
  }

  /** The comma-separated, non-empty body of an array. */
  function DecodeItems(body: string): Option<seq<int>>
    decreases |body|
  {
    match IndexOf(body, ',')
    case None =>
      (match ParseJsonInt(body)
       case None => None
       case Some(x) => Some([x]))
    case Some(i) =>
      match ParseJsonInt(body[..i])
      case None => None
      case Some(x) =>
        match DecodeItems(body[i + 1..])
        case None => None
        case Some(rest) => Some([x] + rest)
  }

  /** `JSON.parse` of a stored tap list; `None` is the exception the source
      catches. */
  function Decode(s: string): Option<seq<int>>
  {
    if |s| < 2 || s[0] != '[' || s[|s| - 1] != ']' then None
    else if |s| == 2 then Some([])
    else DecodeItems(s[1..|s| - 1])
  }

  /** A canonical numeral reads back as itself. */
  lemma ParseJsonNatOfNatToString(n: nat)
    ensures ParseJsonNat(NatToString(n)) == Some(n)
  {
    DigitsValueOfNatToString(n);
  }

  lemma ParseJsonIntOfIntToString(x: int)
    ensures ParseJsonInt(IntToString(x)) == Some(x)
  {
    if x < 0 {
      var t := NatToString(-x);
      ParseJsonNatOfNatToString(-x);
      assert ("-" + t)[1..] == t;
    } else {
      var t := NatToString(x);
      ParseJsonNatOfNatToString(x);
      assert IsDigit(t[0]);
    }
  }

  lemma IntToStringHasNoComma(x: int)
    ensures forall i :: 0 <= i < |IntToString(x)| ==> IntToString(x)[i] != ','
  {
    var n: nat := if x < 0 then -x else x;
    assert AllDigits(NatToString(n));
  }

  /** One step of `DecodeItems`: a leading comma-free numeral followed by
      a comma and the rest of the body. */
  lemma DecodeItemsCons(head: string, x: int, rest: string, tail: seq<int>)
    requires forall i :: 0 <= i < |head| ==> head[i] != ','
    requires ParseJsonInt(head) == Some(x)
    requires DecodeItems(rest) == Some(tail)
    ensures DecodeItems(head + "," + rest) == Some([x] + tail)
  {
    var body := head + "," + rest;
    IndexOfAfterPrefix(head, rest, ',');
    assert body[..|head|] == head;
    assert body[|head| + 1..] == rest;
  }

  /** A comma-free numeral is a one-element body. */
  lemma DecodeItemsSingle(head: string, x: int)
    requires forall i :: 0 <= i < |head| ==> head[i] != ','
    requires ParseJsonInt(head) == Some(x)
    ensures DecodeItems(head) == Some([x])
  {
    assert IndexOf(head, ',').None?;
  }

  lemma {:induction false} DecodeJoinInts(xs: seq<int>)
    requires xs != []
    ensures DecodeItems(JoinInts(xs)) == Some(xs)
    decreases |xs|
  {
    var head := IntToString(xs[0]);
    ParseJsonIntOfIntToString(xs[0]);
    IntToStringHasNoComma(xs[0]);
    if |xs| == 1 {
      DecodeItemsSingle(head, xs[0]);
      assert [xs[0]] == xs;
    } else {
      DecodeJoinInts(xs[1..]);
      DecodeItemsCons(head, xs[0], JoinInts(xs[1..]), xs[1..]);
      assert [xs[0]] + xs[1..] == xs;
    }
  }

  lemma JoinIntsNonEmpty(xs: seq<int>)
    requires xs != []
    ensures |JoinInts(xs)| >= 1
  {
  }

  /** Parsing what was stringified gives back the same tap list. */
  lemma {:induction false} DecodeEncode(xs: seq<int>)
    ensures Decode(Encode(xs)) == Some(xs)
  {
    var s := Encode(xs);
    if xs == [] {
      assert s == "[]";
    } else {
      JoinIntsNonEmpty(xs);
      assert s[1..|s| - 1] == JoinInts(xs);
      DecodeJoinInts(xs);
    }
  }
}
