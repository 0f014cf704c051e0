/** The base64 encoding of section 4 of RFC 4648, over bytes as numbers below 256. */
module Base64 {
  import opened Prelude

  type Byte = n: nat | n < 256
  type Sextet = n: nat | n < 64

  /** Table 1 of the RFC. */
  function Symbol(n: Sextet): char {
    if n < 26 then ('A' as int + n) as char
    else if n < 52 then ('a' as int + (n - 26)) as char
    else if n < 62 then ('0' as int + (n - 52)) as char
    else if n == 62 then '+' else '/'
  }

  function Value(c: char): Option<Sextet> {
    if 'A' <= c <= 'Z' then Some(c as int - 'A' as int)
    else if 'a' <= c <= 'z' then Some(c as int - 'a' as int + 26)
    else if '0' <= c <= '9' then Some(c as int - '0' as int + 52)
    else if c == '+' then Some(62)
    else if c == '/' then Some(63)
    else None
  }

  function First(a: Byte): Sextet { a / 4 }
  function Second(a: Byte, b: Byte): Sextet { a % 4 * 16 + b / 16 }
  function Third(b: Byte, c: Byte): Sextet { b % 16 * 4 + c / 64 }
  function Fourth(c: Byte): Sextet { c % 64 }

  function Encode(bytes: seq<Byte>): string {
    if bytes == [] then ""
    else if |bytes| == 1 then [Symbol(First(bytes[0])), Symbol(Second(bytes[0], 0)), '=', '=']
    else if |bytes| == 2 then [Symbol(First(bytes[0])), Symbol(Second(bytes[0], bytes[1])), Symbol(Third(bytes[1], 0)), '=']
    else EncodeGroup(bytes[0], bytes[1], bytes[2]) + Encode(bytes[3..])
  }

  function EncodeGroup(a: Byte, b: Byte, c: Byte): string {
    [Symbol(First(a)), Symbol(Second(a, b)), Symbol(Third(b, c)), Symbol(Fourth(c))]
  }

  lemma {:induction false} EncodedLength(bytes: seq<Byte>)
    ensures |Encode(bytes)| == (|bytes| + 2) / 3 * 4
  {
    if |bytes| > 2 {
      EncodedLength(bytes[3..]);
      OneGroupMore(bytes);
      ThreeMore(|bytes| - 3);
    } else {
      ShortLength(bytes);
    }
  }

  lemma ThreeMore(n: nat)
    ensures (n + 3 + 2) / 3 * 4 == (n + 2) / 3 * 4 + 4
  {
  }

  lemma {:induction false} OneGroupMore(bytes: seq<Byte>)
    requires |bytes| > 2
    ensures |Encode(bytes)| == 4 + |Encode(bytes[3..])|
  {
  }

  lemma {:induction false} ShortLength(bytes: seq<Byte>)
    requires |bytes| <= 2
    ensures |Encode(bytes)| == if bytes == [] then 0 else 4
  {
  }

  /** One group of four symbols; only the last group of a text may be padded. */
  function DecodeGroup(a: char, b: char, c: char, d: char, last: bool): Option<seq<Byte>> {
    var w, x := Value(a), Value(b);
    if w.None? || x.None? then None
    else if last && c == '=' && d == '=' then Some([w.value * 4 + x.value / 16])
    else
      var y := Value(c);
      if y.None? then None
      else if last && d == '=' then Some([w.value * 4 + x.value / 16, x.value % 16 * 16 + y.value / 4])
      else
        var z := Value(d);
        if z.None? then None
        else Some([w.value * 4 + x.value / 16, x.value % 16 * 16 + y.value / 4, y.value % 4 * 64 + z.value])
  }

  function Decode(text: string): Option<seq<Byte>> {
    if text == "" then Some([])
    else if |text| < 4 then None
    else
      match DecodeGroup(text[0], text[1], text[2], text[3], |text| == 4)
      case None => None
      case Some(group) =>
        match Decode(text[4..])
        case None => None
        case Some(rest) => Some(group + rest)
  }

  lemma SymbolRoundTrip(n: Sextet)
    ensures Value(Symbol(n)) == Some(n) && Symbol(n) != '='
  {
  }

  lemma BytesOf(a: Byte, b: Byte, c: Byte)
    ensures First(a) * 4 + Second(a, b) / 16 == a
    ensures Second(a, b) % 16 * 16 + Third(b, c) / 4 == b
    ensures Third(b, c) % 4 * 64 + Fourth(c) == c
  {
  }

  lemma GroupOfThree(a: Byte, b: Byte, c: Byte, last: bool)
    ensures var g := EncodeGroup(a, b, c); DecodeGroup(g[0], g[1], g[2], g[3], last) == Some([a, b, c])
  {
    SymbolRoundTrip(First(a));
    SymbolRoundTrip(Second(a, b));
    SymbolRoundTrip(Third(b, c));
    SymbolRoundTrip(Fourth(c));
    BytesOf(a, b, c);
  }

  lemma ShortGroups(a: Byte, b: Byte)
    ensures DecodeGroup(Symbol(First(a)), Symbol(Second(a, 0)), '=', '=', true) == Some([a])
    ensures DecodeGroup(Symbol(First(a)), Symbol(Second(a, b)), Symbol(Third(b, 0)), '=', true) == Some([a, b])
  {
    SymbolRoundTrip(First(a));
    SymbolRoundTrip(Second(a, 0));
    SymbolRoundTrip(Second(a, b));
    SymbolRoundTrip(Third(b, 0));
    BytesOf(a, 0, 0);
    BytesOf(a, b, 0);
  }

  lemma {:induction false} DecodeStep(text: string, group: seq<Byte>, rest: seq<Byte>)
    requires |text| >= 4 && DecodeGroup(text[0], text[1], text[2], text[3], |text| == 4) == Some(group)
    requires Decode(text[4..]) == Some(rest)
    ensures Decode(text) == Some(group + rest)
  {
  }

  lemma {:induction false} RoundTripShort(bytes: seq<Byte>)
    requires 1 <= |bytes| <= 2
    ensures Decode(Encode(bytes)) == Some(bytes)
  {
    var text := Encode(bytes);
    ShortGroups(bytes[0], if |bytes| == 2 then bytes[1] else 0);
    assert text[4..] == "" && bytes == if |bytes| == 1 then [bytes[0]] else [bytes[0], bytes[1]];
    DecodeStep(text, bytes, []);
    assert bytes + [] == bytes;
  }

  /** Decoding what was encoded gives the same bytes back. */
  lemma {:induction false} RoundTrip(bytes: seq<Byte>)
    ensures Decode(Encode(bytes)) == Some(bytes)
  {
    if |bytes| == 0 {
    } else if |bytes| <= 2 {
      RoundTripShort(bytes);
    } else {
      var text := Encode(bytes);
      RoundTrip(bytes[3..]);
      GroupOfThree(bytes[0], bytes[1], bytes[2], |text| == 4);
      assert text[4..] == Encode(bytes[3..]);
      DecodeStep(text, [bytes[0], bytes[1], bytes[2]], bytes[3..]);
      assert [bytes[0], bytes[1], bytes[2]] + bytes[3..] == bytes;
    }
  }

  predicate PlainChar(c: char) {
    c != '\n' && c != '"' && c != '\\'
  }

  /** The text is plain: no symbol needs escaping in JSON and none breaks a line. */
  lemma {:induction false} EncodedIsPlain(bytes: seq<Byte>)
    ensures forall c :: c in Encode(bytes) ==> PlainChar(c)
  {
    assert forall n: Sextet :: PlainChar(Symbol(n));
    if |bytes| > 2 {
      EncodedIsPlain(bytes[3..]);
    }
  }
}
