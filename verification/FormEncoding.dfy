/**
 `application/x-www-form-urlencoded` text (section 5 of the WHATWG URL Standard), and the stricter
 escape check of `decodeURIComponent`.
 */
module FormEncoding {
  import opened Wrappers
  import opened Unicode

  const PERCENT: Byte := 37
  const AMPERSAND: Byte := 38
  const PLUS: Byte := 43
  const EQUALS: Byte := 61
  const QUESTION: Byte := 63
  const SPACE: Byte := 32

  type Text = seq<Unit>

  function HexDigit(v: nat): Byte
    requires v < 16
  {
    if v < 10 then 48 + v else 55 + v
  }

  function HexValue(u: int): (v: Option<nat>)
    ensures v.Some? ==> v.value < 16
  {
    if 48 <= u <= 57 then Some(u - 48)
    else if 65 <= u <= 70 then Some(u - 55)
    else if 97 <= u <= 102 then Some(u - 87)
    else None
  }

  /** The byte escaped at the start of a text, if it starts with an escape. */
  function EscapedByte(text: seq<int>): (b: Option<Byte>)
    ensures b.Some? ==> |text| >= 3
  {
    if |text| < 3 || text[0] != PERCENT || HexValue(text[1]).None? || HexValue(text[2]).None? then None
    else Some(HexValue(text[1]).value * 16 + HexValue(text[2]).value)
  }

  // Serializing

  /** The bytes that stand for themselves: letters, digits and `*-._`. */
  predicate Kept(b: int) {
    48 <= b <= 57 || 65 <= b <= 90 || 97 <= b <= 122 || b == 42 || b == 45 || b == 46 || b == 95
  }

  function FormByte(b: Byte): (text: seq<Byte>)
    ensures 1 <= |text| <= 3
  {
    if Kept(b) then [b] else if b == SPACE then [PLUS] else [PERCENT, HexDigit(b / 16), HexDigit(b % 16)]
  }

  function FormBytes(bytes: seq<Byte>): seq<Byte> {
    if bytes == [] then [] else FormByte(bytes[0]) + FormBytes(bytes[1..])
  }

  function FormText(text: Text): seq<Byte> {
    FormBytes(EncodeAll(ToScalars(text)))
  }

  // Parsing

  function PlusToSpace(bytes: seq<Byte>): (spaced: seq<Byte>)
    ensures |spaced| == |bytes|
  {
    if bytes == [] then [] else [if bytes[0] == PLUS then SPACE else bytes[0]] + PlusToSpace(bytes[1..])
  }

  /** A percent sign that starts no escape stands for itself. */
  function PercentDecode(bytes: seq<Byte>): seq<Byte>
    decreases |bytes|
  {
    if bytes == [] then []
    else
      var escaped := EscapedByte(bytes);
      if escaped.Some? then [escaped.value] + PercentDecode(bytes[3..])
      else [bytes[0]] + PercentDecode(bytes[1..])
  }

  function FormDecode(bytes: seq<Byte>): Text {
    FromScalars(DecodeAll(PercentDecode(PlusToSpace(bytes))))
  }

  function Split(bytes: seq<Byte>, separator: Byte): (pieces: seq<seq<Byte>>)
    ensures |pieces| > 0
  {
    if bytes == [] then [[]]
    else
      var rest := Split(bytes[1..], separator);
      if bytes[0] == separator then [[]] + rest else [[bytes[0]] + rest[0]] + rest[1..]
  }

  function IndexOf(bytes: seq<Byte>, b: Byte): (index: nat)
    ensures index <= |bytes|
    ensures index < |bytes| ==> bytes[index] == b
    ensures forall i :: 0 <= i < index ==> bytes[i] != b
  {
    if bytes == [] || bytes[0] == b then 0 else 1 + IndexOf(bytes[1..], b)
  }

  datatype Param = Param(name: Text, value: Text)

  function ParsePiece(piece: seq<Byte>): Param {
    var i := IndexOf(piece, EQUALS);
    Param(FormDecode(piece[..i]), if i < |piece| then FormDecode(piece[i + 1..]) else [])
  }

  function ParsePieces(pieces: seq<seq<Byte>>): seq<Param> {
    if pieces == [] then []
    else (if pieces[0] == [] then [] else [ParsePiece(pieces[0])]) + ParsePieces(pieces[1..])
  }

  /** `new URLSearchParams(text)`: one leading question mark is dropped. */
  function ParseQuery(text: Text): seq<Param> {
    var bytes := EncodeAll(ToScalars(text));
    ParsePieces(Split(if bytes != [] && bytes[0] == QUESTION then bytes[1..] else bytes, AMPERSAND))
  }

  // The strict escape check

  function LeadingOnes(b: Byte): nat {
    if b < 0x80 then 0 else if b < 0xC0 then 1 else if b < 0xE0 then 2 else if b < 0xF0 then 3 else if b < 0xF8 then 4 else 5
  }

  function EscapedBytes(text: seq<int>, n: nat): (bytes: Option<seq<Byte>>)
    ensures bytes.Some? ==> |bytes.value| == n && |text| >= 3 * n
  {
    if n == 0 then Some([])
    else
      var first := EscapedByte(text);
      if first.None? then None
      else
        var rest := EscapedBytes(text[3..], n - 1);
        if rest.None? then None else Some([first.value] + rest.value)
  }

  /** Bytes that are the UTF-8 encoding of exactly one scalar value. */
  predicate EncodesOne(bytes: seq<Byte>) {
    bytes != [] && Encode(DecodeFirst(bytes).scalar) == bytes
  }

  /** `decodeURIComponent(text)` does not throw. */
  predicate Decodable(text: seq<int>)
    decreases |text|
  {
    if text == [] then true
    else if text[0] != PERCENT then Decodable(text[1..])
    else
      var first := EscapedByte(text);
      if first.None? then false
      else
        var n := LeadingOnes(first.value);
        if n == 0 then Decodable(text[3..])
        else if n == 1 || n > 4 then false
        else
          var octets := EscapedBytes(text, n);
          octets.Some? && EncodesOne(octets.value) && Decodable(text[3 * n..])
  }

  // Serialized bytes parse to themselves

  /** What a serialized text is made of: none of the bytes that separate, start or end parts. */
  predicate Plain(b: int) {
    Kept(b) || b == PLUS || b == PERCENT
  }

  lemma {:induction false} FormIsPlain(bytes: seq<Byte>)
    ensures forall i :: 0 <= i < |FormBytes(bytes)| ==> Plain(FormBytes(bytes)[i])
    ensures |bytes| <= |FormBytes(bytes)| <= 3 * |bytes|
    decreases |bytes|
  {
    if bytes != [] { FormIsPlain(bytes[1..]); }
  }

  lemma HexReturns(b: Byte)
    ensures HexValue(HexDigit(b / 16)) == Some(b / 16) && HexValue(HexDigit(b % 16)) == Some(b % 16)
    ensures b / 16 * 16 + b % 16 == b
    ensures HexDigit(b / 16) != PLUS && HexDigit(b % 16) != PLUS
  {
  }

  lemma {:induction false} SpacedConcat(a: seq<Byte>, b: seq<Byte>)
    ensures PlusToSpace(a + b) == PlusToSpace(a) + PlusToSpace(b)
    decreases |a|
  {
    if a == [] {
      assert a + b == b;
    } else {
      assert (a + b)[0] == a[0] && (a + b)[1..] == a[1..] + b;
      SpacedConcat(a[1..], b);
    }
  }

  lemma SpacedThree(a: Byte, b: Byte, c: Byte)
    requires a != PLUS && b != PLUS && c != PLUS
    ensures PlusToSpace([a, b, c]) == [a, b, c]
  {
    assert [a, b, c][1..] == [b, c] && [b, c][1..] == [c] && [c][1..] == [];
    assert PlusToSpace([c]) == [c] && PlusToSpace([b, c]) == [b, c];
  }

  lemma {:induction false} BytesReturn(bytes: seq<Byte>)
    ensures PercentDecode(PlusToSpace(FormBytes(bytes))) == bytes
    decreases |bytes|
  {
    if bytes != [] {
      var b, rest := bytes[0], FormBytes(bytes[1..]);
      BytesReturn(bytes[1..]);
      SpacedConcat(FormByte(b), rest);
      var spaced := PlusToSpace(rest);
      if Kept(b) || b == SPACE {
        assert PlusToSpace(FormByte(b)) == [b];
        assert ([b] + spaced)[1..] == spaced;
      } else {
        HexReturns(b);
        var escape := FormByte(b);
        SpacedThree(escape[0], escape[1], escape[2]);
        assert (escape + spaced)[3..] == spaced;
      }
    }
  }

  /** Serializing a value and decoding it gives the value with its lone surrogates replaced. */
  lemma {:induction false} FormReturns(text: Text)
    ensures FormDecode(FormText(text)) == FromScalars(ToScalars(text))
  {
    BytesReturn(EncodeAll(ToScalars(text)));
    Utf8RoundTrip(ToScalars(text));
  }

  // Splitting

  lemma {:induction false} SplitNone(bytes: seq<Byte>, separator: Byte)
    requires separator !in bytes
    ensures Split(bytes, separator) == [bytes]
    decreases |bytes|
  {
    if bytes != [] {
      SplitNone(bytes[1..], separator);
      assert [bytes[0]] + bytes[1..] == bytes;
    }
  }

  lemma {:induction false} SplitAt(a: seq<Byte>, b: seq<Byte>, separator: Byte)
    requires separator !in a
    ensures Split(a + [separator] + b, separator) == [a] + Split(b, separator)
    decreases |a|
  {
    var all := a + [separator] + b;
    if a == [] {
      assert all == [separator] + b && all[1..] == b;
    } else {
      assert all[0] == a[0] && all[1..] == a[1..] + [separator] + b;
      SplitAt(a[1..], b, separator);
      assert [a[0]] + a[1..] == a;
    }
  }

  lemma PieceParts(name: seq<Byte>, value: seq<Byte>)
    requires EQUALS !in name
    ensures ParsePiece(name + [EQUALS] + value) == Param(FormDecode(name), FormDecode(value))
  {
    var piece := name + [EQUALS] + value;
    var i := IndexOf(piece, EQUALS);
    assert piece[|name|] == EQUALS;
    assert forall k :: 0 <= k < |name| ==> piece[k] == name[k];
    assert i == |name|;
    assert piece[..i] == name && piece[i + 1..] == value;
  }

  // Serialized text passes the strict check

  lemma EscapeReturns(b: Byte, rest: seq<int>)
    requires b >= 0x80
    ensures |FormByte(b)| == 3 && EscapedByte(FormByte(b) + rest) == Some(b)
  {
    HexReturns(b);
  }

  lemma {:induction false} EscapesReturn(bytes: seq<Byte>, rest: seq<int>)
    requires forall i :: 0 <= i < |bytes| ==> bytes[i] >= 0x80
    ensures |FormBytes(bytes)| == 3 * |bytes|
    ensures EscapedBytes(FormBytes(bytes) + rest, |bytes|) == Some(bytes)
    ensures bytes != [] ==> EscapedByte(FormBytes(bytes) + rest) == Some(bytes[0])
    decreases |bytes|
  {
    if bytes != [] {
      var more := FormBytes(bytes[1..]) + rest;
      EscapesReturn(bytes[1..], rest);
      EscapeReturns(bytes[0], more);
      assert FormBytes(bytes) + rest == FormByte(bytes[0]) + more;
      assert (FormByte(bytes[0]) + more)[3..] == more;
      assert [bytes[0]] + bytes[1..] == bytes;
    }
  }

  lemma EncodedBytes(s: Scalar)
    ensures s >= 0x80 ==> LeadingOnes(Encode(s)[0]) == |Encode(s)|
    ensures s >= 0x80 ==> forall i :: 0 <= i < |Encode(s)| ==> Encode(s)[i] >= 0x80
    ensures EncodesOne(Encode(s))
  {
    DecodesFirst(s, []);
    assert Encode(s) + [] == Encode(s);
  }

  lemma {:induction false} FormConcat(a: seq<Byte>, b: seq<Byte>)
    ensures FormBytes(a + b) == FormBytes(a) + FormBytes(b)
    decreases |a|
  {
    if a == [] {
      assert a + b == b;
    } else {
      assert (a + b)[0] == a[0] && (a + b)[1..] == a[1..] + b;
      FormConcat(a[1..], b);
    }
  }

  lemma {:induction false} ScalarDecodable(s: Scalar, rest: seq<int>)
    ensures Decodable(FormBytes(Encode(s)) + rest) == Decodable(rest)
  {
    var all := FormBytes(Encode(s)) + rest;
    EncodedBytes(s);
    if s >= 0x80 {
      EscapesReturn(Encode(s), rest);
      assert all[3 * |Encode(s)|..] == rest;
      assert all[0] == PERCENT;
    } else {
      HexReturns(s);
      assert Encode(s) == [s] && Encode(s)[1..] == [];
      assert FormBytes(Encode(s)) == FormByte(s);
      if Kept(s) || s == SPACE {
        assert all[1..] == rest;
      } else {
        assert all[3..] == rest;
      }
    }
  }

  lemma {:induction false} FormDecodable(scalars: seq<Scalar>, rest: seq<int>)
    ensures Decodable(FormBytes(EncodeAll(scalars)) + rest) == Decodable(rest)
    decreases |scalars|
  {
    if scalars == [] {
      assert FormBytes(EncodeAll(scalars)) + rest == rest;
    } else {
      FormConcat(Encode(scalars[0]), EncodeAll(scalars[1..]));
      var first, more := FormBytes(Encode(scalars[0])), FormBytes(EncodeAll(scalars[1..]));
      assert first + more + rest == first + (more + rest);
      ScalarDecodable(scalars[0], more + rest);
      FormDecodable(scalars[1..], rest);
    }
  }

  /** Text without a percent sign has nothing to check. */
  lemma {:induction false} PlainDecodable(text: seq<int>, rest: seq<int>)
    requires PERCENT !in text
    ensures Decodable(text + rest) == Decodable(rest)
    decreases |text|
  {
    if text == [] {
      assert text + rest == rest;
    } else {
      assert (text + rest)[0] == text[0] && (text + rest)[1..] == text[1..] + rest;
      PlainDecodable(text[1..], rest);
    }
  }

  // How long serialized text gets

  /** At most nine bytes for each UTF-16 unit: three for a unit, and four for two halves of a pair, all escaped. */
  lemma {:induction false} FormLength(text: Text)
    ensures |EncodeAll(ToScalars(text))| <= 3 * |text|
    decreases |text|
  {
    if text == [] {
    } else if Paired(text) {
      FormLength(text[2..]);
      assert ToScalars(text)[1..] == ToScalars(text[2..]);
    } else {
      FormLength(text[1..]);
      assert ToScalars(text)[1..] == ToScalars(text[1..]);
    }
  }

  lemma FormBound(text: Text)
    ensures |FormText(text)| <= 9 * |text|
  {
    FormLength(text);
    FormIsPlain(EncodeAll(ToScalars(text)));
  }

  /** Text of bytes that stand for themselves is its own serialization. */
  lemma {:induction false} KeptIsPlain(text: seq<Byte>)
    requires forall i :: 0 <= i < |text| ==> Kept(text[i])
    ensures FormBytes(text) == text
    decreases |text|
  {
    if text != [] { KeptIsPlain(text[1..]); }
  }
}
