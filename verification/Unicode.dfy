/** UTF-16 text as JavaScript holds it, Unicode scalar values, and UTF-8 (section 3 of RFC 3629). */
module Unicode {
  type Unit = u: int | 0 <= u < 0x1_0000
  type Byte = b: int | 0 <= b < 0x100
  type Scalar = s: int | 0 <= s < 0x11_0000 && !(0xD800 <= s < 0xE000)

  const REPLACEMENT: Scalar := 0xFFFD

  // UTF-16

  predicate High(u: Unit) { 0xD800 <= u < 0xDC00 }
  predicate Low(u: Unit) { 0xDC00 <= u < 0xE000 }

  predicate Paired(text: seq<Unit>) {
    |text| >= 2 && High(text[0]) && Low(text[1])
  }

  function JoinPair(high: int, low: int): (s: Scalar)
    requires 0xD800 <= high < 0xDC00 && 0xDC00 <= low < 0xE000
    ensures s >= 0x1_0000
  {
    0x1_0000 + (high - 0xD800) * 0x400 + (low - 0xDC00)
  }

  /** The conversion of a text to scalar values; a lone surrogate becomes the replacement character. */
  function ToScalars(text: seq<Unit>): (scalars: seq<Scalar>)
    ensures |scalars| <= |text|
  {
    if text == [] then []
    else if Paired(text) then [JoinPair(text[0], text[1])] + ToScalars(text[2..])
    else [if High(text[0]) || Low(text[0]) then REPLACEMENT else text[0]] + ToScalars(text[1..])
  }

  function UnitsOf(s: Scalar): seq<Unit> {
    if s < 0x1_0000 then [s] else [0xD800 + (s - 0x1_0000) / 0x400, 0xDC00 + (s - 0x1_0000) % 0x400]
  }

  function FromScalars(scalars: seq<Scalar>): seq<Unit> {
    if scalars == [] then [] else UnitsOf(scalars[0]) + FromScalars(scalars[1..])
  }

  /** Every surrogate is half of a pair. */
  predicate WellFormed(text: seq<Unit>) {
    text == []
    || (Paired(text) && WellFormed(text[2..]))
    || (!High(text[0]) && !Low(text[0]) && WellFormed(text[1..]))
  }

  lemma {:induction false} ScalarsAreWellFormed(scalars: seq<Scalar>)
    ensures WellFormed(FromScalars(scalars))
    decreases |scalars|
  {
    if scalars != [] {
      ScalarsAreWellFormed(scalars[1..]);
      var text := FromScalars(scalars);
      assert text[|UnitsOf(scalars[0])|..] == FromScalars(scalars[1..]);
      if scalars[0] >= 0x1_0000 { assert Paired(text); }
    }
  }

  /** The conversion to scalar values and back gives a text again exactly when it was well-formed. */
  lemma {:induction false} Utf16RoundTrip(text: seq<Unit>)
    ensures FromScalars(ToScalars(text)) == text <==> WellFormed(text)
    decreases |text|
  {
    if WellFormed(text) {
      Utf16Returns(text);
    } else {
      ScalarsAreWellFormed(ToScalars(text));
    }
  }

  lemma {:induction false} Utf16Returns(text: seq<Unit>)
    requires WellFormed(text)
    ensures FromScalars(ToScalars(text)) == text
    decreases |text|
  {
    if text == [] {
    } else if Paired(text) {
      var s := JoinPair(text[0], text[1]);
      assert ToScalars(text) == [s] + ToScalars(text[2..]);
      Utf16Returns(text[2..]);
      PairSplits(text[0] - 0xD800, text[1] - 0xDC00);
      assert UnitsOf(s) == text[..2];
      assert text == text[..2] + text[2..];
    } else {
      assert ToScalars(text) == [text[0]] + ToScalars(text[1..]);
      Utf16Returns(text[1..]);
    }
  }

  lemma PairSplits(high: int, low: int)
    requires 0 <= high < 0x400 && 0 <= low < 0x400
    ensures (high * 0x400 + low) / 0x400 == high && (high * 0x400 + low) % 0x400 == low
  {
  }

  // UTF-8

  predicate Continuation(b: Byte) { 0x80 <= b < 0xC0 }

  function Encode(s: Scalar): (bytes: seq<Byte>)
    ensures 1 <= |bytes| <= 4
  {
    if s < 0x80 then [s]
    else if s < 0x800 then [0xC0 + s / 0x40, 0x80 + s % 0x40]
    else if s < 0x1_0000 then [0xE0 + s / 0x1000, 0x80 + s / 0x40 % 0x40, 0x80 + s % 0x40]
    else [0xF0 + s / 0x4_0000, 0x80 + s / 0x1000 % 0x40, 0x80 + s / 0x40 % 0x40, 0x80 + s % 0x40]
  }

  function EncodeAll(scalars: seq<Scalar>): seq<Byte> {
    if scalars == [] then [] else Encode(scalars[0]) + EncodeAll(scalars[1..])
  }

  /** Six more bits, from a continuation byte. */
  function More(bits: int, b: int): int {
    bits * 0x40 + (b - 0x80)
  }

  datatype Decoded = Decoded(scalar: Scalar, length: nat)

  /** The first scalar value of some bytes; a malformed start yields a replacement for its longest valid part. */
  function DecodeFirst(bytes: seq<Byte>): (first: Decoded)
    requires bytes != []
    ensures 1 <= first.length <= |bytes|
  {
    var b, n := bytes[0], |bytes|;
    if b < 0x80 then Decoded(b, 1)
    else if 0xC2 <= b < 0xE0 then
      if n >= 2 && Continuation(bytes[1]) then Decoded(More(b - 0xC0, bytes[1]), 2)
      else Decoded(REPLACEMENT, 1)
    else if 0xE0 <= b < 0xF0 then
      if n < 2 || !Continuation(bytes[1]) || (b == 0xE0 && bytes[1] < 0xA0) || (b == 0xED && bytes[1] > 0x9F)
      then Decoded(REPLACEMENT, 1)
      else if n < 3 || !Continuation(bytes[2]) then Decoded(REPLACEMENT, 2)
      else Decoded(More(More(b - 0xE0, bytes[1]), bytes[2]), 3)
    else if 0xF0 <= b < 0xF5 then
      if n < 2 || !Continuation(bytes[1]) || (b == 0xF0 && bytes[1] < 0x90) || (b == 0xF4 && bytes[1] > 0x8F)
      then Decoded(REPLACEMENT, 1)
      else if n < 3 || !Continuation(bytes[2]) then Decoded(REPLACEMENT, 2)
      else if n < 4 || !Continuation(bytes[3]) then Decoded(REPLACEMENT, 3)
      else Decoded(More(More(More(b - 0xF0, bytes[1]), bytes[2]), bytes[3]), 4)
    else Decoded(REPLACEMENT, 1)
  }

  function DecodeAll(bytes: seq<Byte>): seq<Scalar>
    decreases |bytes|
  {
    if bytes == [] then []
    else
      var first := DecodeFirst(bytes);
      [first.scalar] + DecodeAll(bytes[first.length..])
  }

  lemma Digits(s: nat)
    ensures s == s / 0x40 * 0x40 + s % 0x40
    ensures s / 0x40 == s / 0x1000 * 0x40 + s / 0x40 % 0x40
    ensures s / 0x1000 == s / 0x4_0000 * 0x40 + s / 0x1000 % 0x40
  {
  }

  lemma DecodesFirst(s: Scalar, rest: seq<Byte>)
    ensures DecodeFirst(Encode(s) + rest) == Decoded(s, |Encode(s)|)
  {
    Digits(s);
  }

  lemma {:induction false} Utf8RoundTrip(scalars: seq<Scalar>)
    ensures DecodeAll(EncodeAll(scalars)) == scalars
    decreases |scalars|
  {
    if scalars != [] {
      var rest := EncodeAll(scalars[1..]);
      DecodesFirst(scalars[0], rest);
      assert (Encode(scalars[0]) + rest)[|Encode(scalars[0])|..] == rest;
      Utf8RoundTrip(scalars[1..]);
    }
  }

  // What malformed bytes decode to

  /** The second byte that an encoding with this first byte may have. */
  ghost predicate Second(first: int, b: int) {
    && 0x80 <= b < 0xC0
    && (first == 0xE0 ==> b >= 0xA0) && (first == 0xED ==> b < 0xA0)
    && (first == 0xF0 ==> b >= 0x90) && (first == 0xF4 ==> b < 0x90)
  }

  /** The bytes of an encoding, by its length. */
  lemma EncodingShape(s: Scalar)
    ensures var bytes := Encode(s);
      && (|bytes| == 1 ==> bytes[0] < 0x80)
      && (|bytes| == 2 ==> 0xC2 <= bytes[0] < 0xE0)
      && (|bytes| == 3 ==> 0xE0 <= bytes[0] < 0xF0)
      && (|bytes| == 4 ==> 0xF0 <= bytes[0] < 0xF5)
      && (|bytes| >= 2 ==> Second(bytes[0], bytes[1]))
      && forall i :: 2 <= i < |bytes| ==> 0x80 <= bytes[i] < 0xC0
  {
    Digits(s);
  }

  /** A start of some encoding, and perhaps all of it. */
  ghost predicate Begins(bytes: seq<Byte>) {
    exists s :: bytes <= Encode(s)
  }

  lemma StartBegins(first: Byte)
    requires 0xC2 <= first < 0xF5
    ensures Begins([first])
  {
    var s: Scalar := if first < 0xE0 then (first - 0xC0) * 0x40
                     else if first == 0xE0 then 0x800
                     else if first < 0xF0 then (first - 0xE0) * 0x1000
                     else if first == 0xF0 then 0x1_0000
                     else (first - 0xF0) * 0x4_0000;
    assert Encode(s)[0] == first;
    assert [first] <= Encode(s);
  }

  /** A number with its last digits to the base of 64. */
  lemma Positions(a: nat, b: nat, c: nat)
    requires b < 0x40 && c < 0x40
    ensures var s := ((a * 0x40 + b) * 0x40 + c) * 0x40;
      && s / 0x40 == (a * 0x40 + b) * 0x40 + c && s / 0x1000 == a * 0x40 + b && s / 0x4_0000 == a
      && s / 0x40 % 0x40 == c && s / 0x1000 % 0x40 == b
  {
  }

  lemma PairBegins(first: Byte, second: Byte)
    requires 0xE0 <= first < 0xF5 && Second(first, second)
    ensures Begins([first, second])
  {
    if first < 0xF0 { ThreeBegin(first, second); } else { FourBegin(first, second); }
  }

  lemma ThreeBegin(first: Byte, second: Byte)
    requires 0xE0 <= first < 0xF0 && Second(first, second)
    ensures Begins([first, second])
  {
    var a, b := first - 0xE0, second - 0x80;
    Positions(0, a, b);
    var s: Scalar := (a * 0x40 + b) * 0x40;
    assert Encode(s)[0] == first && Encode(s)[1] == second;
    assert [first, second] <= Encode(s);
  }

  lemma FourBegin(first: Byte, second: Byte)
    requires 0xF0 <= first < 0xF5 && Second(first, second)
    ensures Begins([first, second])
  {
    var a, b := first - 0xF0, second - 0x80;
    Positions(a, b, 0);
    var s: Scalar := ((a * 0x40 + b) * 0x40 + 0) * 0x40;
    assert Encode(s)[0] == first && Encode(s)[1] == second;
    assert [first, second] <= Encode(s);
  }

  lemma TripleBegins(first: Byte, second: Byte, third: Byte)
    requires 0xF0 <= first < 0xF5 && Second(first, second) && 0x80 <= third < 0xC0
    ensures Begins([first, second, third])
  {
    var a, b, c := first - 0xF0, second - 0x80, third - 0x80;
    Positions(a, b, c);
    var s: Scalar := ((a * 0x40 + b) * 0x40 + c) * 0x40;
    assert Encode(s)[0] == first && Encode(s)[1] == second && Encode(s)[2] == third;
    assert [first, second, third] <= Encode(s);
  }

  /** What a longer start of an encoding would have to be like. */
  lemma LongerBegins(bytes: seq<Byte>, k: nat)
    requires 2 <= k <= |bytes| && Begins(bytes[..k])
    ensures 0xC2 <= bytes[0] < 0xF5 && Second(bytes[0], bytes[1])
    ensures k >= 3 ==> 0xE0 <= bytes[0] && 0x80 <= bytes[2] < 0xC0
    ensures k >= 4 ==> 0xF0 <= bytes[0] && 0x80 <= bytes[3] < 0xC0
    ensures k <= 4
  {
    var s :| bytes[..k] <= Encode(s);
    EncodingShape(s);
    assert forall i :: 0 <= i < k ==> bytes[i] == bytes[..k][i] == Encode(s)[i];
  }

  /** Nothing longer than the first part of a malformed start begins an encoding. */
  lemma NothingLonger(bytes: seq<Byte>, k: nat)
    requires bytes != [] && DecodeFirst(bytes).scalar == REPLACEMENT && DecodeFirst(bytes).length < k <= |bytes|
    requires forall s :: !(Encode(s) <= bytes)
    ensures !Begins(bytes[..k])
  {
    if Begins(bytes[..k]) { LongerBegins(bytes, k); }
  }

  /** Three bytes that encode the replacement character itself are no malformed start. */
  lemma NoReplacement(bytes: seq<Byte>)
    requires |bytes| >= 3 && 0xE0 <= bytes[0] < 0xF0 && DecodeFirst(bytes) == Decoded(REPLACEMENT, 3)
    ensures Encode(REPLACEMENT) <= bytes
  {
    assert Encode(REPLACEMENT) == [0xEF, 0xBF, 0xBD];
    assert bytes[0] == 0xEF && bytes[1] == 0xBF && bytes[2] == 0xBD;
  }

  lemma PartBegins(bytes: seq<Byte>)
    requires bytes != [] && DecodeFirst(bytes).scalar == REPLACEMENT && DecodeFirst(bytes).length >= 2
    requires forall s :: !(Encode(s) <= bytes)
    ensures Begins(bytes[..DecodeFirst(bytes).length])
  {
    var n := DecodeFirst(bytes).length;
    if n == 2 {
      assert bytes[..2] == [bytes[0], bytes[1]];
      PairBegins(bytes[0], bytes[1]);
    } else if n == 3 {
      assert bytes[..3] == [bytes[0], bytes[1], bytes[2]];
      if bytes[0] < 0xF0 { NoReplacement(bytes); }
      TripleBegins(bytes[0], bytes[1], bytes[2]);
    }
  }

  /** Anything else than a replacement stands for its own encoding. */
  lemma WholeEncoding(bytes: seq<Byte>)
    requires bytes != [] && DecodeFirst(bytes).scalar != REPLACEMENT
    ensures Encode(DecodeFirst(bytes).scalar) <= bytes
  {
    var first := DecodeFirst(bytes);
    if first.length == 2 {
      assert Encode(first.scalar) == bytes[..2];
    } else if first.length == 3 {
      TripleEncodes(bytes, first.scalar);
    } else if first.length == 4 {
      QuadEncodes(bytes, first.scalar);
    }
  }

  lemma TripleEncodes(bytes: seq<Byte>, s: Scalar)
    requires |bytes| >= 3 && DecodeFirst(bytes) == Decoded(s, 3) && s != REPLACEMENT
    ensures Encode(s) <= bytes
  {
    var b: int, c: int, d: int := bytes[0] - 0xE0, bytes[1] - 0x80, bytes[2] - 0x80;
    assert s == (b * 0x40 + c) * 0x40 + d;
    Positions(b, c, d);
    assert s / 0x40 == b * 0x40 + c && s % 0x40 == d;
    assert s / 0x1000 == b && s / 0x40 % 0x40 == c;
    assert Encode(s) == bytes[..3];
  }

  lemma QuadEncodes(bytes: seq<Byte>, s: Scalar)
    requires |bytes| >= 4 && DecodeFirst(bytes) == Decoded(s, 4)
    ensures Encode(s) <= bytes
  {
    var b: int, c: int, d: int, e: int := bytes[0] - 0xF0, bytes[1] - 0x80, bytes[2] - 0x80, bytes[3] - 0x80;
    assert s == ((b * 0x40 + c) * 0x40 + d) * 0x40 + e;
    var high := ((b * 0x40 + c) * 0x40 + d) * 0x40;
    Positions(b, c, d);
    assert s / 0x40 == high / 0x40 && s % 0x40 == e;
    assert s / 0x1000 == high / 0x1000 && s / 0x4_0000 == high / 0x4_0000;
    assert Encode(s) == bytes[..4];
  }

  /**
   Bytes decode first to the scalar value whose encoding they start with; if there is none, to one
   replacement character for their longest part that starts an encoding, or else for one byte.
   */
  lemma DecodesExactly(bytes: seq<Byte>)
    requires bytes != []
    ensures forall s :: Encode(s) <= bytes ==> DecodeFirst(bytes) == Decoded(s, |Encode(s)|)
    ensures (forall s :: !(Encode(s) <= bytes)) ==>
      var first := DecodeFirst(bytes);
      && first.scalar == REPLACEMENT
      && (first.length == 1 || Begins(bytes[..first.length]))
      && forall k :: first.length < k <= |bytes| ==> !Begins(bytes[..k])
  {
    forall s | Encode(s) <= bytes ensures DecodeFirst(bytes) == Decoded(s, |Encode(s)|) {
      DecodesFirst(s, bytes[|Encode(s)|..]);
      assert bytes == Encode(s) + bytes[|Encode(s)|..];
    }
    if forall s :: !(Encode(s) <= bytes) {
      var first := DecodeFirst(bytes);
      if first.scalar != REPLACEMENT { WholeEncoding(bytes); }
      if first.length >= 2 { PartBegins(bytes); }
      forall k | first.length < k <= |bytes| ensures !Begins(bytes[..k]) { NothingLonger(bytes, k); }
    }
  }

  // ASCII text is the same in all three forms

  ghost predicate Ascii(text: seq<int>) {
    forall i :: 0 <= i < |text| ==> 0 <= text[i] < 0x80
  }

  lemma {:induction false} AsciiIsPlain(text: seq<Byte>)
    requires Ascii(text)
    ensures ToScalars(text) == text && EncodeAll(text) == text
    decreases |text|
  {
    if text != [] { AsciiIsPlain(text[1..]); }
  }
}
