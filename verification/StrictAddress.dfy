/**
 What the strict escape check adds: in an accepted address every percent sign starts an escape, and
 every name and value decodes without loss, so no replacement character stands for malformed bytes.
 */
module StrictAddress {
  import opened Wrappers
  import opened Unicode
  import opened FormEncoding
  import opened StudioLocation

  // Query bytes that consist of whole encoded scalars and whole escaped ones

  predicate Clean(bytes: seq<Byte>)
    decreases |bytes|
  {
    if bytes == [] then true
    else if bytes[0] == PERCENT then
      var n := EscapeCount(bytes);
      n > 0 && Clean(bytes[3 * n..])
    else
      var first := DecodeFirst(bytes);
      bytes[..first.length] == Encode(first.scalar) && Clean(bytes[first.length..])
  }

  /** How many escapes at the start make up one scalar value; none if they make up no whole one. */
  function EscapeCount(text: seq<int>): (n: nat)
    ensures 3 * n <= |text|
    ensures n > 0 ==> EscapedBytes(text, n).Some? && EncodesOne(EscapedBytes(text, n).value)
  {
    var first := EscapedByte(text);
    if first.None? then 0
    else
      var ones := LeadingOnes(first.value);
      var n := if ones == 0 then 1 else ones;
      if ones == 1 || ones > 4 then 0
      else
        var octets := EscapedBytes(text, n);
        if octets.Some? && EncodesOne(octets.value) then n else 0
  }

  lemma {:induction false} OneEscape(text: seq<int>)
    requires EscapedByte(text).Some? && LeadingOnes(EscapedByte(text).value) == 0
    ensures EscapedBytes(text, 1) == Some([EscapedByte(text).value]) && EscapeCount(text) == 1
  {
    var b := EscapedByte(text).value;
    assert EscapedBytes(text[3..], 0) == Some([]);
    assert [b] + [] == [b];
  }

  /** The check accepts a text that starts with a percent sign only if whole escapes start it. */
  lemma {:induction false} DecodableEscapes(text: seq<int>)
    requires Decodable(text) && text != [] && text[0] == PERCENT
    ensures EscapeCount(text) > 0 && Decodable(text[3 * EscapeCount(text)..])
  {
    if LeadingOnes(EscapedByte(text).value) == 0 { OneEscape(text); }
  }

  /** Escapes are ASCII text without separators or plus signs, and only their own units matter. */
  lemma {:induction false} EscapeUnits(a: seq<int>, b: seq<int>, n: nat)
    requires EscapedBytes(a, n).Some? && |b| >= 3 * n && a[..3 * n] == b[..3 * n]
    ensures EscapedBytes(b, n) == EscapedBytes(a, n)
    ensures forall i :: 0 <= i < 3 * n ==> 0 <= a[i] < 0x80 && a[i] != AMPERSAND && a[i] != EQUALS && a[i] != PLUS
    decreases n
  {
    if n > 0 {
      assert forall i :: 0 <= i < 3 ==> a[i] == a[..3 * n][i] == b[..3 * n][i] == b[i];
      assert a[3..][..3 * (n - 1)] == a[..3 * n][3..] == b[..3 * n][3..] == b[3..][..3 * (n - 1)];
      EscapeUnits(a[3..], b[3..], n - 1);
      forall i | 3 <= i < 3 * n ensures 0 <= a[i] < 0x80 && a[i] != AMPERSAND && a[i] != EQUALS && a[i] != PLUS {
        assert a[i] == a[3..][i - 3];
      }
    }
  }

  lemma {:induction false} SameEscapes(a: seq<int>, b: seq<int>)
    requires EscapeCount(a) > 0 && |b| >= 3 * EscapeCount(a) && a[..3 * EscapeCount(a)] == b[..3 * EscapeCount(a)]
    ensures EscapeCount(b) == EscapeCount(a) && EscapedBytes(b, EscapeCount(a)) == EscapedBytes(a, EscapeCount(a))
  {
    var n := EscapeCount(a);
    EscapeUnits(a, b, n);
    assert forall i :: 0 <= i < 3 ==> a[i] == a[..3 * n][i] == b[..3 * n][i] == b[i];
    assert EscapedByte(b) == EscapedByte(a);
  }

  // A text that passes the check has clean bytes

  lemma {:induction false} AsciiPrefix(text: Text, k: nat)
    requires k <= |text| && forall i :: 0 <= i < k ==> text[i] < 0x80
    ensures EncodeAll(ToScalars(text)) == text[..k] + EncodeAll(ToScalars(text[k..]))
    decreases k
  {
    if k == 0 {
      assert text[0..] == text;
    } else {
      var more := text[1..];
      AsciiPrefix(more, k - 1);
      assert more[k - 1..] == text[k..];
      assert text[..k] == [text[0]] + more[..k - 1];
      assert ToScalars(text) == [text[0]] + ToScalars(more);
      assert ToScalars(text)[1..] == ToScalars(more);
      assert EncodeAll(ToScalars(text)) == [text[0]] + EncodeAll(ToScalars(more));
      assert [text[0]] + (more[..k - 1] + EncodeAll(ToScalars(text[k..])))
          == text[..k] + EncodeAll(ToScalars(text[k..]));
    }
  }

  lemma {:induction false} DecodableIsClean(text: Text)
    requires Decodable(text)
    ensures Clean(EncodeAll(ToScalars(text)))
    decreases |text|
  {
    if text == [] {
    } else if text[0] == PERCENT {
      DecodableEscapes(text);
      var n := EscapeCount(text);
      EscapeUnits(text, text, n);
      AsciiPrefix(text, 3 * n);
      DecodableIsClean(text[3 * n..]);
      var bytes := EncodeAll(ToScalars(text));
      assert bytes[..3 * n] == text[..3 * n] && bytes[3 * n..] == EncodeAll(ToScalars(text[3 * n..]));
      SameEscapes(text, bytes);
      assert bytes[0] == text[0];
    } else {
      var scalars := ToScalars(text);
      var used := if Paired(text) then 2 else 1;
      assert scalars[1..] == ToScalars(text[used..]);
      if used == 2 { assert text[1..][0] == text[1] && text[1..][1..] == text[2..]; }
      DecodableIsClean(text[used..]);
      RawClean(scalars[0], EncodeAll(scalars[1..]));
    }
  }

  lemma {:induction false} RawClean(s: Scalar, rest: seq<Byte>)
    requires s != PERCENT && Clean(rest)
    ensures Clean(Encode(s) + rest)
  {
    var bytes := Encode(s) + rest;
    DecodesFirst(s, rest);
    EncodedBytes(s);
    assert bytes[..|Encode(s)|] == Encode(s) && bytes[|Encode(s)|..] == rest;
    assert bytes[0] == Encode(s)[0];
  }

  lemma {:induction false} EscapedClean(escapes: seq<Byte>, n: nat, rest: seq<Byte>)
    requires |escapes| == 3 * n && n > 0 && escapes[0] == PERCENT && Clean(rest)
    requires EscapeCount(escapes) == n
    ensures Clean(escapes + rest)
  {
    var bytes := escapes + rest;
    assert bytes[..3 * n] == escapes == escapes[..3 * n] && bytes[3 * n..] == rest;
    SameEscapes(escapes, bytes);
  }

  // Cutting clean bytes at a separator leaves clean bytes

  lemma {:induction false} CleanCut(bytes: seq<Byte>, i: nat)
    requires Clean(bytes) && i < |bytes| && (bytes[i] == AMPERSAND || bytes[i] == EQUALS)
    ensures Clean(bytes[..i]) && Clean(bytes[i + 1..])
    decreases |bytes|
  {
    if bytes[0] == PERCENT {
      var used := 3 * EscapeCount(bytes);
      CutPastEscapes(bytes, i);
      CleanCut(bytes[used..], i - used);
      EscapedRejoins(bytes, i);
      Recut(bytes, used, i);
    } else if i < DecodeFirst(bytes).length {
      CutAtRaw(bytes, i);
    } else {
      var used := DecodeFirst(bytes).length;
      CleanCut(bytes[used..], i - used);
      RawRejoins(bytes, i);
      Recut(bytes, used, i);
    }
  }

  lemma Recut(bytes: seq<Byte>, used: nat, i: nat)
    requires used <= i < |bytes|
    ensures bytes[..i] == bytes[..used] + bytes[used..][..i - used]
    ensures bytes[i + 1..] == bytes[used..][i - used + 1..]
  {
  }

  lemma {:induction false} CutPastEscapes(bytes: seq<Byte>, i: nat)
    requires Clean(bytes) && bytes != [] && bytes[0] == PERCENT
    requires i < |bytes| && (bytes[i] == AMPERSAND || bytes[i] == EQUALS)
    ensures i >= 3 * EscapeCount(bytes) && bytes[3 * EscapeCount(bytes)..][i - 3 * EscapeCount(bytes)] == bytes[i]
  {
    EscapeUnits(bytes, bytes, EscapeCount(bytes));
  }

  lemma {:induction false} EscapedRejoins(bytes: seq<Byte>, i: nat)
    requires Clean(bytes) && bytes != [] && bytes[0] == PERCENT && 3 * EscapeCount(bytes) <= i <= |bytes|
    requires Clean(bytes[3 * EscapeCount(bytes)..][..i - 3 * EscapeCount(bytes)])
    ensures Clean(bytes[..3 * EscapeCount(bytes)] + bytes[3 * EscapeCount(bytes)..][..i - 3 * EscapeCount(bytes)])
  {
    var n := EscapeCount(bytes);
    SameEscapes(bytes, bytes[..3 * n]);
    EscapedClean(bytes[..3 * n], n, bytes[3 * n..][..i - 3 * n]);
  }

  /** A separator within the first scalar value is that scalar value. */
  lemma {:induction false} CutAtRaw(bytes: seq<Byte>, i: nat)
    requires Clean(bytes) && bytes != [] && bytes[0] != PERCENT
    requires i < DecodeFirst(bytes).length && (bytes[i] == AMPERSAND || bytes[i] == EQUALS)
    ensures Clean(bytes[..i]) && Clean(bytes[i + 1..])
  {
    var first := DecodeFirst(bytes);
    EncodedBytes(first.scalar);
    assert bytes[i] == bytes[..first.length][i] == Encode(first.scalar)[i];
    assert bytes[..0] == [];
  }

  lemma {:induction false} RawRejoins(bytes: seq<Byte>, i: nat)
    requires Clean(bytes) && bytes != [] && bytes[0] != PERCENT && DecodeFirst(bytes).length <= i <= |bytes|
    requires Clean(bytes[DecodeFirst(bytes).length..][..i - DecodeFirst(bytes).length])
    ensures Clean(bytes[..DecodeFirst(bytes).length] + bytes[DecodeFirst(bytes).length..][..i - DecodeFirst(bytes).length])
  {
    var first := DecodeFirst(bytes);
    assert bytes[0] == Encode(first.scalar)[0];
    EncodedBytes(first.scalar);
    RawClean(first.scalar, bytes[first.length..][..i - first.length]);
  }

  lemma {:induction false} CleanPieces(bytes: seq<Byte>, k: nat)
    requires Clean(bytes) && k < |Split(bytes, AMPERSAND)|
    ensures Clean(Split(bytes, AMPERSAND)[k])
    decreases |bytes|
  {
    var i := IndexOf(bytes, AMPERSAND);
    SplitFirst(bytes);
    if i < |bytes| {
      CleanCut(bytes, i);
      if k > 0 { CleanPieces(bytes[i + 1..], k - 1); }
    }
  }

  lemma {:induction false} SplitFirst(bytes: seq<Byte>)
    ensures var i := IndexOf(bytes, AMPERSAND);
      Split(bytes, AMPERSAND) == if i < |bytes| then [bytes[..i]] + Split(bytes[i + 1..], AMPERSAND) else [bytes]
  {
    var i := IndexOf(bytes, AMPERSAND);
    var front := bytes[..i];
    assert forall k :: 0 <= k < i ==> front[k] == bytes[k];
    assert AMPERSAND !in front;
    if i < |bytes| {
      CutJoins(bytes, i);
      SplitAt(front, bytes[i + 1..], AMPERSAND);
    } else {
      assert front == bytes;
      SplitNone(front, AMPERSAND);
    }
  }

  lemma CutJoins(bytes: seq<Byte>, i: nat)
    requires i < |bytes|
    ensures bytes[..i] + [bytes[i]] + bytes[i + 1..] == bytes
  {
  }

  // Clean bytes decode without loss

  /** Decoding to scalar values and encoding them again gives the decoded bytes: they were well-formed UTF-8. */
  ghost predicate Lossless(bytes: seq<Byte>) {
    var decoded := PercentDecode(PlusToSpace(bytes));
    EncodeAll(DecodeAll(decoded)) == decoded
  }

  lemma {:induction false} SpacedPlain(bytes: seq<Byte>)
    requires PLUS !in bytes
    ensures PlusToSpace(bytes) == bytes
    decreases |bytes|
  {
    if bytes != [] { SpacedPlain(bytes[1..]); }
  }

  lemma {:induction false} PercentPlain(bytes: seq<Byte>, rest: seq<Byte>)
    requires PERCENT !in bytes
    ensures PercentDecode(bytes + rest) == bytes + PercentDecode(rest)
    decreases |bytes|
  {
    if bytes == [] {
      assert bytes + rest == rest;
    } else {
      var all := bytes + rest;
      assert all[0] == bytes[0] && all[1..] == bytes[1..] + rest;
      PercentPlain(bytes[1..], rest);
      assert [bytes[0]] + bytes[1..] == bytes;
    }
  }

  lemma {:induction false} PercentEscapes(bytes: seq<Byte>, n: nat)
    requires EscapedBytes(bytes, n).Some?
    ensures PercentDecode(bytes) == EscapedBytes(bytes, n).value + PercentDecode(bytes[3 * n..])
    decreases n
  {
    if n == 0 {
      assert bytes[0..] == bytes;
    } else {
      PercentEscapes(bytes[3..], n - 1);
      assert bytes[3..][3 * (n - 1)..] == bytes[3 * n..];
    }
  }

  lemma {:induction false} CleanScalars(bytes: seq<Byte>) returns (scalars: seq<Scalar>)
    requires Clean(bytes)
    ensures PercentDecode(PlusToSpace(bytes)) == EncodeAll(scalars)
    decreases |bytes|
  {
    if bytes == [] {
      scalars := [];
    } else if bytes[0] == PERCENT {
      var more := CleanScalars(bytes[3 * EscapeCount(bytes)..]);
      var s := EscapesDecode(bytes);
      scalars := [s] + more;
    } else {
      var more := CleanScalars(bytes[DecodeFirst(bytes).length..]);
      var s := RawDecodes(bytes);
      scalars := [s] + more;
    }
  }

  lemma EscapesDecode(bytes: seq<Byte>) returns (s: Scalar)
    requires Clean(bytes) && bytes != [] && bytes[0] == PERCENT
    ensures PercentDecode(PlusToSpace(bytes)) == Encode(s) + PercentDecode(PlusToSpace(bytes[3 * EscapeCount(bytes)..]))
  {
    var n := EscapeCount(bytes);
    var escapes, rest := bytes[..3 * n], bytes[3 * n..];
    EscapeUnits(bytes, bytes, n);
    SpacedPlain(escapes);
    assert bytes == escapes + rest;
    SpacedConcat(escapes, rest);
    var spaced := escapes + PlusToSpace(rest);
    assert spaced[..3 * n] == bytes[..3 * n] && spaced[3 * n..] == PlusToSpace(rest);
    SameEscapes(bytes, spaced);
    PercentEscapes(spaced, n);
    s := DecodeFirst(EscapedBytes(bytes, n).value).scalar;
  }

  lemma RawDecodes(bytes: seq<Byte>) returns (s: Scalar)
    requires Clean(bytes) && bytes != [] && bytes[0] != PERCENT
    ensures PercentDecode(PlusToSpace(bytes)) == Encode(s) + PercentDecode(PlusToSpace(bytes[DecodeFirst(bytes).length..]))
  {
    var first := DecodeFirst(bytes);
    var raw, rest := Encode(first.scalar), bytes[first.length..];
    assert bytes == raw + rest && raw[0] == bytes[0];
    SpacedConcat(raw, rest);
    EncodedBytes(first.scalar);
    if first.scalar == PLUS {
      assert PlusToSpace([PLUS]) == [SPACE];
      PercentPlain([SPACE], PlusToSpace(rest));
      s := SPACE;
    } else {
      SpacedPlain(raw);
      PercentPlain(raw, PlusToSpace(rest));
      s := first.scalar;
    }
  }

  lemma {:induction false} CleanIsLossless(bytes: seq<Byte>)
    requires Clean(bytes)
    ensures Lossless(bytes)
  {
    var scalars := CleanScalars(bytes);
    Utf8RoundTrip(scalars);
  }

  lemma {:induction false} EscapesEverywhere(bytes: seq<Byte>, i: nat)
    requires Clean(bytes) && i < |bytes| && bytes[i] == PERCENT
    ensures EscapedByte(bytes[i..]).Some?
    decreases |bytes|
  {
    if bytes[0] == PERCENT {
      var n := EscapeCount(bytes);
      if i < 3 * n {
        EscapeStarts(bytes, n, i);
      } else {
        EscapesEverywhere(bytes[3 * n..], i - 3 * n);
        assert bytes[3 * n..][i - 3 * n..] == bytes[i..];
      }
    } else {
      var first := DecodeFirst(bytes);
      EncodedBytes(first.scalar);
      assert forall j :: 0 <= j < first.length ==> bytes[j] == bytes[..first.length][j] == Encode(first.scalar)[j];
      assert i >= first.length;
      EscapesEverywhere(bytes[first.length..], i - first.length);
      assert bytes[first.length..][i - first.length..] == bytes[i..];
    }
  }

  lemma {:induction false} EscapeStarts(bytes: seq<Byte>, n: nat, i: nat)
    requires EscapedBytes(bytes, n).Some? && i < 3 * n && bytes[i] == PERCENT
    ensures EscapedByte(bytes[i..]).Some?
    decreases n
  {
    if i == 0 {
      assert bytes[0..] == bytes;
    } else if i >= 3 {
      EscapeStarts(bytes[3..], n - 1, i - 3);
      assert bytes[3..][i - 3..] == bytes[i..];
    }
  }

  /** The two sides of one piece of a query. */
  ghost predicate ExactPiece(piece: seq<Byte>) {
    var i := IndexOf(piece, EQUALS);
    && Lossless(piece[..i]) && (i < |piece| ==> Lossless(piece[i + 1..]))
    && forall k :: 0 <= k < |piece| && piece[k] == PERCENT ==> EscapedByte(piece[k..]).Some?
  }

  function QueryBytes(query: Text): seq<Byte> {
    var bytes := EncodeAll(ToScalars(query));
    if bytes != [] && bytes[0] == QUESTION then bytes[1..] else bytes
  }

  lemma {:induction false} PieceIsExact(piece: seq<Byte>)
    requires Clean(piece)
    ensures ExactPiece(piece)
  {
    var i := IndexOf(piece, EQUALS);
    if i < |piece| {
      CleanCut(piece, i);
      CleanIsLossless(piece[i + 1..]);
    } else {
      assert piece[..i] == piece;
    }
    CleanIsLossless(piece[..i]);
    forall k | 0 <= k < |piece| && piece[k] == PERCENT ensures EscapedByte(piece[k..]).Some? {
      EscapesEverywhere(piece, k);
    }
  }

  /** Every address that is not refused: all pieces of its query are exact. */
  lemma AcceptedIsExact(hash: Text)
    requires !Parse(hash).invalid && hash != [] && hash != [HASH]
    ensures MatchAddress(hash).Some?
    ensures MatchAddress(hash).value.query.Some? ==>
      forall k :: 0 <= k < |Split(QueryBytes(MatchAddress(hash).value.query.value), AMPERSAND)| ==>
        ExactPiece(Split(QueryBytes(MatchAddress(hash).value.query.value), AMPERSAND)[k])
  {
    if MatchAddress(hash).value.query.Some? {
      var query := MatchAddress(hash).value.query.value;
      DecodableIsClean(query);
      var whole, bytes := EncodeAll(ToScalars(query)), QueryBytes(query);
      if bytes != whole {
        assert DecodeFirst(whole) == Decoded(QUESTION, 1);
        assert Clean(bytes);
      }
      forall k | 0 <= k < |Split(bytes, AMPERSAND)| ensures ExactPiece(Split(bytes, AMPERSAND)[k]) {
        CleanPieces(bytes, k);
        PieceIsExact(Split(bytes, AMPERSAND)[k]);
      }
    }
  }
}
