/**
 Which addresses the Studio accepts, and as what: not only those it writes itself, but every spelling
 of a location, with its parameters in either order and its characters raw or escaped.
 */
module StudioAddressLaws {
  import opened Wrappers
  import opened Unicode
  import opened FormEncoding
  import opened StudioLocation
  import opened StrictAddress

  // The parts of an address

  /** A destination's characters: lower-case letters and hyphens. */
  ghost predicate IsName(name: Text) {
    name != [] && forall i :: 0 <= i < |name| ==> 'a' as int <= name[i] <= 'z' as int || name[i] == '-' as int
  }

  /** The address made of a destination and, perhaps, a query without a number sign. */
  ghost predicate MadeOf(hash: Text, name: Text, query: Option<Text>) {
    && IsName(name)
    && (query.None? ==> hash == [HASH, SLASH] + name)
    && (query.Some? ==> HASH !in query.value && hash == [HASH, SLASH] + name + ([QUESTION] + query.value))
  }

  /** The match finds the parts of an address exactly when it has them. */
  lemma MatchExactly(hash: Text, name: Text, query: Option<Text>)
    ensures MatchAddress(hash) == Some(Match(name, query)) <==> MadeOf(hash, name, query)
  {
    if MadeOf(hash, name, query) {
      if query.None? { NameOnlyMatches(name); } else { QueryMatches(name, query.value); }
    }
    if MatchAddress(hash) == Some(Match(name, query)) { MatchJoins(hash); }
  }

  lemma MatchJoins(hash: Text)
    requires MatchAddress(hash).Some?
    ensures var found := MatchAddress(hash).value; MadeOf(hash, found.name, found.query)
  {
    var text := hash[2..];
    var n := NameLength(text);
    assert hash == [hash[0], hash[1]] + text;
    if n < |text| {
      assert text == text[..n] + ([text[n]] + text[n + 1..]);
      assert hash == [HASH, SLASH] + text[..n] + ([QUESTION] + text[n + 1..]);
    }
  }

  // The parameters

  ghost predicate IsLetterOrDigit(u: int) {
    || 'a' as int <= u <= 'z' as int || 'A' as int <= u <= 'Z' as int || '0' as int <= u <= '9' as int
  }

  /** A content type: up to 128 letters, digits, dots, underscores, colons and hyphens, the first a letter or digit. */
  ghost predicate IsType(text: Text) {
    && 1 <= |text| <= 128 && IsLetterOrDigit(text[0])
    && forall i :: 0 <= i < |text| ==>
         IsLetterOrDigit(text[i]) || text[i] in {'.' as int, '_' as int, ':' as int, '-' as int}
  }

  /** An entry: up to 256 units, none of them a control character of either range, or a delete. */
  ghost predicate IsEntry(text: Text) {
    1 <= |text| <= 256 && forall i :: 0 <= i < |text| ==> 0x20 <= text[i] <= 0x7E || 0xA0 <= text[i]
  }

  /** The parameters that say a location: none, a type, or an entry and a type in either order. */
  ghost predicate Says(params: seq<Param>, entryId: Option<Text>, contentType: Option<Text>) {
    if contentType.None? then entryId.None? && params == []
    else
      && IsType(contentType.value)
      && var t := Param(TYPE, contentType.value);
      if entryId.None? then params == [t]
      else
        && IsEntry(entryId.value)
        && var e := Param(ENTRY, entryId.value);
        params == [e, t] || params == [t, e]
  }

  lemma TypesAgree(text: Text)
    ensures LegalType(text) <==> IsType(text)
  {
  }

  lemma EntriesAgree(text: Text)
    ensures LegalEntry(text) <==> IsEntry(text)
  {
  }

  lemma ValuesOfTwo(a: Param, b: Param)
    requires a.name != b.name
    ensures ValueOf([a, b], a.name) == Some(a.value) && ValueOf([a, b], b.name) == Some(b.value)
    ensures NamesOk([a, b]) <==> (a.name == ENTRY && b.name == TYPE) || (a.name == TYPE && b.name == ENTRY)
  {
    assert [a, b][1..] == [b];
    if NamesOk([a, b]) { assert [a, b][0].name == a.name && [a, b][1].name == b.name; }
  }

  lemma NamesDiffer()
    ensures ENTRY != TYPE
  {
    Names();
  }

  /** Parameters are accepted, as an entry and a type, exactly when they say so; all others are refused. */
  lemma ParamsExactly(destination: Text, params: seq<Param>, entryId: Option<Text>, contentType: Option<Text>)
    ensures ParseParams(destination, params) == Parsed(Location(destination, entryId, contentType), false)
       <==> Says(params, entryId, contentType)
    ensures ParseParams(destination, params).invalid ==> ParseParams(destination, params) == FALLBACK
  {
    NamesDiffer();
    if contentType.Some? { TypesAgree(contentType.value); }
    if entryId.Some? { EntriesAgree(entryId.value); }
    if Says(params, entryId, contentType) { SaidIsParsed(destination, params, entryId, contentType); }
    if ParseParams(destination, params) == Parsed(Location(destination, entryId, contentType), false) {
      ParsedIsSaid(destination, params, entryId, contentType);
    }
  }

  lemma SaidIsParsed(destination: Text, params: seq<Param>, entryId: Option<Text>, contentType: Option<Text>)
    requires Says(params, entryId, contentType)
    ensures ParseParams(destination, params) == Parsed(Location(destination, entryId, contentType), false)
  {
    NamesDiffer();
    if contentType.Some? {
      TypesAgree(contentType.value);
      if entryId.Some? {
        EntriesAgree(entryId.value);
        ValuesOfTwo(params[0], params[1]);
        assert params == [params[0], params[1]];
      } else {
        assert params[1..] == [];
        assert ValueOf(params, TYPE) == contentType && ValueOf(params, ENTRY) == ValueOf(params[1..], ENTRY) == None;
      }
    }
  }

  lemma ParsedIsSaid(destination: Text, params: seq<Param>, entryId: Option<Text>, contentType: Option<Text>)
    requires ParseParams(destination, params) == Parsed(Location(destination, entryId, contentType), false)
    ensures Says(params, entryId, contentType)
  {
    NamesDiffer();
    if params != [] {
      TypesAgree(ValueOf(params, TYPE).value);
      if |params| == 1 {
        assert params == [params[0]] && params[1..] == [];
      } else {
        EntriesAgree(ValueOf(params, ENTRY).value);
        assert params[0].name != params[1].name;
        assert params == [params[0], params[1]];
        TwoAreSaid(params[0], params[1], entryId.value, contentType.value);
      }
    }
  }

  lemma TwoAreSaid(a: Param, b: Param, entryId: Text, contentType: Text)
    requires NamesOk([a, b]) && a.name != b.name
    requires ValueOf([a, b], ENTRY) == Some(entryId) && ValueOf([a, b], TYPE) == Some(contentType)
    ensures [a, b] == [Param(ENTRY, entryId), Param(TYPE, contentType)]
         || [a, b] == [Param(TYPE, contentType), Param(ENTRY, entryId)]
  {
    ValuesOfTwo(a, b);
  }

  /** The parameters of a query; no query has none. */
  function ParamsOf(query: Option<Text>): seq<Param> {
    ParseQuery(if query.Some? then query.value else [])
  }

  lemma NoParams()
    ensures ParseQuery([]) == [] && Decodable([])
  {
    assert Split([], AMPERSAND) == [[]];
    assert ParsePieces([[]]) == ParsePieces([[]][1..]);
  }

  /** An address that says a location: a known destination, whole escapes, and its parameters. */
  ghost predicate SaysLocation(hash: Text, location: Location, query: Option<Text>) {
    && MadeOf(hash, location.destination, query) && Known(location.destination)
    && (query.Some? ==> Decodable(query.value))
    && Says(ParamsOf(query), location.entryId, location.contentType)
  }

  /**
   An address is accepted, and as just this location, if and only if it is empty, for the home page,
   or of at most 4096 units and says that location; every other is refused to the home page.
   */
  lemma AcceptedExactly(hash: Text, location: Location)
    ensures Parse(hash) == Parsed(location, false) <==>
      if hash == [] || hash == [HASH] then location == Location(HOME, None, None)
      else |hash| <= 4096 && exists query :: SaysLocation(hash, location, query)
    ensures Parse(hash).invalid ==> Parse(hash) == FALLBACK
  {
    NoParams();
    ParseIsCanonical(hash);
    if hash != [] && hash != [HASH] {
      if Parse(hash) == Parsed(location, false) {
        var found := MatchAddress(hash).value;
        MatchJoins(hash);
        ParamsExactly(found.name, ParamsOf(found.query), location.entryId, location.contentType);
        assert SaysLocation(hash, location, found.query);
      }
      if |hash| <= 4096 && exists query :: SaysLocation(hash, location, query) {
        var query :| SaysLocation(hash, location, query);
        MatchExactly(hash, location.destination, query);
        ParamsExactly(location.destination, ParamsOf(query), location.entryId, location.contentType);
      }
    }
  }

  // Spellings

  /** One scalar value in a query: as it is, a space as a plus sign, or its bytes escaped in either case. */
  datatype Spelling = Raw(scalar: Scalar) | Plus | Escaped(scalar: Scalar, text: seq<Byte>)

  /** The value of one hexadecimal digit. */
  ghost predicate IsHex(u: int, v: int) {
    || (0 <= v <= 9 && u == '0' as int + v)
    || (10 <= v <= 15 && (u == 'A' as int + v - 10 || u == 'a' as int + v - 10))
  }

  ghost predicate EscapesByte(text: seq<int>, b: Byte) {
    |text| == 3 && text[0] == '%' as int && IsHex(text[1], b / 16) && IsHex(text[2], b % 16)
  }

  ghost predicate Escapes(text: seq<int>, bytes: seq<Byte>) {
    |text| == 3 * |bytes| && forall i :: 0 <= i < |bytes| ==> EscapesByte(text[3 * i..3 * i + 3], bytes[i])
  }

  /** Units that mean something else where they stand for themselves. */
  predicate Reserved(s: int) {
    s == PERCENT || s == AMPERSAND || s == PLUS || s == EQUALS || s == HASH
  }

  ghost predicate Proper(spelling: Spelling) {
    match spelling
    case Raw(s) => !Reserved(s)
    case Plus => true
    case Escaped(s, text) => Escapes(text, Encode(s))
  }

  function Meaning(spelling: Spelling): Scalar {
    match spelling
    case Raw(s) => s
    case Plus => SPACE
    case Escaped(s, _) => s
  }

  function Written(spelling: Spelling): Text {
    match spelling
    case Raw(s) => UnitsOf(s)
    case Plus => [PLUS]
    case Escaped(_, text) => text
  }

  ghost predicate AllProper(spellings: seq<Spelling>) {
    forall i :: 0 <= i < |spellings| ==> Proper(spellings[i])
  }

  function Means(spellings: seq<Spelling>): seq<Scalar> {
    if spellings == [] then [] else [Meaning(spellings[0])] + Means(spellings[1..])
  }

  function WrittenAll(spellings: seq<Spelling>): Text {
    if spellings == [] then [] else Written(spellings[0]) + WrittenAll(spellings[1..])
  }

  /** The bytes of a written spelling: of the scalar value, or the text itself. */
  function BytesOf(spelling: Spelling): seq<Byte> {
    match spelling
    case Raw(s) => Encode(s)
    case Plus => [PLUS]
    case Escaped(_, text) => text
  }

  function AllBytes(spellings: seq<Spelling>): seq<Byte> {
    if spellings == [] then [] else BytesOf(spellings[0]) + AllBytes(spellings[1..])
  }

  lemma OneByte(text: seq<int>, b: Byte, rest: seq<int>)
    requires EscapesByte(text, b)
    ensures EscapedByte(text + rest) == Some(b)
  {
    var all := text + rest;
    assert all[0] == text[0] && all[1] == text[1] && all[2] == text[2];
  }

  lemma {:induction false} EscapesAreBytes(text: seq<int>, bytes: seq<Byte>, rest: seq<int>)
    requires Escapes(text, bytes)
    ensures EscapedBytes(text + rest, |bytes|) == Some(bytes)
    ensures bytes != [] ==> EscapedByte(text + rest) == Some(bytes[0])
    ensures forall i :: 0 <= i < |text| ==> 0 <= text[i] < 0x80
    ensures AMPERSAND !in text && EQUALS !in text && PLUS !in text && HASH !in text
    decreases |bytes|
  {
    if bytes != [] {
      var more := text[3..];
      assert EscapesByte(text[0..3], bytes[0]);
      assert text[0..3] == text[..3];
      forall i | 0 <= i < |bytes[1..]| ensures EscapesByte(more[3 * i..3 * i + 3], bytes[1..][i]) {
        assert more[3 * i..3 * i + 3] == text[3 * (i + 1)..3 * (i + 1) + 3];
      }
      EscapesAreBytes(more, bytes[1..], rest);
      OneByte(text[..3], bytes[0], more + rest);
      assert text + rest == text[..3] + (more + rest);
      assert (text + rest)[3..] == more + rest;
      assert [bytes[0]] + bytes[1..] == bytes;
      forall i | 0 <= i < |text|
        ensures 0 <= text[i] < 0x80 && text[i] != AMPERSAND && text[i] != EQUALS && text[i] != PLUS && text[i] != HASH
      {
        if i >= 3 { assert text[i] == more[i - 3]; } else { assert text[i] == text[..3][i]; }
      }
    }
  }

  // A spelling passes the strict check and decodes to what it means

  lemma {:induction false} WrittenDecodable(spelling: Spelling, rest: Text)
    requires Proper(spelling)
    ensures Decodable(Written(spelling) + rest) == Decodable(rest)
  {
    match spelling
    case Raw(s) => PlainDecodable(UnitsOf(s), rest);
    case Plus => PlainDecodable([PLUS], rest);
    case Escaped(s, text) =>
      var bytes := Encode(s);
      EscapesAreBytes(text, bytes, rest);
      EncodedBytes(s);
      assert (text + rest)[3 * |bytes|..] == rest;
      assert EscapesByte(text[0..3], bytes[0]);
      if s < 0x80 { assert |bytes| == 1; }
  }

  lemma {:induction false} SpelledDecodable(spellings: seq<Spelling>, rest: Text)
    requires AllProper(spellings)
    ensures Decodable(WrittenAll(spellings) + rest) == Decodable(rest)
    decreases |spellings|
  {
    if spellings == [] {
      assert WrittenAll(spellings) + rest == rest;
    } else {
      var more := WrittenAll(spellings[1..]);
      assert WrittenAll(spellings) + rest == Written(spellings[0]) + (more + rest);
      WrittenDecodable(spellings[0], more + rest);
      SpelledDecodable(spellings[1..], rest);
    }
  }

  lemma {:induction false} UnitsJoin(s: Scalar, rest: Text)
    ensures ToScalars(UnitsOf(s) + rest) == [s] + ToScalars(rest)
  {
    var text := UnitsOf(s) + rest;
    if s < 0x1_0000 {
      assert text[1..] == rest;
    } else {
      assert Paired(text);
      assert text[2..] == rest;
      JoinsAgain(s);
    }
  }

  lemma JoinsAgain(s: Scalar)
    requires s >= 0x1_0000
    ensures JoinPair(UnitsOf(s)[0], UnitsOf(s)[1]) == s
  {
  }

  lemma {:induction false} WrittenBytes(spelling: Spelling, rest: Text)
    requires Proper(spelling)
    ensures EncodeAll(ToScalars(Written(spelling) + rest)) == BytesOf(spelling) + EncodeAll(ToScalars(rest))
  {
    if spelling.Raw? {
      UnitsJoin(spelling.scalar, rest);
      assert ([spelling.scalar] + ToScalars(rest))[1..] == ToScalars(rest);
    } else {
      var text := Written(spelling);
      if spelling.Escaped? { EscapesAreBytes(text, Encode(spelling.scalar), []); }
      AsciiPrefix(text + rest, |text|);
      assert (text + rest)[..|text|] == text && (text + rest)[|text|..] == rest;
    }
  }

  lemma Regroup<T>(a: seq<T>, b: seq<T>, c: seq<T>)
    ensures a + (b + c) == a + b + c
  {
  }

  lemma {:induction false} SpelledBytes(spellings: seq<Spelling>, rest: Text)
    requires AllProper(spellings)
    ensures EncodeAll(ToScalars(WrittenAll(spellings) + rest)) == AllBytes(spellings) + EncodeAll(ToScalars(rest))
    decreases |spellings|
  {
    if spellings == [] {
      assert WrittenAll(spellings) + rest == rest;
    } else {
      var more := WrittenAll(spellings[1..]);
      assert WrittenAll(spellings) + rest == Written(spellings[0]) + (more + rest);
      WrittenBytes(spellings[0], more + rest);
      SpelledBytes(spellings[1..], rest);
      Regroup(BytesOf(spellings[0]), AllBytes(spellings[1..]), EncodeAll(ToScalars(rest)));
    }
  }

  /** No byte of a spelling separates pieces, or a name from its value. */
  lemma {:induction false} SpelledSeparatesNothing(spellings: seq<Spelling>)
    requires AllProper(spellings)
    ensures AMPERSAND !in AllBytes(spellings) && EQUALS !in AllBytes(spellings)
    ensures HASH !in WrittenAll(spellings)
    decreases |spellings|
  {
    if spellings != [] {
      SpelledSeparatesNothing(spellings[1..]);
      if spellings[0].Raw? { EncodedBytes(spellings[0].scalar); }
      if spellings[0].Escaped? { EscapesAreBytes(spellings[0].text, Encode(spellings[0].scalar), []); }
    }
  }

  lemma {:induction false} SpellingDecodes(spelling: Spelling, rest: seq<Byte>)
    requires Proper(spelling)
    ensures PercentDecode(PlusToSpace(BytesOf(spelling) + rest))
         == Encode(Meaning(spelling)) + PercentDecode(PlusToSpace(rest))
  {
    var bytes := BytesOf(spelling);
    SpacedConcat(bytes, rest);
    match spelling
    case Raw(s) =>
      EncodedBytes(s);
      SpacedPlain(bytes);
      PercentPlain(bytes, PlusToSpace(rest));
    case Plus =>
      assert PlusToSpace([PLUS]) == [SPACE];
      PercentPlain([SPACE], PlusToSpace(rest));
    case Escaped(s, text) =>
      EscapesAreBytes(text, Encode(s), PlusToSpace(rest));
      SpacedPlain(text);
      PercentEscapes(text + PlusToSpace(rest), |Encode(s)|);
      assert (text + PlusToSpace(rest))[3 * |Encode(s)|..] == PlusToSpace(rest);
  }

  lemma {:induction false} SpelledDecodes(spellings: seq<Spelling>)
    requires AllProper(spellings)
    ensures PercentDecode(PlusToSpace(AllBytes(spellings))) == EncodeAll(Means(spellings))
    decreases |spellings|
  {
    if spellings != [] {
      SpellingDecodes(spellings[0], AllBytes(spellings[1..]));
      SpelledDecodes(spellings[1..]);
      assert Means(spellings)[1..] == Means(spellings[1..]);
    }
  }

  /** Any spelling decodes to the text it means. */
  lemma {:induction false} SpellingReturns(spellings: seq<Spelling>)
    requires AllProper(spellings)
    ensures FormDecode(AllBytes(spellings)) == FromScalars(Means(spellings))
  {
    SpelledDecodes(spellings);
    Utf8RoundTrip(Means(spellings));
  }

  // Whole queries

  datatype Assignment = Assignment(name: seq<Spelling>, value: seq<Spelling>)

  ghost predicate ProperAssignment(a: Assignment) {
    AllProper(a.name) && AllProper(a.value)
  }

  function WrittenAssignment(a: Assignment): Text {
    WrittenAll(a.name) + [EQUALS] + WrittenAll(a.value)
  }

  function AssignmentBytes(a: Assignment): seq<Byte> {
    AllBytes(a.name) + [EQUALS] + AllBytes(a.value)
  }

  function Assigned(a: Assignment): Param {
    Param(FromScalars(Means(a.name)), FromScalars(Means(a.value)))
  }

  lemma {:induction false} PlainUnit(u: Byte, rest: Text)
    requires u < 0x80 && u != PERCENT
    ensures EncodeAll(ToScalars([u] + rest)) == [u] + EncodeAll(ToScalars(rest))
    ensures Decodable([u] + rest) == Decodable(rest)
  {
    AsciiPrefix([u] + rest, 1);
    assert ([u] + rest)[..1] == [u] && ([u] + rest)[1..] == rest;
  }

  lemma {:induction false} AssignmentWritten(a: Assignment, rest: Text)
    requires ProperAssignment(a)
    ensures EncodeAll(ToScalars(WrittenAssignment(a) + rest)) == AssignmentBytes(a) + EncodeAll(ToScalars(rest))
    ensures Decodable(WrittenAssignment(a) + rest) == Decodable(rest)
  {
    var name, value := WrittenAll(a.name), WrittenAll(a.value);
    var tail := value + rest;
    Regroup([EQUALS], value, rest);
    Regroup(name, [EQUALS], value);
    Regroup(name, [EQUALS] + value, rest);
    assert WrittenAssignment(a) + rest == name + ([EQUALS] + tail);
    SpelledDecodable(a.name, [EQUALS] + tail);
    SpelledDecodable(a.value, rest);
    PlainUnit(EQUALS, tail);
    AssignmentEncoded(a, rest, tail);
  }

  lemma {:induction false} AssignmentEncoded(a: Assignment, rest: Text, tail: Text)
    requires ProperAssignment(a) && tail == WrittenAll(a.value) + rest
    ensures EncodeAll(ToScalars(WrittenAll(a.name) + ([EQUALS] + tail))) == AssignmentBytes(a) + EncodeAll(ToScalars(rest))
  {
    SpelledBytes(a.name, [EQUALS] + tail);
    PlainUnit(EQUALS, tail);
    SpelledBytes(a.value, rest);
    var name, value, more := AllBytes(a.name), AllBytes(a.value), EncodeAll(ToScalars(rest));
    Regroup([EQUALS], value, more);
    Regroup(name, [EQUALS] + value, more);
    Regroup(name, [EQUALS], value);
  }

  lemma AssignmentReturns(a: Assignment)
    requires ProperAssignment(a)
    ensures AMPERSAND !in AssignmentBytes(a) && HASH !in WrittenAssignment(a)
    ensures ParsePiece(AssignmentBytes(a)) == Assigned(a)
  {
    SpelledSeparatesNothing(a.name);
    SpelledSeparatesNothing(a.value);
    PieceParts(AllBytes(a.name), AllBytes(a.value));
    SpellingReturns(a.name);
    SpellingReturns(a.value);
  }

  /** One assignment, or two separated by an ampersand. */
  function WrittenQuery(a: Assignment, more: Option<Assignment>): Text {
    WrittenAssignment(a) + if more.Some? then [AMPERSAND] + WrittenAssignment(more.value) else []
  }

  function AssignedAll(a: Assignment, more: Option<Assignment>): seq<Param> {
    [Assigned(a)] + if more.Some? then [Assigned(more.value)] else []
  }

  lemma SingleReturns(a: Assignment)
    requires ProperAssignment(a)
    ensures EncodeAll(ToScalars(WrittenAssignment(a))) == AssignmentBytes(a)
    ensures Decodable(WrittenAssignment(a))
    ensures Split(AssignmentBytes(a), AMPERSAND) == [AssignmentBytes(a)]
    ensures ParsePieces([AssignmentBytes(a)]) == [Assigned(a)]
  {
    AssignmentWritten(a, []);
    AssignmentReturns(a);
    assert WrittenAssignment(a) + [] == WrittenAssignment(a);
    assert AssignmentBytes(a) + [] == AssignmentBytes(a);
    SplitNone(AssignmentBytes(a), AMPERSAND);
    assert [AssignmentBytes(a)][1..] == [];
    assert ParsePieces([]) == [];
  }

  lemma QueryDecodes(a: Assignment, more: Option<Assignment>)
    requires ProperAssignment(a) && (more.Some? ==> ProperAssignment(more.value))
    requires AssignmentBytes(a)[0] != QUESTION
    ensures Decodable(WrittenQuery(a, more)) && HASH !in WrittenQuery(a, more)
    ensures ParseQuery(WrittenQuery(a, more)) == AssignedAll(a, more)
  {
    if more.None? {
      SingleReturns(a);
      assert WrittenQuery(a, more) == WrittenAssignment(a);
      AssignmentReturns(a);
      assert AssignedAll(a, more) == [Assigned(a)];
    } else {
      TwoReturn(a, more.value);
    }
  }

  lemma TwoReturn(a: Assignment, b: Assignment)
    requires ProperAssignment(a) && ProperAssignment(b) && AssignmentBytes(a)[0] != QUESTION
    ensures Decodable(WrittenQuery(a, Some(b))) && HASH !in WrittenQuery(a, Some(b))
    ensures ParseQuery(WrittenQuery(a, Some(b))) == [Assigned(a), Assigned(b)]
  {
    AssignmentWritten(a, [AMPERSAND] + WrittenAssignment(b));
    AssignmentReturns(a);
    PlainUnit(AMPERSAND, WrittenAssignment(b));
    SingleReturns(b);
    AssignmentReturns(b);
    Regroup(AssignmentBytes(a), [AMPERSAND], AssignmentBytes(b));
    TwoPieces(AssignmentBytes(a), AssignmentBytes(b), Assigned(a), Assigned(b));
  }

  lemma {:induction false} TwoPieces(a: seq<Byte>, b: seq<Byte>, first: Param, second: Param)
    requires AMPERSAND !in a && AMPERSAND !in b && a != [] && b != []
    requires ParsePiece(a) == first && ParsePiece(b) == second
    ensures ParsePieces(Split(a + [AMPERSAND] + b, AMPERSAND)) == [first, second]
  {
    SplitAt(a, b, AMPERSAND);
    SplitNone(b, AMPERSAND);
    var pieces := [a] + [b];
    assert pieces[1..] == [b] && [b][1..] == [];
    assert ParsePieces([b]) == [second];
  }

  /** A name that means one of the two parameters does not start with a question mark. */
  lemma NameStarts(a: Assignment)
    requires ProperAssignment(a) && Assigned(a).name in {ENTRY, TYPE}
    ensures AssignmentBytes(a)[0] != QUESTION
  {
    Names();
    var first := a.name[0];
    assert FromScalars(Means(a.name))[0] == UnitsOf(Meaning(first))[0];
    if first.Escaped? {
      assert EscapesByte(first.text[0..3], Encode(first.scalar)[0]);
      assert AssignmentBytes(a)[0] == first.text[0] == first.text[0..3][0];
    } else {
      assert AssignmentBytes(a)[0] == BytesOf(first)[0];
    }
  }

  function WithQuery(destination: Text, query: Text): Text {
    [HASH, SLASH] + destination + ([QUESTION] + query)
  }

  lemma SpellingSays(location: Location, a: Assignment, more: Option<Assignment>)
    requires Known(location.destination)
    requires ProperAssignment(a) && (more.Some? ==> ProperAssignment(more.value))
    requires Says(AssignedAll(a, more), location.entryId, location.contentType)
    ensures SaysLocation(WithQuery(location.destination, WrittenQuery(a, more)), location, Some(WrittenQuery(a, more)))
  {
    assert AssignedAll(a, more)[0] == Assigned(a);
    NameStarts(a);
    QueryDecodes(a, more);
    KnownIsName(location.destination);
  }

  /**
   Every spelling of a location is accepted as that location, within the length limit: its parameters in
   either order, each character of names and values as it is, escaped in either case, or as a plus sign.
   */
  lemma AnySpellingParses(location: Location, a: Assignment, more: Option<Assignment>)
    requires Known(location.destination)
    requires ProperAssignment(a) && (more.Some? ==> ProperAssignment(more.value))
    requires Says(AssignedAll(a, more), location.entryId, location.contentType)
    requires |WithQuery(location.destination, WrittenQuery(a, more))| <= 4096
    ensures Parse(WithQuery(location.destination, WrittenQuery(a, more))) == Parsed(location, false)
  {
    var query := WrittenQuery(a, more);
    SpellingSays(location, a, more);
    AcceptedExactly(WithQuery(location.destination, query), location);
  }

  /** An empty entry or type is written as if it were missing. */
  lemma EmptyIsMissing(destination: Text, contentType: Option<Text>)
    ensures Format(Location(destination, Some([]), contentType)) == Format(Location(destination, None, contentType))
    ensures Format(Location(destination, None, Some([]))) == Format(Location(destination, None, None))
  {
  }

  /** Without both, the address is the destination alone; an entry without a type is written as a page. */
  lemma PageIsTheDefault(destination: Text, entryId: Text)
    requires entryId != []
    ensures Format(Location(destination, None, None)) == [HASH, SLASH] + destination
    ensures Format(Location(destination, Some(entryId), None)) == Format(Location(destination, Some(entryId), Some(PAGE)))
  {
  }

  /**
   What a byte is written as: letters, digits, asterisk, hyphen, dot and underscore as themselves, a space
   as a plus sign, and every other byte as an escape with upper-case digits.
   */
  lemma FormByteLaw(b: Byte)
    ensures var text := FormByte(b);
      if IsLetterOrDigit(b) || b in {'*' as int, '-' as int, '.' as int, '_' as int} then text == [b]
      else if b == ' ' as int then text == ['+' as int]
      else EscapesByte(text, b) && forall i :: 0 <= i < 3 ==> !('a' as int <= text[i] <= 'z' as int)
  {
  }
}
