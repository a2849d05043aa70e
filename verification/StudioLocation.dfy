/** The Studio's address codec: `parseStudioLocation` and `formatStudioLocation`. */
module StudioLocation {
  import opened Wrappers
  import opened Unicode
  import opened FormEncoding

  const MAXIMUM_ADDRESS := 4096
  const MAXIMUM_ENTRY := 256
  const MAXIMUM_TYPE := 128
  const HASH: Unit := 35
  const SLASH: Unit := 47

  const DESTINATIONS: seq<string> := [
    "home", "pages", "collections", "schemas", "workflows", "releases", "search", "operations", "identity",
    "data-governance", "migrations", "marketplace", "targeting", "experiments", "ai-gateway", "knowledge",
    "quality", "federation", "fleet", "regions", "components", "assets", "settings"]

  datatype Location = Location(destination: Text, entryId: Option<Text>, contentType: Option<Text>)
  datatype Parsed = Parsed(location: Location, invalid: bool)

  function Codes(s: string): (text: seq<Byte>)
    ensures |text| == |s|
    ensures Ascii(text)
    ensures forall i :: 0 <= i < |s| && s[i] as int < 0x80 ==> text[i] == s[i] as int
  {
    seq(|s|, i requires 0 <= i < |s| => if s[i] as int < 0x80 then s[i] as int else QUESTION)
  }

  const HOME: Text := Codes("home")
  const PAGE: Text := Codes("page")
  const ENTRY: seq<Byte> := Codes("entry")
  const TYPE: seq<Byte> := Codes("type")

  predicate Known(name: Text) {
    exists i :: 0 <= i < |DESTINATIONS| && name == Codes(DESTINATIONS[i])
  }

  // Parsing

  /** `[a-z-]` */
  predicate NameUnit(u: int) {
    97 <= u <= 122 || u == 45
  }

  function NameLength(text: Text): (n: nat)
    ensures n <= |text|
    ensures forall i :: 0 <= i < n ==> NameUnit(text[i])
    ensures n < |text| ==> !NameUnit(text[n])
  {
    if text == [] || !NameUnit(text[0]) then 0 else 1 + NameLength(text[1..])
  }

  datatype Match = Match(name: Text, query: Option<Text>)

  /** `^#\/([a-z-]+)(?:\?([^#]*))?$` */
  function MatchAddress(hash: Text): Option<Match> {
    if |hash| < 2 || hash[0] != HASH || hash[1] != SLASH then None
    else
      var text := hash[2..];
      var n := NameLength(text);
      if n == 0 then None
      else if n == |text| then Some(Match(text, None))
      else if text[n] == QUESTION && HASH !in text[n + 1..] then Some(Match(text[..n], Some(text[n + 1..])))
      else None
  }

  predicate Alphanumeric(u: int) {
    48 <= u <= 57 || 65 <= u <= 90 || 97 <= u <= 122
  }

  /** `[A-Za-z0-9._:-]` */
  predicate TypeUnit(u: int) {
    Alphanumeric(u) || u == 46 || u == 95 || u == 58 || u == 45
  }

  predicate LegalType(text: Text) {
    1 <= |text| <= MAXIMUM_TYPE && Alphanumeric(text[0]) && forall i :: 0 <= i < |text| ==> TypeUnit(text[i])
  }

  predicate Control(u: int) {
    u < 32 || 127 <= u <= 159
  }

  predicate LegalEntry(text: Text) {
    1 <= |text| <= MAXIMUM_ENTRY && forall i :: 0 <= i < |text| ==> !Control(text[i])
  }

  function ValueOf(params: seq<Param>, name: Text): Option<Text> {
    if params == [] then None
    else if params[0].name == name then Some(params[0].value)
    else ValueOf(params[1..], name)
  }

  predicate NamesOk(params: seq<Param>) {
    && (forall i :: 0 <= i < |params| ==> params[i].name == ENTRY || params[i].name == TYPE)
    && (forall i, j :: 0 <= i < j < |params| ==> params[i].name != params[j].name)
  }

  const FALLBACK := Parsed(Location(HOME, None, None), true)

  function ParseParams(destination: Text, params: seq<Param>): Parsed {
    if !NamesOk(params) then FALLBACK
    else if params == [] then Parsed(Location(destination, None, None), false)
    else
      var entryId, contentType := ValueOf(params, ENTRY), ValueOf(params, TYPE);
      if contentType.None? || !LegalType(contentType.value) then FALLBACK
      else if entryId.Some? && (!LegalEntry(entryId.value) || |params| != 2) then FALLBACK
      else if entryId.None? && |params| != 1 then FALLBACK
      else Parsed(Location(destination, entryId, contentType), false)
  }

  function Parse(hash: Text): Parsed {
    if hash == [] || hash == [HASH] then Parsed(Location(HOME, None, None), false)
    else if |hash| > MAXIMUM_ADDRESS then FALLBACK
    else
      var found := MatchAddress(hash);
      if found.None? || !Known(found.value.name) then FALLBACK
      else
        var query := if found.value.query.Some? then found.value.query.value else [];
        if !Decodable(query) then FALLBACK
        else ParseParams(found.value.name, ParseQuery(query))
  }

  // Formatting

  function FormParam(name: seq<Byte>, value: Text): seq<Byte> {
    FormText(name) + [EQUALS] + FormText(value)
  }

  /** Empty texts are false in JavaScript: they format as if they were missing. */
  predicate Present(text: Option<Text>) {
    text.Some? && text.value != []
  }

  function BothParams(entryId: Text, contentType: Text): seq<Byte> {
    FormParam(ENTRY, entryId) + [AMPERSAND] + FormParam(TYPE, contentType)
  }

  function TypeOrPage(contentType: Option<Text>): Text {
    if contentType.Some? then contentType.value else PAGE
  }

  function Query(location: Location): seq<Byte> {
    if Present(location.entryId) then BothParams(location.entryId.value, TypeOrPage(location.contentType))
    else if Present(location.contentType) then FormParam(TYPE, location.contentType.value)
    else []
  }

  function Format(location: Location): Text {
    var query := Query(location);
    [HASH, SLASH] + location.destination + (if query == [] then [] else [QUESTION] + query)
  }

  // The canonical locations: what the parser produces, and exactly what survives the address

  predicate Canonical(location: Location) {
    && Known(location.destination)
    && (location.contentType.Some? ==> LegalType(location.contentType.value))
    && (location.entryId.Some? ==>
          location.contentType.Some? && LegalEntry(location.entryId.value) && WellFormed(location.entryId.value))
  }

  lemma HomeIsKnown()
    ensures Known(HOME)
  {
    assert DESTINATIONS[0] == "home";
  }

  ghost predicate AllWellFormed(params: seq<Param>) {
    forall i :: 0 <= i < |params| ==> WellFormed(params[i].name) && WellFormed(params[i].value)
  }

  lemma {:induction false} ParsedIsWellFormed(pieces: seq<seq<Byte>>)
    ensures AllWellFormed(ParsePieces(pieces))
    decreases |pieces|
  {
    if pieces != [] {
      ParsedIsWellFormed(pieces[1..]);
      var i := IndexOf(pieces[0], EQUALS);
      ScalarsAreWellFormed(DecodeAll(PercentDecode(PlusToSpace(pieces[0][..i]))));
      if i < |pieces[0]| { ScalarsAreWellFormed(DecodeAll(PercentDecode(PlusToSpace(pieces[0][i + 1..])))); }
    }
  }

  lemma {:induction false} ValueIsWellFormed(params: seq<Param>, name: Text)
    requires AllWellFormed(params) && ValueOf(params, name).Some?
    ensures WellFormed(ValueOf(params, name).value)
    decreases |params|
  {
    if params[0].name != name { ValueIsWellFormed(params[1..], name); }
  }

  /** Every address, whatever its text, parses to a canonical location. */
  lemma ParseIsCanonical(hash: Text)
    ensures Canonical(Parse(hash).location)
    ensures Parse(hash).invalid ==> Parse(hash) == FALLBACK
  {
    HomeIsKnown();
    if hash != [] && hash != [HASH] && |hash| <= MAXIMUM_ADDRESS && MatchAddress(hash).Some? {
      var found := MatchAddress(hash).value;
      var query := if found.query.Some? then found.query.value else [];
      var bytes := EncodeAll(ToScalars(query));
      ParsedIsWellFormed(Split(if bytes != [] && bytes[0] == QUESTION then bytes[1..] else bytes, AMPERSAND));
      var params := ParseQuery(query);
      if ValueOf(params, ENTRY).Some? { ValueIsWellFormed(params, ENTRY); }
    }
  }

  // The round trip

  lemma {:induction false} NameRuns(name: Text, rest: Text)
    requires forall i :: 0 <= i < |name| ==> NameUnit(name[i])
    requires rest != [] ==> !NameUnit(rest[0])
    ensures NameLength(name + rest) == |name|
    decreases |name|
  {
    if name == [] {
      assert name + rest == rest;
    } else {
      assert (name + rest)[0] == name[0] && (name + rest)[1..] == name[1..] + rest;
      NameRuns(name[1..], rest);
    }
  }

  predicate NameText(s: string) {
    1 <= |s| <= 15 && forall i :: 0 <= i < |s| ==> NameUnit(s[i] as int)
  }

  lemma FirstNames()
    ensures NameText("home") && NameText("pages") && NameText("collections")
    ensures NameText("schemas") && NameText("workflows") && NameText("releases")
  {
  }

  lemma SecondNames()
    ensures NameText("search") && NameText("operations") && NameText("identity")
    ensures NameText("data-governance") && NameText("migrations") && NameText("marketplace")
  {
  }

  lemma ThirdNames()
    ensures NameText("targeting") && NameText("experiments") && NameText("ai-gateway")
    ensures NameText("knowledge") && NameText("quality") && NameText("federation")
  {
  }

  lemma FourthNames()
    ensures NameText("fleet") && NameText("regions") && NameText("components")
    ensures NameText("assets") && NameText("settings")
  {
  }

  lemma DestinationNames(i: nat)
    requires i < |DESTINATIONS|
    ensures NameText(DESTINATIONS[i])
  {
    FirstNames();
    SecondNames();
    ThirdNames();
    FourthNames();
  }

  lemma KnownIsName(name: Text)
    requires Known(name)
    ensures 1 <= |name| <= 15 && forall i :: 0 <= i < |name| ==> NameUnit(name[i])
  {
    var i :| 0 <= i < |DESTINATIONS| && name == Codes(DESTINATIONS[i]);
    DestinationNames(i);
  }

  lemma Names()
    ensures ENTRY == [101, 110, 116, 114, 121] && TYPE == [116, 121, 112, 101] && PAGE == [112, 97, 103, 101]
  {
  }

  lemma NameOnlyMatches(name: Text)
    requires name != [] && forall i :: 0 <= i < |name| ==> NameUnit(name[i])
    ensures MatchAddress([HASH, SLASH] + name) == Some(Match(name, None))
  {
    var hash: Text := [HASH, SLASH] + name;
    assert hash[2..] == name;
    NameRuns(name, []);
    assert name + [] == name;
  }

  lemma QueryMatches(name: Text, query: Text)
    requires name != [] && forall i :: 0 <= i < |name| ==> NameUnit(name[i])
    requires HASH !in query
    ensures MatchAddress([HASH, SLASH] + name + ([QUESTION] + query)) == Some(Match(name, Some(query)))
  {
    var tail: Text := [QUESTION] + query;
    var hash: Text := [HASH, SLASH] + name + tail;
    assert hash[2..] == name + tail;
    NameRuns(name, tail);
    assert (name + tail)[|name|] == QUESTION;
    assert (name + tail)[|name| + 1..] == query && (name + tail)[..|name|] == name;
  }

  /** The bytes of a formatted parameter: no separator, no question mark, no hash. */
  predicate Inert(b: int) {
    Plain(b) || b == EQUALS
  }

  ghost predicate AllInert(text: seq<Byte>) {
    forall i :: 0 <= i < |text| ==> Inert(text[i])
  }

  lemma {:induction false} InertIsPlain(text: seq<Byte>)
    requires AllInert(text)
    ensures HASH !in text && AMPERSAND !in text
    ensures EncodeAll(ToScalars(text)) == text
  {
    AsciiIsPlain(text);
  }

  lemma FormTextInert(text: Text)
    ensures AllInert(FormText(text))
  {
    FormIsPlain(EncodeAll(ToScalars(text)));
  }

  /** A parameter name that stands for itself when serialized. */
  ghost predicate Key(name: seq<Byte>) {
    name != [] && forall i :: 0 <= i < |name| ==> Kept(name[i])
  }

  lemma KeyReturns(name: seq<Byte>)
    requires Key(name)
    ensures FormText(name) == name && FormDecode(name) == name
  {
    AsciiIsPlain(name);
    KeptIsPlain(name);
    FormReturns(name);
    AsciiWellFormed(name);
    Utf16Returns(name);
  }

  lemma {:induction false} AsciiWellFormed(text: Text)
    requires Ascii(text)
    ensures WellFormed(text)
    decreases |text|
  {
    if text != [] { AsciiWellFormed(text[1..]); }
  }

  lemma {:induction false} ParamReturns(name: seq<Byte>, value: Text)
    requires Key(name) && WellFormed(value)
    ensures ParsePiece(FormParam(name, value)) == Param(name, value)
    ensures AllInert(FormParam(name, value))
    ensures FormParam(name, value) != [] && FormParam(name, value)[0] == name[0] != QUESTION
  {
    KeyReturns(name);
    FormTextInert(value);
    PieceParts(name, FormText(value));
    FormReturns(value);
    Utf16Returns(value);
  }

  lemma {:induction false} ParamDecodable(name: seq<Byte>, value: Text, rest: seq<int>)
    ensures Decodable(FormParam(name, value) + rest) == Decodable(rest)
  {
    var a, b := FormText(name), FormText(value);
    assert FormParam(name, value) + rest == a + ([EQUALS] + (b + rest));
    FormDecodable(ToScalars(name), [EQUALS] + (b + rest));
    PlainDecodable([EQUALS], b + rest);
    FormDecodable(ToScalars(value), rest);
  }

  lemma {:induction false} OneParses(name: seq<Byte>, value: Text)
    requires Key(name) && WellFormed(value)
    ensures var query := FormParam(name, value);
      Decodable(query) && ParseQuery(query) == [Param(name, value)] && HASH !in query
  {
    ParamReturns(name, value);
    ParamDecodable(name, value, []);
    assert FormParam(name, value) + [] == FormParam(name, value);
    OnePiece(FormParam(name, value));
  }

  lemma OnePiece(query: seq<Byte>)
    requires AllInert(query) && query != [] && query[0] != QUESTION
    ensures HASH !in query && ParseQuery(query) == [ParsePiece(query)]
  {
    InertIsPlain(query);
    SplitNone(query, AMPERSAND);
    var pieces := [query];
    assert pieces[1..] == [];
    assert ParsePieces(pieces) == [ParsePiece(query)];
  }

  lemma {:induction false} BothParse(first: seq<Byte>, entryId: Text, second: seq<Byte>, contentType: Text)
    requires Key(first) && Key(second) && WellFormed(entryId) && WellFormed(contentType)
    ensures var query := FormParam(first, entryId) + [AMPERSAND] + FormParam(second, contentType);
      Decodable(query) && ParseQuery(query) == [Param(first, entryId), Param(second, contentType)] && HASH !in query
  {
    ParamReturns(first, entryId);
    ParamReturns(second, contentType);
    BothDecodable(first, entryId, second, contentType);
    TwoPieces(FormParam(first, entryId), FormParam(second, contentType));
  }

  lemma TwoPieces(a: seq<Byte>, b: seq<Byte>)
    requires AllInert(a) && AllInert(b) && a != [] && b != [] && a[0] != QUESTION
    ensures var query := a + [AMPERSAND] + b;
      HASH !in query && ParseQuery(query) == [ParsePiece(a), ParsePiece(b)]
  {
    var query := a + [AMPERSAND] + b;
    InertIsPlain(a);
    InertIsPlain(b);
    AsciiIsPlain(query);
    SplitAt(a, b, AMPERSAND);
    SplitNone(b, AMPERSAND);
    PiecesOfTwo(a, b);
  }

  lemma BothDecodable(first: seq<Byte>, entryId: Text, second: seq<Byte>, contentType: Text)
    ensures Decodable(FormParam(first, entryId) + [AMPERSAND] + FormParam(second, contentType))
  {
    var a, b := FormParam(first, entryId), FormParam(second, contentType);
    assert a + [AMPERSAND] + b == a + ([AMPERSAND] + (b + []));
    ParamDecodable(first, entryId, [AMPERSAND] + (b + []));
    PlainDecodable([AMPERSAND], b + []);
    ParamDecodable(second, contentType, []);
  }

  lemma PiecesOfTwo(a: seq<Byte>, b: seq<Byte>)
    requires a != [] && b != []
    ensures ParsePieces([a] + [b]) == [ParsePiece(a), ParsePiece(b)]
  {
    var last := [b];
    assert ([a] + last)[1..] == last && last[1..] == [];
    assert ParsePieces(last) == [ParsePiece(b)];
  }

  lemma {:induction false} TypeIsWellFormed(text: Text)
    requires forall i :: 0 <= i < |text| ==> TypeUnit(text[i])
    ensures WellFormed(text)
    decreases |text|
  {
    if text != [] { TypeIsWellFormed(text[1..]); }
  }

  /** No formatted canonical address is too long to parse. */
  lemma FormatFits(location: Location)
    requires Canonical(location)
    ensures |Format(location)| <= MAXIMUM_ADDRESS
  {
    KnownIsName(location.destination);
    FormBound(ENTRY);
    FormBound(TYPE);
    Names();
    if location.entryId.Some? { FormBound(location.entryId.value); }
    if location.contentType.Some? { FormBound(location.contentType.value); }
  }

  lemma ParamsReturn(location: Location)
    requires Canonical(location)
    ensures var destination := location.destination;
      && (location.entryId.Some? ==>
            ParseParams(destination, [Param(ENTRY, location.entryId.value), Param(TYPE, location.contentType.value)])
              == Parsed(location, false))
      && (location.entryId.None? && location.contentType.Some? ==>
            ParseParams(destination, [Param(TYPE, location.contentType.value)]) == Parsed(location, false))
      && (location.contentType.None? ==> ParseParams(destination, []) == Parsed(location, false))
  {
    Names();
    if location.contentType.Some? {
      var last := [Param(TYPE, location.contentType.value)];
      assert ValueOf(last, TYPE) == location.contentType && last[1..] == [] && ValueOf(last, ENTRY) == None;
      if location.entryId.Some? {
        var both := [Param(ENTRY, location.entryId.value)] + last;
        assert both == [Param(ENTRY, location.entryId.value), Param(TYPE, location.contentType.value)];
        assert both[1..] == last;
      }
    }
  }

  lemma EmptyQuery()
    ensures ParseQuery([]) == []
  {
    var pieces: seq<seq<Byte>> := [[]];
    assert ParsePieces(pieces[1..]) == [];
  }

  lemma QueryReturns(location: Location)
    requires Canonical(location)
    ensures Decodable(Query(location)) && HASH !in Query(location)
    ensures ParseParams(location.destination, ParseQuery(Query(location))) == Parsed(location, false)
  {
    Names();
    ParamsReturn(location);
    EmptyQuery();
    if location.contentType.Some? {
      TypeIsWellFormed(location.contentType.value);
      if location.entryId.Some? {
        BothParse(ENTRY, location.entryId.value, TYPE, location.contentType.value);
      } else {
        OneParses(TYPE, location.contentType.value);
      }
    }
  }

  lemma CanonicalReturns(location: Location)
    requires Canonical(location)
    ensures Parse(Format(location)) == Parsed(location, false)
  {
    var query, hash := Query(location), Format(location);
    FormatFits(location);
    KnownIsName(location.destination);
    QueryReturns(location);
    if query == [] {
      assert hash == [HASH, SLASH] + location.destination;
      NameOnlyMatches(location.destination);
    } else {
      QueryMatches(location.destination, query);
    }
  }

  /** A location survives its address exactly when it is canonical. */
  lemma RoundTrip(location: Location)
    ensures Parse(Format(location)) == Parsed(location, false) <==> Canonical(location)
  {
    ParseIsCanonical(Format(location));
    if Canonical(location) { CanonicalReturns(location); }
  }

  /** Formatting what any address parsed to gives an address that parses to the same, and formats to itself. */
  lemma ReformatIsStable(hash: Text)
    ensures var location := Parse(hash).location;
      Parse(Format(location)) == Parsed(location, false) && Format(Parse(Format(location)).location) == Format(location)
  {
    ParseIsCanonical(hash);
    CanonicalReturns(Parse(hash).location);
  }
}
