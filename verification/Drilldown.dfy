/** src/api/admin-logs.ts: the drilldown source carried in a `from` query parameter. */
module Drilldown {
  import opened Lists
  import opened JsText
  import opened Options
  import Uri

  datatype SourceType = Incident | Signal | Badcase | User | Trace

  datatype DrilldownSource = DrilldownSource(kind: SourceType, id: JsString, labelText: JsString, href: JsString)

  /** parseDrilldownParam: null, a source, or the URIError that building its href may throw. */
  datatype ParseResult = NoSource | Found(source: DrilldownSource) | Throws

  const COLON: Unit := ':' as int
  const QUESTION: Unit := '?' as int
  const AMPERSAND: Unit := '&' as int
  const EQUALS: Unit := '=' as int
  const HASH: Unit := '#' as int

  function Name(kind: SourceType): (name: JsString)
    ensures name != [] && forall i :: 0 <= i < |name| ==> 'a' as int <= name[i] <= 'z' as int
  {
    match kind
    case Incident => Lit("incident")
    case Signal => Lit("signal")
    case Badcase => Lit("badcase")
    case User => Lit("user")
    case Trace => Lit("trace")
  }

  /** A page of the admin console. */
  function AdminPath(page: JsString): (path: JsString)
    requires QUESTION !in page
    ensures QUESTION !in path
  {
    Lit("/admin-console/") + page
  }

  const INCIDENTS := Lit("incidents-badcases")
  const COMMAND_CENTER := Lit("command-center")
  const USERS := Lit("users-accounts")
  const LOGS := Lit("logs-and-traces")

  /** Path of the page that shows a source; the query parameter naming it there is its type. */
  function SourcePath(kind: SourceType): (path: JsString)
    ensures QUESTION !in path
  {
    match kind
    case Incident => AdminPath(INCIDENTS)
    case Signal => AdminPath(COMMAND_CENTER)
    case Badcase => AdminPath(INCIDENTS)
    case User => AdminPath(USERS)
    case Trace => AdminPath(LOGS)
  }

  const FROM := Lit("from")

  /** path?name=encodeURIComponent(value) */
  function Link(path: JsString, name: JsString, value: JsString): Option<JsString> {
    match Uri.EncodeUriComponent(value)
    case None => None
    case Some(t) => Some(path + ([QUESTION] + (name + ([EQUALS] + t))))
  }

  function BuildDrilldownHref(kind: SourceType, id: JsString): Option<JsString> {
    Link(AdminPath(LOGS), FROM, Name(kind) + ([COLON] + id))
  }

  function BuildSourceHref(kind: SourceType, id: JsString): Option<JsString> {
    Link(SourcePath(kind), Name(kind), id)
  }

  /** The characters that a dot in a regular expression does not match. */
  predicate IsLineTerminator(u: int) { u == 10 || u == 13 || u == 0x2028 || u == 0x2029 }

  predicate OneLine(s: JsString) { forall i :: 0 <= i < |s| ==> !IsLineTerminator(s[i]) }

  /** The alternatives of the regular expression, in the order it tries them. */
  const KINDS: seq<SourceType> := [Incident, Signal, Badcase, User, Trace]

  /** The first alternative, from position i on, that value starts with, colon included. */
  function MatchKind(value: JsString, i: nat): (r: Option<SourceType>)
    requires i <= |KINDS|
    ensures r.Some? ==> Name(r.value) + [COLON] <= value
    decreases |KINDS| - i
  {
    if i == |KINDS| then None
    else if Name(KINDS[i]) + [COLON] <= value then Some(KINDS[i])
    else MatchKind(value, i + 1)
  }

  /** The source of a type and what stands after its colon. */
  function SourceFrom(kind: SourceType, id: JsString): ParseResult {
    if id == [] || !OneLine(id) then NoSource
    else match BuildSourceHref(kind, id)
      case None => Throws
      case Some(href) => Found(DrilldownSource(kind, id, Name(kind) + ([COLON] + id), href))
  }

  function ParseDrilldownParam(value: Option<JsString>): ParseResult {
    if value.None? || value.value == [] then NoSource
    else match MatchKind(value.value, 0)
      case None => NoSource
      case Some(kind) => SourceFrom(kind, value.value[|Name(kind)| + 1..])
  }

  // Reading a query parameter back, as URLSearchParams.get does

  function Position(s: JsString, u: Unit): (n: nat)
    ensures n <= |s| && (n < |s| ==> s[n] == u) && forall i :: 0 <= i < n ==> s[i] != u
  {
    if s == [] || s[0] == u then 0 else 1 + Position(s[1..], u)
  }

  function Before(s: JsString, u: Unit): JsString { s[..Position(s, u)] }

  function After(s: JsString, u: Unit): JsString {
    if Position(s, u) < |s| then s[Position(s, u) + 1..] else []
  }

  function PlusToSpace(s: JsString): (t: JsString)
    ensures |t| == |s|
  {
    seq(|s|, i requires 0 <= i < |s| => if s[i] == '+' as int then 0x20 else s[i])
  }

  /** The first parameter called name, form-decoded. */
  function GetParam(query: JsString, name: JsString): Option<JsString>
    decreases |query|
  {
    var pair := Before(query, AMPERSAND);
    if Uri.DecodeUriComponent(PlusToSpace(Before(pair, EQUALS))) == Some(name) then
      Uri.DecodeUriComponent(PlusToSpace(After(pair, EQUALS)))
    else if Position(query, AMPERSAND) < |query| then GetParam(After(query, AMPERSAND), name)
    else None
  }

  function ReadParam(href: JsString, name: JsString): Option<JsString> {
    GetParam(Before(After(href, QUESTION), HASH), name)
  }

  // Characters of a percent-encoded text

  predicate IsPlain(u: int) { Uri.IsUnreserved(u) || u == Uri.PERCENT || IsHex(u) }

  predicate AllPlain(s: JsString) { forall i :: 0 <= i < |s| ==> IsPlain(s[i]) }

  lemma {:induction false} PercentTextPlain(t: JsString)
    requires Uri.IsPercentText(t)
    ensures AllPlain(t)
  {
    if t == [] {
    } else if Uri.IsTriple(t) {
      PercentTextPlain(t[3..]);
      forall i | 0 <= i < |t| ensures IsPlain(t[i]) {
        assert i >= 3 ==> t[i] == t[3..][i - 3];
      }
    } else {
      PercentTextPlain(t[1..]);
    }
  }

  lemma {:induction false} PositionIs(s: JsString, u: Unit, n: nat)
    requires n < |s| && s[n] == u && forall i :: 0 <= i < n ==> s[i] != u
    ensures Position(s, u) == n
  {
  }

  lemma SplitAt(a: JsString, u: Unit, b: JsString)
    requires u !in a
    ensures Before(a + ([u] + b), u) == a && After(a + ([u] + b), u) == b
  {
    PositionIs(a + ([u] + b), u, |a|);
  }

  lemma NotFound(s: JsString, u: Unit)
    requires u !in s
    ensures Before(s, u) == s
  {
  }

  lemma {:induction false} LowercaseDecodesToItself(s: JsString)
    requires forall i :: 0 <= i < |s| ==> 'a' as int <= s[i] <= 'z' as int
    ensures Uri.DecodeUriComponent(s) == Some(s)
  {
    if s != [] {
      LowercaseDecodesToItself(s[1..]);
      assert [s[0]] + s[1..] == s;
    }
  }

  /** The encoded value is the only part of a link that the query reader has to take apart. */
  lemma {:induction false} ReadLink(path: JsString, name: JsString, t: JsString)
    requires QUESTION !in path && AllPlain(t)
    requires name != [] && forall i :: 0 <= i < |name| ==> 'a' as int <= name[i] <= 'z' as int
    ensures ReadParam(path + ([QUESTION] + (name + ([EQUALS] + t))), name) == Uri.DecodeUriComponent(t)
  {
    var query := name + ([EQUALS] + t);
    SplitAt(path, QUESTION, query);
    OnePair(name, t);
    NotFound(query, HASH);
    NotFound(query, AMPERSAND);
    SplitAt(name, EQUALS, t);
    LowercaseDecodesToItself(name);
  }

  lemma OnePair(name: JsString, t: JsString)
    requires AllPlain(t) && forall i :: 0 <= i < |name| ==> 'a' as int <= name[i] <= 'z' as int
    ensures var query := name + ([EQUALS] + t);
      HASH !in query && AMPERSAND !in query && EQUALS !in name && PlusToSpace(t) == t && PlusToSpace(name) == name
  {
  }

  /** A value put into a link comes back out of it, wherever the link could be built. */
  lemma {:induction false} LinkRoundTrip(path: JsString, name: JsString, value: JsString)
    requires QUESTION !in path
    requires name != [] && forall i :: 0 <= i < |name| ==> 'a' as int <= name[i] <= 'z' as int
    ensures Link(path, name, value).Some? <==> WellFormed(value)
    ensures WellFormed(value) ==> ReadParam(Link(path, name, value).value, name) == Some(value)
  {
    Uri.EncodeSucceedsIff(value);
    if WellFormed(value) {
      var t := Uri.EncodeUriComponent(value).value;
      Uri.EncodeIsPercentText(value);
      PercentTextPlain(t);
      ReadLink(path, name, t);
      Uri.DecodeEncodeUri(value);
    }
  }

  // Matching

  lemma NamesDiffer(k: SourceType, l: SourceType, rest: JsString)
    ensures Name(l) + [COLON] <= Name(k) + ([COLON] + rest) ==> k == l
  {
    var s := Name(k) + ([COLON] + rest);
    if Name(l) + [COLON] <= s {
      var n := |Name(l)|;
      assert s[..n] == Name(l) by {
        assert s[..n + 1] == Name(l) + [COLON];
      }
      assert s[n] == (Name(l) + [COLON])[n] == COLON;
      PositionIs(s, COLON, n);
      PositionIs(s, COLON, |Name(k)|);
      assert s[..|Name(k)|] == Name(k);
      NameInjective(k, l);
    }
  }

  lemma NameInjective(k: SourceType, l: SourceType)
    requires Name(k) == Name(l)
    ensures k == l
  {
  }

  lemma {:induction false} MatchPrinted(kind: SourceType, rest: JsString, i: nat)
    requires i <= |KINDS| && exists j :: i <= j < |KINDS| && KINDS[j] == kind
    ensures MatchKind(Name(kind) + ([COLON] + rest), i) == Some(kind)
    decreases |KINDS| - i
  {
    var s := Name(kind) + ([COLON] + rest);
    ConcatAssoc(Name(kind), [COLON], rest);
    NamesDiffer(kind, KINDS[i], rest);
    if KINDS[i] != kind {
      MatchPrinted(kind, rest, i + 1);
    }
  }

  /** None of the four characters that a dot does not match. */
  predicate NoTerminator(s: JsString) { 0x0A !in s && 0x0D !in s && 0x2028 !in s && 0x2029 !in s }

  lemma OneLineIff(s: JsString)
    ensures OneLine(s) <==> NoTerminator(s)
  {
  }

  /** Parsing a printed value finds its type and id exactly when the id is one well-formed line. */
  lemma {:induction false} ParsePrinted(kind: SourceType, id: JsString)
    ensures var r := ParseDrilldownParam(Some(Name(kind) + ([COLON] + id)));
      && (r.Found? <==> id != [] && NoTerminator(id) && WellFormed(id))
      && (r.Found? ==> r.source.kind == kind && r.source.id == id)
      && (r.Throws? <==> id != [] && NoTerminator(id) && !WellFormed(id))
  {
    assert KINDS[0] == Incident && KINDS[1] == Signal && KINDS[2] == Badcase && KINDS[3] == User && KINDS[4] == Trace;
    MatchPrinted(kind, id, 0);
    ConcatAssoc(Name(kind), [COLON], id);
    DropPrefix(Name(kind) + [COLON], id);
    SourceFromIff(kind, id);
  }

  lemma SourceFromIff(kind: SourceType, id: JsString)
    ensures var r := SourceFrom(kind, id);
      && (r.Found? <==> id != [] && NoTerminator(id) && WellFormed(id))
      && (r.Found? ==> r.source.kind == kind && r.source.id == id)
      && (r.Throws? <==> id != [] && NoTerminator(id) && !WellFormed(id))
  {
    HrefIff(kind, id);
    OneLineIff(id);
  }

  lemma HrefIff(kind: SourceType, id: JsString)
    ensures BuildSourceHref(kind, id).Some? <==> WellFormed(id)
  {
    Uri.EncodeSucceedsIff(id);
  }

  /** Whatever parses reprints as itself: type, colon, id. */
  lemma ParseReprints(value: JsString)
    requires ParseDrilldownParam(Some(value)).Found?
    ensures var s := ParseDrilldownParam(Some(value)).source;
      value == Name(s.kind) + ([COLON] + s.id) && s.labelText == value
  {
    var kind := MatchKind(value, 0).value;
    var prefix := Name(kind) + [COLON];
    assert value == prefix + value[|prefix|..];
    ConcatAssoc(Name(kind), [COLON], value[|prefix|..]);
  }

  /**
    * Build the link, take `from` out of it, parse: the source comes back if and only if the id is
    * non-empty, holds no line terminator and no lone surrogate.
    */
  lemma {:induction false} DrilldownRoundTrip(kind: SourceType, id: JsString)
    ensures BuildDrilldownHref(kind, id).Some? <==> WellFormed(id)
    ensures (var href := BuildDrilldownHref(kind, id);
             href.Some? &&
             var r := ParseDrilldownParam(ReadParam(href.value, FROM));
             r.Found? && r.source.kind == kind && r.source.id == id)
            <==> id != [] && NoTerminator(id) && WellFormed(id)
  {
    var value := Name(kind) + ([COLON] + id);
    NameColonWellFormed(kind, id);
    LinkRoundTrip(AdminPath(LOGS), FROM, value);
    ParsePrinted(kind, id);
  }

  lemma NameColonWellFormed(kind: SourceType, id: JsString)
    ensures WellFormed(Name(kind) + ([COLON] + id)) <==> WellFormed(id)
  {
    AsciiPrefixWellFormed([COLON], id);
    AsciiPrefixWellFormed(Name(kind), [COLON] + id);
  }

  lemma {:induction false} AsciiPrefixWellFormed(a: JsString, b: JsString)
    requires forall i :: 0 <= i < |a| ==> a[i] < 128
    ensures WellFormed(a + b) <==> WellFormed(b)
  {
    if a == [] {
      assert a + b == b;
    } else {
      AsciiPrefixWellFormed(a[1..], b);
      assert (a + b)[1..] == a[1..] + b;
    }
  }

  /** The href of a parsed source leads back to its id, under the name of its type. */
  lemma SourceHrefCarriesId(value: JsString)
    requires ParseDrilldownParam(Some(value)).Found?
    ensures var s := ParseDrilldownParam(Some(value)).source;
      ReadParam(s.href, Name(s.kind)) == Some(s.id)
  {
    var s := ParseDrilldownParam(Some(value)).source;
    LinkRoundTrip(SourcePath(s.kind), Name(s.kind), s.id);
  }

  // The texts, written out

  predicate Spells(s: JsString, text: string) {
    |s| == |text| && forall i :: 0 <= i < |s| ==> s[i] == text[i] as int
  }

  lemma SpellsConcat(a: JsString, s: string, b: JsString, t: string)
    requires Spells(a, s) && Spells(b, t)
    ensures Spells(a + b, s + t)
  {
  }

  /** The word of a type, the page that shows it, and the two together with their separators. */
  function Word(kind: SourceType): string {
    match kind
    case Incident => "incident"
    case Signal => "signal"
    case Badcase => "badcase"
    case User => "user"
    case Trace => "trace"
  }

  function Page(kind: SourceType): string {
    match kind
    case Incident => "/admin-console/incidents-badcases"
    case Signal => "/admin-console/command-center"
    case Badcase => "/admin-console/incidents-badcases"
    case User => "/admin-console/users-accounts"
    case Trace => "/admin-console/logs-and-traces"
  }

  lemma NameIsWritten(kind: SourceType)
    ensures Spells(Name(kind), Word(kind))
  {
  }

  lemma IncidentsPage()
    ensures Spells(AdminPath(INCIDENTS), "/admin-console/incidents-badcases")
  {
  }

  lemma CommandPage()
    ensures Spells(AdminPath(COMMAND_CENTER), "/admin-console/command-center")
  {
  }

  lemma UsersPage()
    ensures Spells(AdminPath(USERS), "/admin-console/users-accounts")
  {
  }

  lemma LogsPage()
    ensures Spells(AdminPath(LOGS), "/admin-console/logs-and-traces")
  {
  }

  lemma PageIsWritten(kind: SourceType)
    ensures Spells(SourcePath(kind), Page(kind))
  {
    match kind
    case Signal => CommandPage();
    case User => UsersPage();
    case Trace => LogsPage();
    case _ => IncidentsPage();
  }

  /** The word, a colon, the id. */
  predicate IsLabel(value: JsString, word: string, id: JsString) {
    var n := |word| + 1;
    |value| == n + |id| && Spells(value[..n], word + ":") && value[n..] == id
  }

  /** The page asked for the encoded value under that name. */
  predicate IsLink(href: JsString, page: string, name: string, value: JsString) {
    var n := |page| + |name| + 2;
    n <= |href| && Spells(href[..n], page + "?" + name + "=") && Uri.EncodeUriComponent(value) == Some(href[n..])
  }

  lemma LabelIsWritten(kind: SourceType, id: JsString)
    ensures IsLabel(Name(kind) + ([COLON] + id), Word(kind), id)
  {
    NameIsWritten(kind);
    SpellsConcat(Name(kind), Word(kind), [COLON], ":");
    ConcatAssoc(Name(kind), [COLON], id);
    DropPrefix(Name(kind) + [COLON], id);
  }

  lemma LinkIsWritten(path: JsString, page: string, name: JsString, word: string, value: JsString)
    requires Spells(path, page) && Spells(name, word)
    ensures Link(path, name, value).Some? <==> Uri.EncodeUriComponent(value).Some?
    ensures Link(path, name, value).Some? ==> IsLink(Link(path, name, value).value, page, word, value)
  {
    var start := path + [QUESTION] + name + [EQUALS];
    SpellsConcat(path, page, [QUESTION], "?");
    SpellsConcat(path + [QUESTION], page + "?", name, word);
    SpellsConcat(path + [QUESTION] + name, page + "?" + word, [EQUALS], "=");
    match Uri.EncodeUriComponent(value)
    case None =>
    case Some(t) =>
      assert path + ([QUESTION] + (name + ([EQUALS] + t))) == start + t;
      DropPrefix(start, t);
  }

  /** A parsed value is the type's word, a colon and the id; its link is the type's page asked for the id. */
  lemma {:induction false} ParsedIsWritten(value: JsString)
    requires ParseDrilldownParam(Some(value)).Found?
    ensures var s := ParseDrilldownParam(Some(value)).source;
      && value == s.labelText && IsLabel(value, Word(s.kind), s.id)
      && IsLink(s.href, Page(s.kind), Word(s.kind), s.id)
  {
    var s := ParseDrilldownParam(Some(value)).source;
    ParseReprints(value);
    LabelIsWritten(s.kind, s.id);
    NameIsWritten(s.kind);
    PageIsWritten(s.kind);
    LinkIsWritten(SourcePath(s.kind), Page(s.kind), Name(s.kind), Word(s.kind), s.id);
  }

  /** The link to a source, wherever it can be built, is the logs page asked for the word, a colon and the id. */
  lemma {:induction false} DrilldownIsWritten(kind: SourceType, id: JsString) returns (value: JsString)
    ensures IsLabel(value, Word(kind), id)
    ensures BuildDrilldownHref(kind, id).Some? ==>
              IsLink(BuildDrilldownHref(kind, id).value, "/admin-console/logs-and-traces", "from", value)
  {
    value := Name(kind) + ([COLON] + id);
    LabelIsWritten(kind, id);
    LogsPage();
    LinkIsWritten(AdminPath(LOGS), "/admin-console/logs-and-traces", FROM, "from", value);
  }
}
