/** JSON.stringify and JSON.parse (sections 2 to 7 of RFC 8259), numbers kept as their text. */
module JsonText {
  import opened Lists
  import opened JsText
  import opened Options

  datatype Json =
    | JNull
    | JBool(b: bool)
    | JNumber(text: JsString)
    | JString(s: JsString)
    | JArray(items: seq<Json>)
    | JObject(members: seq<Member>)

  datatype Member = Member(name: JsString, value: Json)

  const QUOTE: Unit := '"' as int
  const BACKSLASH: Unit := '\\' as int
  const COMMA: Unit := ',' as int
  const COLON: Unit := ':' as int
  const OPEN_BRACE: Unit := '{' as int
  const CLOSE_BRACE: Unit := '}' as int
  const OPEN_BRACKET: Unit := '[' as int
  const CLOSE_BRACKET: Unit := ']' as int

  // Printing

  /** \b \t \n \f \r \" \\ have a short escape; this is the letter after the backslash. */
  function ShortEscape(u: Unit): Option<Unit> {
    if u == 8 then Some('b' as int)
    else if u == 9 then Some('t' as int)
    else if u == 10 then Some('n' as int)
    else if u == 12 then Some('f' as int)
    else if u == 13 then Some('r' as int)
    else if u == QUOTE || u == BACKSLASH then Some(u)
    else None
  }

  function HexEscape(u: Unit): (t: JsString)
    ensures |t| == 6 && forall i :: 0 <= i < 6 ==> t[i] < 128
  {
    [BACKSLASH, 'u' as int, HexDigit(u / 4096, false), HexDigit(u / 256 % 16, false),
     HexDigit(u / 16 % 16, false), HexDigit(u % 16, false)]
  }

  /** One unit inside a quoted string. Lone surrogates and control characters become \uXXXX. */
  function QuoteUnit(u: Unit): (t: JsString)
    ensures t != []
  {
    match ShortEscape(u)
    case Some(letter) => [BACKSLASH, letter]
    case None => if u < 0x20 || IsSurrogate(u) then HexEscape(u) else [u]
  }

  function QuoteBody(s: JsString): JsString {
    if s == [] then []
    else if StartsWithPair(s) then s[..2] + QuoteBody(s[2..])
    else QuoteUnit(s[0]) + QuoteBody(s[1..])
  }

  function Quote(s: JsString): JsString {
    [QUOTE] + QuoteBody(s) + [QUOTE]
  }

  function Count(v: Json): nat {
    match v
    case JArray(items) => |items|
    case JObject(members) => |members|
    case _ => 0
  }

  /** JSON.stringify. */
  function Stringify(v: Json): JsString
    decreases v, Count(v) + 1
  {
    match v
    case JNull => Lit("null")
    case JBool(b) => if b then Lit("true") else Lit("false")
    case JNumber(t) => t
    case JString(s) => Quote(s)
    case JArray(items) => [OPEN_BRACKET] + (StringifyFrom(v, 0) + [CLOSE_BRACKET])
    case JObject(ms) => [OPEN_BRACE] + (StringifyFrom(v, 0) + [CLOSE_BRACE])
  }

  /** The items or members from the i-th on, with commas between. */
  function StringifyFrom(v: Json, i: nat): JsString
    requires i <= Count(v)
    decreases v, Count(v) - i
  {
    if i == Count(v) then []
    else
      var part :=
        if v.JArray? then Stringify(v.items[i])
        else Quote(v.members[i].name) + ([COLON] + Stringify(v.members[i].value));
      if i + 1 == Count(v) then part else part + ([COMMA] + StringifyFrom(v, i + 1))
  }

  // Parsing

  /** What a parsing function reports: what it read and what is left, or a SyntaxError. */
  datatype Parsed<+T> = Bad | Got(value: T, rest: JsString)

  predicate IsSpace(u: int) { u == 0x20 || u == 9 || u == 10 || u == 13 }

  predicate IsDigit(u: int) { '0' as int <= u <= '9' as int }

  function SkipSpaces(s: JsString): (t: JsString)
    ensures |t| <= |s|
  {
    if s != [] && IsSpace(s[0]) then SkipSpaces(s[1..]) else s
  }

  function Unescaped(letter: Unit): Option<Unit> {
    if letter == QUOTE || letter == BACKSLASH || letter == '/' as int then Some(letter)
    else if letter == 'b' as int then Some(8)
    else if letter == 't' as int then Some(9)
    else if letter == 'n' as int then Some(10)
    else if letter == 'f' as int then Some(12)
    else if letter == 'r' as int then Some(13)
    else None
  }

  predicate IsHexEscape(s: JsString) {
    |s| >= 6 && s[0] == BACKSLASH && s[1] == 'u' as int &&
    IsHex(s[2]) && IsHex(s[3]) && IsHex(s[4]) && IsHex(s[5])
  }

  function HexEscapeValue(s: JsString): Unit
    requires IsHexEscape(s)
  {
    HexValue(s[2]) * 4096 + HexValue(s[3]) * 256 + HexValue(s[4]) * 16 + HexValue(s[5])
  }

  /** The inside of a string literal up to and including its closing quote. */
  function ParseBody(s: JsString): (r: Parsed<JsString>)
    ensures r.Got? ==> |r.rest| < |s|
  {
    if s == [] || s[0] < 0x20 then Bad
    else if s[0] == QUOTE then Got([], s[1..])
    else if s[0] != BACKSLASH then Cons(s[0], ParseBody(s[1..]))
    else if IsHexEscape(s) then Cons(HexEscapeValue(s), ParseBody(s[6..]))
    else if |s| >= 2 && Unescaped(s[1]).Some? then Cons(Unescaped(s[1]).value, ParseBody(s[2..]))
    else Bad
  }

  function Cons(u: Unit, r: Parsed<JsString>): Parsed<JsString> {
    match r
    case Bad => Bad
    case Got(v, rest) => Got([u] + v, rest)
  }

  function CountDigits(s: JsString): (n: nat)
    ensures n <= |s|
  {
    if s != [] && IsDigit(s[0]) then 1 + CountDigits(s[1..]) else 0
  }

  /** Where the whole part of the number at the start of s ends, 0 when there is none. */
  function WholeEnd(s: JsString): (n: nat)
    ensures n <= |s|
  {
    var sign := if s != [] && s[0] == '-' as int then 1 else 0;
    var whole := CountDigits(s[sign..]);
    if whole == 0 then 0 else sign + (if s[sign] == '0' as int then 1 else whole)
  }

  /** Where a fraction that starts at i ends, i when there is none. */
  function FractionEnd(s: JsString, i: nat): (n: nat)
    requires i <= |s|
    ensures i <= n <= |s|
  {
    var digits := if i < |s| && s[i] == '.' as int then CountDigits(s[i + 1..]) else 0;
    if digits == 0 then i else i + 1 + digits
  }

  function ExponentEnd(s: JsString, i: nat): (n: nat)
    requires i <= |s|
    ensures i <= n <= |s|
  {
    var sign := if i + 1 < |s| && (s[i + 1] == '+' as int || s[i + 1] == '-' as int) then 2 else 1;
    var digits :=
      if i < |s| && (s[i] == 'e' as int || s[i] == 'E' as int) && i + sign <= |s| then CountDigits(s[i + sign..])
      else 0;
    if digits == 0 then i else i + sign + digits
  }

  /** Length of the number at the start of s, 0 when there is none. */
  function NumberLength(s: JsString): (n: nat)
    ensures n <= |s|
  {
    if WholeEnd(s) == 0 then 0 else ExponentEnd(s, FractionEnd(s, WholeEnd(s)))
  }

  function ParseLiteral(s: JsString, word: JsString, v: Json): (r: Parsed<Json>)
    requires word != []
    ensures r.Got? ==> |r.rest| < |s|
  {
    if word <= s then Got(v, s[|word|..]) else Bad
  }

  /** A later member of the same name replaces the value of the earlier one. */
  function Put(ms: seq<Member>, m: Member): seq<Member> {
    if ms == [] then [m]
    else if ms[0].name == m.name then [m] + ms[1..]
    else [ms[0]] + Put(ms[1..], m)
  }

  function ParseValue(text: JsString): (r: Parsed<Json>)
    ensures r.Got? ==> |r.rest| < |text|
    decreases |text|, 1
  {
    var s := SkipSpaces(text);
    if s == [] then Bad
    else if s[0] == QUOTE then
      (match ParseBody(s[1..])
       case Bad => Bad
       case Got(v, rest) => Got(JString(v), rest))
    else if s[0] == '{' as int then
      var t := SkipSpaces(s[1..]);
      if t != [] && t[0] == '}' as int then Got(JObject([]), t[1..]) else ParseMembers(t, [])
    else if s[0] == '[' as int then
      var t := SkipSpaces(s[1..]);
      if t != [] && t[0] == ']' as int then Got(JArray([]), t[1..]) else ParseItems(t, [])
    else if s[0] == 't' as int then ParseLiteral(s, Lit("true"), JBool(true))
    else if s[0] == 'f' as int then ParseLiteral(s, Lit("false"), JBool(false))
    else if s[0] == 'n' as int then ParseLiteral(s, Lit("null"), JNull)
    else
      var n := NumberLength(s);
      if n == 0 then Bad else Got(JNumber(s[..n]), s[n..])
  }

  /** The members after the opening brace, given those read before. */
  function ParseMembers(text: JsString, acc: seq<Member>): (r: Parsed<Json>)
    ensures r.Got? ==> |r.rest| < |text|
    decreases |text|, 0
  {
    var s := SkipSpaces(text);
    if s == [] || s[0] != QUOTE then Bad
    else match ParseBody(s[1..])
      case Bad => Bad
      case Got(name, afterName) =>
        var t := SkipSpaces(afterName);
        if t == [] || t[0] != ':' as int then Bad
        else match ParseValue(t[1..])
          case Bad => Bad
          case Got(v, afterValue) =>
            var u := SkipSpaces(afterValue);
            var ms := Put(acc, Member(name, v));
            if u == [] then Bad
            else if u[0] == '}' as int then Got(JObject(ms), u[1..])
            else if u[0] == ',' as int then ParseMembers(u[1..], ms)
            else Bad
  }

  /** The items after the opening bracket, given those read before. */
  function ParseItems(text: JsString, acc: seq<Json>): (r: Parsed<Json>)
    ensures r.Got? ==> |r.rest| < |text|
    decreases |text|, 2
  {
    match ParseValue(text)
    case Bad => Bad
    case Got(v, afterValue) =>
      var u := SkipSpaces(afterValue);
      if u == [] then Bad
      else if u[0] == ']' as int then Got(JArray(acc + [v]), u[1..])
      else if u[0] == ',' as int then ParseItems(u[1..], acc + [v])
      else Bad
  }

  /** JSON.parse; None is the SyntaxError. */
  function Parse(text: JsString): Option<Json> {
    match ParseValue(text)
    case Bad => None
    case Got(v, rest) => if SkipSpaces(rest) == [] then Some(v) else None
  }

  // Round trip

  /** One quoted unit in front of any text is read back as that unit. */
  lemma {:induction false} ParseQuoteUnit(u: Unit, rest: JsString)
    ensures ParseBody(QuoteUnit(u) + rest) == Cons(u, ParseBody(rest))
  {
    var t := QuoteUnit(u) + rest;
    DropPrefix(QuoteUnit(u), rest);
    if ShortEscape(u).Some? {
      ParseShortEscape(u, ShortEscape(u).value, rest);
    } else if u < 0x20 || IsSurrogate(u) {
      HexEscapeRoundTrip(u, t);
    }
  }

  lemma ParseShortEscape(u: Unit, letter: Unit, rest: JsString)
    requires ShortEscape(u) == Some(letter)
    ensures ParseBody([BACKSLASH, letter] + rest) == Cons(u, ParseBody(rest))
  {
  }

  lemma {:induction false} HexEscapeRoundTrip(u: Unit, t: JsString)
    requires HexEscape(u) <= t
    ensures IsHexEscape(t) && HexEscapeValue(t) == u
  {
    var h := HexEscape(u);
    assert t[0] == h[0] && t[1] == h[1] && t[2] == h[2] && t[3] == h[3] && t[4] == h[4] && t[5] == h[5];
    assert HexEscapeValue(t) == u / 4096 * 4096 + u / 256 % 16 * 256 + u / 16 % 16 * 16 + u % 16;
    HexDigitsSum(u);
  }

  lemma HexDigitsSum(u: int)
    requires 0 <= u < 0x1_0000
    ensures u / 4096 * 4096 + u / 256 % 16 * 256 + u / 16 % 16 * 16 + u % 16 == u
  {
    var a := u / 16;
    var b := a / 16;
    assert u / 256 == b && u / 4096 == b / 16;
    assert u == a * 16 + u % 16 && a == b * 16 + a % 16 && b == b / 16 * 16 + b % 16;
  }

  lemma ParsePlainUnit(u: Unit, rest: JsString)
    requires u >= 0x20 && u != QUOTE && u != BACKSLASH
    ensures ParseBody([u] + rest) == Cons(u, ParseBody(rest))
  {
  }

  lemma ParseQuotedPair(s: JsString, end: JsString)
    requires StartsWithPair(s)
    ensures ParseBody(QuoteBody(s) + end) == Cons(s[0], Cons(s[1], ParseBody(QuoteBody(s[2..]) + end)))
  {
    var t := QuoteBody(s[2..]) + end;
    assert QuoteBody(s) == s[..2] + QuoteBody(s[2..]);
    assert QuoteBody(s) + end == [s[0]] + ([s[1]] + t);
    ParsePlainUnit(s[1], t);
    ParsePlainUnit(s[0], [s[1]] + t);
  }

  lemma {:induction false} ParseQuotedUnit(s: JsString, end: JsString)
    requires s != [] && !StartsWithPair(s)
    ensures ParseBody(QuoteBody(s) + end) == Cons(s[0], ParseBody(QuoteBody(s[1..]) + end))
  {
    var t := QuoteBody(s[1..]);
    assert QuoteBody(s) == QuoteUnit(s[0]) + t;
    assert QuoteUnit(s[0]) + t + end == QuoteUnit(s[0]) + (t + end);
    ParseQuoteUnit(s[0], t + end);
  }

  lemma {:induction false} ParseQuoteBody(s: JsString, end: JsString)
    requires end != [] && end[0] == QUOTE
    ensures ParseBody(QuoteBody(s) + end) == Got(s, end[1..])
  {
    if s == [] {
      assert QuoteBody(s) + end == end;
    } else if StartsWithPair(s) {
      ParseQuotedPair(s, end);
      ParseQuoteBody(s[2..], end);
      ConsFirst(s[1..], end[1..]);
      ConsFirst(s, end[1..]);
    } else {
      ParseQuotedUnit(s, end);
      ParseQuoteBody(s[1..], end);
      ConsFirst(s, end[1..]);
    }
  }

  lemma ConsFirst(s: JsString, rest: JsString)
    requires s != []
    ensures Cons(s[0], Got(s[1..], rest)) == Got(s, rest)
    ensures |s| > 1 ==> s[1..][0] == s[1] && s[1..][1..] == s[2..]
  {
    assert [s[0]] + s[1..] == s;
  }

  lemma {:induction false} PutNew(ms: seq<Member>, m: Member)
    requires forall i :: 0 <= i < |ms| ==> ms[i].name != m.name
    ensures Put(ms, m) == ms + [m]
  {
    if ms != [] {
      PutNew(ms[1..], m);
    }
  }

  lemma ParseQuotedValue(s: JsString, rest: JsString)
    ensures ParseValue(Quote(s) + rest) == Got(JString(s), rest)
  {
    ParseQuoted(s, rest);
    assert SkipSpaces(Quote(s) + rest) == Quote(s) + rest;
  }

  lemma ParseQuoted(s: JsString, rest: JsString)
    ensures var t := Quote(s) + rest;
      t[0] == QUOTE && ParseBody(t[1..]) == Got(s, rest)
  {
    var t := Quote(s) + rest;
    var end := [QUOTE] + rest;
    assert t[1..] == QuoteBody(s) + end;
    ParseQuoteBody(s, end);
    assert end[1..] == rest;
  }

  /** What ParseMembers does once the parts of the first member are known. */
  lemma ParseMember(s: JsString, name: JsString, value: JsString, v: Json, u: JsString, acc: seq<Member>)
    requires s != [] && s[0] == QUOTE
    requires ParseBody(s[1..]) == Got(name, [':' as int] + value)
    requires ParseValue(value) == Got(v, u)
    requires u != [] && !IsSpace(u[0])
    ensures ParseMembers(s, acc) ==
            var ms := Put(acc, Member(name, v));
            if u[0] == '}' as int then Got(JObject(ms), u[1..])
            else if u[0] == ',' as int then ParseMembers(u[1..], ms)
            else Bad
  {
    var colon := [':' as int] + value;
    assert SkipSpaces(s) == s && SkipSpaces(colon) == colon && SkipSpaces(u) == u;
    assert colon[1..] == value;
  }

  // What is printed holds no lone surrogate

  lemma {:induction false} QuoteBodyWellFormed(s: JsString)
    ensures WellFormed(QuoteBody(s))
  {
    if s == [] {
    } else if StartsWithPair(s) {
      QuoteBodyWellFormed(s[2..]);
      assert (s[..2] + QuoteBody(s[2..]))[2..] == QuoteBody(s[2..]);
    } else {
      QuoteBodyWellFormed(s[1..]);
      var t := QuoteUnit(s[0]);
      if !(t == [s[0]]) {
        AsciiWellFormed(t);
      }
      WellFormedConcat(t, QuoteBody(s[1..]));
    }
  }

  lemma QuoteWellFormed(s: JsString)
    ensures WellFormed(Quote(s))
  {
    QuoteBodyWellFormed(s);
    AsciiWellFormed([QUOTE]);
    WellFormedConcat([QUOTE], QuoteBody(s));
    WellFormedConcat([QUOTE] + QuoteBody(s), [QUOTE]);
  }

  // The escapes, written out

  /** The letters of the short escapes that are printed, and the units they stand for. */
  const SHORT_ESCAPES := "\"\\bfnrt"
  const ESCAPED: seq<Unit> := [0x22, 0x5C, 8, 12, 10, 13, 9]

  /** Units that are printed escaped: the seven with a letter, other controls, and lone surrogates. */
  lemma QuoteUnitWritten(u: Unit)
    ensures |SHORT_ESCAPES| == |ESCAPED| == 7
    ensures forall k :: 0 <= k < 7 && u == ESCAPED[k] ==> QuoteUnit(u) == ['\\' as int, SHORT_ESCAPES[k] as int]
    ensures u !in ESCAPED ==>
              QuoteUnit(u) == if u <= 0x1F || 0xD800 <= u <= 0xDFFF then HexEscape(u) else [u]
  {
  }

  /** A hexadecimal escape is \u and four digits of the unit. */
  lemma HexEscapeWritten(u: Unit)
    ensures HexEscape(u)[..2] == Lit("\\u")
    ensures var t := HexEscape(u);
      ((HexValue(t[2]) * 16 + HexValue(t[3])) * 16 + HexValue(t[4])) * 16 + HexValue(t[5]) == u
  {
    HexDigitsSum(u);
  }

  /** Every short escape is read as its unit, the slash included. */
  lemma ShortEscapeRead(k: nat, rest: JsString)
    requires k < 7
    ensures ParseBody(['\\' as int, SHORT_ESCAPES[k] as int] + rest) == Cons(ESCAPED[k], ParseBody(rest))
    ensures ParseBody(['\\' as int, '/' as int] + rest) == Cons('/' as int, ParseBody(rest))
  {
  }
}
