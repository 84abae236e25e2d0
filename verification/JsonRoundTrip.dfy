/** JSON.parse on whole JSON values, as section 2 of RFC 8259 writes them. */
module JsonRoundTrip {
  import opened Lists
  import opened JsText
  import opened JsonText
  import opened Options

  /** Numbers are written as the grammar has them, and no object has a name twice. */
  predicate Proper(v: Json) {
    match v
    case JNumber(t) => t != [] && NumberLength(t) == |t|
    case JArray(items) => forall i :: 0 <= i < |items| ==> Proper(items[i])
    case JObject(ms) =>
      (forall i :: 0 <= i < |ms| ==> Proper(ms[i].value)) &&
      forall i, j :: 0 <= i < j < |ms| ==> ms[i].name != ms[j].name
    case _ => true
  }

  /** What may stand after a value. */
  predicate Delimited(rest: JsString) {
    rest == [] || rest[0] == COMMA || rest[0] == CLOSE_BRACE || rest[0] == CLOSE_BRACKET || IsSpace(rest[0])
  }

  // Numbers

  lemma {:induction false} DigitsThen(t: JsString, rest: JsString)
    requires rest == [] || !IsDigit(rest[0])
    ensures CountDigits(t + rest) == CountDigits(t)
  {
    if t != [] {
      assert (t + rest)[1..] == t[1..] + rest;
      DigitsThen(t[1..], rest);
    } else {
      assert t + rest == rest;
    }
  }

  lemma DigitsFrom(t: JsString, rest: JsString, k: nat)
    requires k <= |t| && (rest == [] || !IsDigit(rest[0]))
    ensures CountDigits((t + rest)[k..]) == CountDigits(t[k..])
  {
    assert (t + rest)[k..] == t[k..] + rest;
    DigitsThen(t[k..], rest);
  }

  lemma WholeThen(t: JsString, rest: JsString)
    requires Delimited(rest)
    ensures WholeEnd(t + rest) == WholeEnd(t)
  {
    var sign := if t != [] && t[0] == '-' as int then 1 else 0;
    DigitsFrom(t, rest, sign);
    assert t == [] ==> t + rest == rest;
  }

  lemma FractionThen(t: JsString, rest: JsString, i: nat)
    requires i <= |t| && Delimited(rest)
    ensures FractionEnd(t + rest, i) == FractionEnd(t, i)
  {
    if i < |t| {
      DigitsFrom(t, rest, i + 1);
    }
  }

  lemma ExponentThen(t: JsString, rest: JsString, i: nat)
    requires i <= |t| && Delimited(rest)
    ensures ExponentEnd(t + rest, i) == ExponentEnd(t, i)
  {
    if i < |t| {
      DigitsFrom(t, rest, i + 1);
      if i + 1 < |t| {
        DigitsFrom(t, rest, i + 2);
      }
    }
  }

  /** A number ends where its text does, whatever delimiter follows. */
  lemma NumberThen(t: JsString, rest: JsString)
    requires Delimited(rest)
    ensures NumberLength(t + rest) == NumberLength(t)
  {
    WholeThen(t, rest);
    FractionThen(t, rest, WholeEnd(t));
    ExponentThen(t, rest, FractionEnd(t, WholeEnd(t)));
  }

  lemma NumberStarts(t: JsString)
    requires t != [] && NumberLength(t) == |t|
    ensures t[0] == '-' as int || IsDigit(t[0])
  {
  }

  // Values

  lemma LiteralThen(word: JsString, rest: JsString, v: Json)
    requires word != []
    ensures ParseLiteral(word + rest, word, v) == Got(v, rest)
  {
    DropPrefix(word, rest);
  }

  /** A value that starts with its own first unit, which is no space. */
  lemma TextStarts(v: Json)
    requires Proper(v)
    ensures var t := Stringify(v);
      t != [] && !IsSpace(t[0]) && t[0] != CLOSE_BRACKET && t[0] != CLOSE_BRACE
  {
    if v.JNumber? {
      NumberStarts(v.text);
    }
  }

  lemma ParsePlain(v: Json, rest: JsString)
    requires Proper(v) && !v.JArray? && !v.JObject? && Delimited(rest)
    ensures ParseValue(Stringify(v) + rest) == Got(v, rest)
  {
    var s := Stringify(v) + rest;
    TextStarts(v);
    assert SkipSpaces(s) == s;
    match v
    case JNull => LiteralThen(Lit("null"), rest, v);
    case JBool(b) => LiteralThen(if b then Lit("true") else Lit("false"), rest, v);
    case JString(t) => ParseQuotedValue(t, rest);
    case JNumber(t) =>
      NumberStarts(t);
      NumberThen(t, rest);
      DropPrefix(t, rest);
  }

  /** What ParseItems does once the first item is known. */
  lemma ParseItem(text: JsString, w: Json, tail: JsString, acc: seq<Json>)
    requires ParseValue(text) == Got(w, tail) && tail != [] && !IsSpace(tail[0])
    ensures ParseItems(text, acc) ==
            if tail[0] == CLOSE_BRACKET then Got(JArray(acc + [w]), tail[1..])
            else if tail[0] == COMMA then ParseItems(tail[1..], acc + [w])
            else Bad
  {
    assert SkipSpaces(tail) == tail;
  }

  /** The text of the i-th item or member, what follows it, and what follows the whole. */
  function Tail(v: Json, i: nat, end: JsString): JsString
    requires i < Count(v)
  {
    if i + 1 == Count(v) then end else [COMMA] + (StringifyFrom(v, i + 1) + end)
  }

  /** The text of one item, or of one member with its name. */
  function Part(v: Json, i: nat): JsString
    requires i < Count(v)
  {
    if v.JArray? then Stringify(v.items[i]) else Quote(v.members[i].name) + ([COLON] + Stringify(v.members[i].value))
  }

  lemma PartThenTail(v: Json, i: nat, end: JsString)
    requires i < Count(v)
    ensures StringifyFrom(v, i) + end == Part(v, i) + Tail(v, i, end)
  {
    if i + 1 < Count(v) {
      ConcatAssoc(Part(v, i), [COMMA] + StringifyFrom(v, i + 1), end);
      ConcatAssoc([COMMA], StringifyFrom(v, i + 1), end);
    }
  }

  /** After the last part comes the end, after another a comma and the next one. */
  lemma TailStarts(v: Json, i: nat, end: JsString)
    requires i < Count(v) && end != [] && Delimited(end)
    ensures var tail := Tail(v, i, end);
      tail != [] && Delimited(tail) && tail[0] == (if i + 1 == Count(v) then end[0] else COMMA) &&
      tail[1..] == if i + 1 == Count(v) then end[1..] else StringifyFrom(v, i + 1) + end
  {
  }

  lemma ItemRead(v: Json, i: nat, end: JsString)
    requires v.JArray? && i < Count(v) && end != [] && end[0] == CLOSE_BRACKET
    requires ParseValue(Stringify(v.items[i]) + Tail(v, i, end)) == Got(v.items[i], Tail(v, i, end))
    ensures ParseItems(StringifyFrom(v, i) + end, v.items[..i]) ==
            if i + 1 == Count(v) then Got(v, end[1..])
            else ParseItems(StringifyFrom(v, i + 1) + end, v.items[..i + 1])
  {
    PartThenTail(v, i, end);
    TailStarts(v, i, end);
    ItemsGrow(v, i);
    ParseItem(Stringify(v.items[i]) + Tail(v, i, end), v.items[i], Tail(v, i, end), v.items[..i]);
  }

  lemma ItemsGrow(v: Json, i: nat)
    requires v.JArray? && i < Count(v)
    ensures v.items[..i] + [v.items[i]] == v.items[..i + 1] && (i + 1 == Count(v) ==> JArray(v.items[..i + 1]) == v)
  {
  }

  lemma NamedMember(m: Member, text: JsString, tail: JsString, acc: seq<Member>)
    requires ParseValue(text + tail) == Got(m.value, tail) && tail != [] && !IsSpace(tail[0])
    ensures ParseMembers(Quote(m.name) + ([COLON] + (text + tail)), acc) ==
            var ms := Put(acc, m);
            if tail[0] == CLOSE_BRACE then Got(JObject(ms), tail[1..])
            else if tail[0] == COMMA then ParseMembers(tail[1..], ms)
            else Bad
  {
    ParseQuoted(m.name, [COLON] + (text + tail));
    ParseMember(Quote(m.name) + ([COLON] + (text + tail)), m.name, text + tail, m.value, tail, acc);
  }

  lemma MemberPut(v: Json, i: nat)
    requires v.JObject? && i < Count(v) && Proper(v)
    ensures Put(v.members[..i], v.members[i]) == v.members[..i + 1]
  {
    PutNew(v.members[..i], v.members[i]);
  }

  lemma MemberRead(v: Json, i: nat, end: JsString)
    requires v.JObject? && i < Count(v) && end != [] && end[0] == CLOSE_BRACE && Proper(v)
    requires ParseValue(Stringify(v.members[i].value) + Tail(v, i, end)) == Got(v.members[i].value, Tail(v, i, end))
    ensures ParseMembers(StringifyFrom(v, i) + end, v.members[..i]) ==
            if i + 1 == Count(v) then Got(v, end[1..])
            else ParseMembers(StringifyFrom(v, i + 1) + end, v.members[..i + 1])
  {
    TailStarts(v, i, end);
    MemberThenTail(v, i, end);
    NamedMember(v.members[i], Stringify(v.members[i].value), Tail(v, i, end), v.members[..i]);
    MemberPut(v, i);
    assert i + 1 == Count(v) ==> v.members[..i + 1] == v.members;
  }

  lemma MemberThenTail(v: Json, i: nat, end: JsString)
    requires v.JObject? && i < Count(v)
    ensures StringifyFrom(v, i) + end ==
            Quote(v.members[i].name) + ([COLON] + (Stringify(v.members[i].value) + Tail(v, i, end)))
  {
    var name, value := Quote(v.members[i].name), Stringify(v.members[i].value);
    PartThenTail(v, i, end);
    ConcatAssoc(name, [COLON] + value, Tail(v, i, end));
    ConcatAssoc([COLON], value, Tail(v, i, end));
  }

  lemma {:induction false} ParseItemsFrom(v: Json, i: nat, rest: JsString)
    requires Proper(v) && v.JArray? && i < Count(v)
    ensures ParseItems(StringifyFrom(v, i) + ([CLOSE_BRACKET] + rest), v.items[..i]) == Got(v, rest)
    decreases v, Count(v) - i
  {
    var end := [CLOSE_BRACKET] + rest;
    TailStarts(v, i, end);
    ParseText(v.items[i], Tail(v, i, end));
    ItemRead(v, i, end);
    if i + 1 == Count(v) {
      DropPrefix([CLOSE_BRACKET], rest);
    } else {
      ParseItemsFrom(v, i + 1, rest);
    }
  }

  lemma {:induction false} ParseMembersFrom(v: Json, i: nat, rest: JsString)
    requires Proper(v) && v.JObject? && i < Count(v)
    ensures ParseMembers(StringifyFrom(v, i) + ([CLOSE_BRACE] + rest), v.members[..i]) == Got(v, rest)
    decreases v, Count(v) - i
  {
    var end := [CLOSE_BRACE] + rest;
    TailStarts(v, i, end);
    ParseText(v.members[i].value, Tail(v, i, end));
    MemberRead(v, i, end);
    if i + 1 == Count(v) {
      DropPrefix([CLOSE_BRACE], rest);
    } else {
      ParseMembersFrom(v, i + 1, rest);
    }
  }

  lemma OpenArray(t: JsString)
    requires t != [] && !IsSpace(t[0])
    ensures ParseValue([OPEN_BRACKET] + t) ==
            if t[0] == CLOSE_BRACKET then Got(JArray([]), t[1..]) else ParseItems(t, [])
  {
    DropPrefix([OPEN_BRACKET], t);
    assert SkipSpaces([OPEN_BRACKET] + t) == [OPEN_BRACKET] + t && SkipSpaces(t) == t;
  }

  lemma OpenObject(t: JsString)
    requires t != [] && !IsSpace(t[0])
    ensures ParseValue([OPEN_BRACE] + t) ==
            if t[0] == CLOSE_BRACE then Got(JObject([]), t[1..]) else ParseMembers(t, [])
  {
    DropPrefix([OPEN_BRACE], t);
    assert SkipSpaces([OPEN_BRACE] + t) == [OPEN_BRACE] + t && SkipSpaces(t) == t;
  }

  lemma FirstStarts(v: Json, end: JsString)
    requires Proper(v) && Count(v) > 0
    ensures var t := StringifyFrom(v, 0) + end;
      t != [] && !IsSpace(t[0]) && t[0] != CLOSE_BRACKET && t[0] != CLOSE_BRACE
  {
    if v.JArray? {
      TextStarts(v.items[0]);
    }
  }

  lemma ArrayRead(v: Json, rest: JsString)
    requires Proper(v) && v.JArray?
    requires Count(v) > 0 ==> ParseItems(StringifyFrom(v, 0) + ([CLOSE_BRACKET] + rest), []) == Got(v, rest)
    ensures ParseValue(Stringify(v) + rest) == Got(v, rest)
  {
    var end := [CLOSE_BRACKET] + rest;
    assert Stringify(v) + rest == [OPEN_BRACKET] + (StringifyFrom(v, 0) + end);
    if Count(v) == 0 {
      EmptyFirst(end);
      OpenArray(end);
    } else {
      FirstStarts(v, end);
      OpenArray(StringifyFrom(v, 0) + end);
    }
  }

  lemma ObjectRead(v: Json, rest: JsString)
    requires Proper(v) && v.JObject?
    requires Count(v) > 0 ==> ParseMembers(StringifyFrom(v, 0) + ([CLOSE_BRACE] + rest), []) == Got(v, rest)
    ensures ParseValue(Stringify(v) + rest) == Got(v, rest)
  {
    var end := [CLOSE_BRACE] + rest;
    assert Stringify(v) + rest == [OPEN_BRACE] + (StringifyFrom(v, 0) + end);
    if Count(v) == 0 {
      EmptyFirst(end);
      OpenObject(end);
    } else {
      FirstStarts(v, end);
      OpenObject(StringifyFrom(v, 0) + end);
    }
  }

  /** A printed value is read back, whatever delimiter follows. */
  lemma {:induction false} ParseText(v: Json, rest: JsString)
    requires Proper(v) && Delimited(rest)
    ensures ParseValue(Stringify(v) + rest) == Got(v, rest)
    decreases v, Count(v) + 1
  {
    if v.JArray? {
      if Count(v) > 0 {
        ParseItemsFrom(v, 0, rest);
        assert v.items[..0] == [];
      }
      ArrayRead(v, rest);
    } else if v.JObject? {
      if Count(v) > 0 {
        ParseMembersFrom(v, 0, rest);
        assert v.members[..0] == [];
      }
      ObjectRead(v, rest);
    } else {
      ParsePlain(v, rest);
    }
  }

  /** JSON.parse gives every value back from its text, at any depth. */
  lemma ParseStringify(v: Json)
    requires Proper(v)
    ensures Parse(Stringify(v)) == Some(v)
  {
    ParseText(v, []);
    assert Stringify(v) + [] == Stringify(v);
  }

  /** Only spaces, tabs and line breaks. */
  predicate SpacesOnly(t: JsString) {
    forall i :: 0 <= i < |t| ==> t[i] == 0x20 || t[i] == 0x09 || t[i] == 0x0A || t[i] == 0x0D
  }

  /** They make no difference before and after a value. */
  lemma {:induction false} SpacesSkipped(before: JsString, v: Json, after: JsString)
    requires Proper(v) && SpacesOnly(before) && SpacesOnly(after)
    ensures Parse(before + (Stringify(v) + after)) == Some(v)
  {
    ParseText(v, after);
    TextStarts(v);
    SkipAll(before, Stringify(v) + after);
    SkipAll(after, []);
    assert after + [] == after;
    assert SkipSpaces(Stringify(v) + after) == Stringify(v) + after;
  }

  lemma {:induction false} SkipAll(spaces: JsString, rest: JsString)
    requires SpacesOnly(spaces)
    ensures SkipSpaces(spaces + rest) == SkipSpaces(rest)
  {
    if spaces == [] {
      assert spaces + rest == rest;
    } else {
      assert (spaces + rest)[1..] == spaces[1..] + rest;
      SkipAll(spaces[1..], rest);
    }
  }

  /** A name that comes twice has the value that comes last. */
  lemma {:induction false} LastOneWins(ms: seq<Member>, m: Member, name: JsString)
    ensures ValueOf(Put(ms, m), name) == if name == m.name then Some(m.value) else ValueOf(ms, name)
  {
    if ms != [] {
      LastOneWins(ms[1..], m, name);
    }
  }

  function ValueOf(ms: seq<Member>, name: JsString): Option<Json> {
    if ms == [] then None else if ms[0].name == name then Some(ms[0].value) else ValueOf(ms[1..], name)
  }

  // What is printed holds no lone surrogate

  predicate Ascii(t: JsString) { forall i :: 0 <= i < |t| ==> t[i] < 128 }

  lemma {:induction false} DigitsAscii(t: JsString)
    ensures Ascii(t[..CountDigits(t)])
  {
    if t != [] && IsDigit(t[0]) {
      DigitsAscii(t[1..]);
      assert t[..CountDigits(t)] == [t[0]] + t[1..][..CountDigits(t[1..])];
    }
  }

  lemma AsciiOn(t: JsString, i: nat, n: nat, digits: nat)
    requires i + n + digits <= |t| && Ascii(t[..i]) && Ascii(t[i..i + n]) && Ascii(t[i + n..][..digits])
    ensures Ascii(t[..i + n + digits])
  {
    var all := t[..i + n + digits];
    forall k | 0 <= k < |all| ensures all[k] < 128 {
      if k < i {
        assert all[k] == t[..i][k];
      } else if k < i + n {
        assert all[k] == t[i..i + n][k - i];
      } else {
        assert all[k] == t[i + n..][..digits][k - i - n];
      }
    }
  }

  lemma WholeAscii(t: JsString)
    ensures Ascii(t[..WholeEnd(t)])
  {
    var sign := if t != [] && t[0] == '-' as int then 1 else 0;
    DigitsAscii(t[sign..]);
    forall k | 0 <= k < WholeEnd(t) ensures t[..WholeEnd(t)][k] < 128 {
      assert k >= sign ==> t[k] == t[sign..][..CountDigits(t[sign..])][k - sign];
    }
  }

  lemma FractionAscii(t: JsString, i: nat)
    requires i <= |t| && Ascii(t[..i])
    ensures Ascii(t[..FractionEnd(t, i)])
  {
    if FractionEnd(t, i) > i {
      DigitsAscii(t[i + 1..]);
      AsciiOn(t, i, 1, FractionEnd(t, i) - i - 1);
    }
  }

  lemma ExponentAscii(t: JsString, i: nat)
    requires i <= |t| && Ascii(t[..i])
    ensures Ascii(t[..ExponentEnd(t, i)])
  {
    if ExponentEnd(t, i) > i {
      var n := if t[i + 1] == '+' as int || t[i + 1] == '-' as int then 2 else 1;
      DigitsAscii(t[i + n..]);
      AsciiOn(t, i, n, ExponentEnd(t, i) - i - n);
    }
  }

  lemma NumberAscii(t: JsString)
    requires t != [] && NumberLength(t) == |t|
    ensures Ascii(t)
  {
    WholeAscii(t);
    FractionAscii(t, WholeEnd(t));
    ExponentAscii(t, FractionEnd(t, WholeEnd(t)));
    assert t[..|t|] == t;
  }

  lemma {:induction false} FromWellFormed(v: Json, i: nat)
    requires Proper(v) && i <= Count(v)
    ensures WellFormed(StringifyFrom(v, i))
    decreases v, Count(v) - i
  {
    if i < Count(v) {
      if v.JArray? {
        StringifyWellFormed(v.items[i]);
      } else {
        QuoteWellFormed(v.members[i].name);
        StringifyWellFormed(v.members[i].value);
        WellFormedConcat([COLON], Stringify(v.members[i].value));
        WellFormedConcat(Quote(v.members[i].name), [COLON] + Stringify(v.members[i].value));
      }
      FromWellFormed(v, i + 1);
      WellFormedConcat([COMMA], StringifyFrom(v, i + 1));
      WellFormedConcat(Part(v, i), [COMMA] + StringifyFrom(v, i + 1));
    }
  }

  lemma AroundWellFormed(open: Unit, inner: JsString, close: Unit)
    requires WellFormed(inner) && open < 128 && close < 128
    ensures WellFormed([open] + (inner + [close]))
  {
    WellFormedConcat(inner, [close]);
    WellFormedConcat([open], inner + [close]);
  }

  /** The text of a value is well formed even when a string in it is not. */
  lemma {:induction false} StringifyWellFormed(v: Json)
    requires Proper(v)
    ensures WellFormed(Stringify(v))
    decreases v, Count(v) + 1
  {
    match v
    case JString(s) => QuoteWellFormed(s);
    case JNumber(t) =>
      NumberAscii(t);
      AsciiWellFormed(t);
    case JArray(_) =>
      FromWellFormed(v, 0);
      AroundWellFormed(OPEN_BRACKET, StringifyFrom(v, 0), CLOSE_BRACKET);
    case JObject(_) =>
      FromWellFormed(v, 0);
      AroundWellFormed(OPEN_BRACE, StringifyFrom(v, 0), CLOSE_BRACE);
    case _ => AsciiWellFormed(Stringify(v));
  }
}
