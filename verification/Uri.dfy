/**
  * The four legacy string functions that the cursor and the drilldown link are built from:
  * encodeURIComponent, decodeURIComponent, escape and unescape. The percent form is that of
  * section 2.1 of RFC 3986.
  */
module Uri {
  import opened Lists
  import opened JsText
  import opened Options

  const PERCENT: Unit := '%' as int

  predicate IsAlnum(u: int) {
    '0' as int <= u <= '9' as int || 'A' as int <= u <= 'Z' as int || 'a' as int <= u <= 'z' as int
  }

  /** Left alone by encodeURIComponent. */
  predicate IsUnreserved(u: int) {
    IsAlnum(u) || u == '-' as int || u == '_' as int || u == '.' as int || u == '!' as int ||
    u == '~' as int || u == '*' as int || u == '\'' as int || u == '(' as int || u == ')' as int
  }

  /** Left alone by escape. */
  predicate IsEscapeSafe(u: int) {
    IsAlnum(u) || u == '@' as int || u == '*' as int || u == '_' as int || u == '+' as int ||
    u == '-' as int || u == '.' as int || u == '/' as int
  }

  function PercentByte(b: Byte): (t: JsString)
    ensures |t| == 3
  {
    [PERCENT, HexDigit(b / 16, true), HexDigit(b % 16, true)]
  }

  function PercentBytes(bs: seq<Byte>): JsString {
    if bs == [] then [] else PercentByte(bs[0]) + PercentBytes(bs[1..])
  }

  /** True when s starts with a complete %XX triple. */
  predicate IsTriple(s: JsString) {
    |s| >= 3 && s[0] == PERCENT && IsHex(s[1]) && IsHex(s[2])
  }

  function TripleValue(s: JsString): Byte
    requires IsTriple(s)
  {
    HexValue(s[1]) * 16 + HexValue(s[2])
  }

  /** encodeURIComponent; None is the URIError thrown at a lone surrogate. */
  function EncodeUriComponent(s: JsString): Option<JsString> {
    if s == [] then Some([])
    else if IsUnreserved(s[0]) then Prepend([s[0]], EncodeUriComponent(s[1..]))
    else if StartsWithPair(s) then Prepend(PercentBytes(Utf8(PairPoint(s[0], s[1]))), EncodeUriComponent(s[2..]))
    else if IsSurrogate(s[0]) then None
    else Prepend(PercentBytes(Utf8(s[0])), EncodeUriComponent(s[1..]))
  }

  function Prepend(a: JsString, rest: Option<JsString>): Option<JsString> {
    match rest
    case None => None
    case Some(r) => Some(a + r)
  }

  /** unescape: %uXXXX is one unit, %XX is one unit, anything else is itself. */
  function Unescape(s: JsString): JsString {
    if s == [] then []
    else if IsUnicodeEscape(s) then
      [((HexValue(s[2]) * 16 + HexValue(s[3])) * 16 + HexValue(s[4])) * 16 + HexValue(s[5])] + Unescape(s[6..])
    else if IsTriple(s) then [TripleValue(s)] + Unescape(s[3..])
    else [s[0]] + Unescape(s[1..])
  }

  predicate IsUnicodeEscape(s: JsString) {
    |s| >= 6 && s[0] == PERCENT && s[1] == 'u' as int &&
    IsHex(s[2]) && IsHex(s[3]) && IsHex(s[4]) && IsHex(s[5])
  }

  /** escape on a string of bytes, which is all atob can return. */
  function Escape(bs: seq<Byte>): JsString {
    if bs == [] then []
    else (if IsEscapeSafe(bs[0]) then [bs[0]] else PercentByte(bs[0])) + Escape(bs[1..])
  }

  /** How many bytes the UTF-8 sequence started by b has; 0 when b starts none. */
  function SequenceLength(b: Byte): nat {
    if b < 0x80 then 1
    else if b < 0xC0 then 0
    else if b < 0xE0 then 2
    else if b < 0xF0 then 3
    else if b < 0xF8 then 4
    else 0
  }

  predicate IsContinuation(b: int) { 0x80 <= b < 0xC0 }

  /** The six bits a continuation byte carries. */
  function Payload(b: int): int { b - 0x80 }

  /** Strict UTF-8 decoding of one sequence: no overlong form, no surrogate, nothing above U+10FFFF. */
  function DecodePoint(bs: seq<Byte>): (c: Option<int>)
    requires 2 <= |bs| <= 4
    ensures c.Some? ==> 0x80 <= c.value < 0x11_0000 && !IsSurrogate(c.value)
  {
    var lead, b1 := bs[0] as int, Payload(bs[1]);
    if !(forall i :: 1 <= i < |bs| ==> IsContinuation(bs[i])) then None
    else if |bs| == 2 then
      var c: int := (lead - 0xC0) * 0x40 + b1;
      if 0x80 <= c < 0x800 then Some(c) else None
    else if |bs| == 3 then
      var c: int := (lead - 0xE0) * 0x1000 + b1 * 0x40 + Payload(bs[2]);
      if 0x800 <= c < 0x1_0000 && !IsSurrogate(c) then Some(c) else None
    else
      var c: int := (lead - 0xF0) * 0x4_0000 + b1 * 0x1000 + Payload(bs[2]) * 0x40 + Payload(bs[3]);
      if 0x1_0000 <= c < 0x11_0000 then Some(c) else None
  }

  /** The bytes of n leading %XX triples, if there are that many. */
  function Triples(s: JsString, n: nat): (r: Option<seq<Byte>>)
    ensures r.Some? ==> |r.value| == n && 3 * n <= |s|
  {
    if n == 0 then Some([])
    else if !IsTriple(s) then None
    else match Triples(s[3..], n - 1)
      case None => None
      case Some(bs) => Some([TripleValue(s)] + bs)
  }

  /** decodeURIComponent; None is the URIError thrown at a malformed sequence. */
  function DecodeUriComponent(s: JsString): Option<JsString>
    decreases |s|
  {
    if s == [] then Some([])
    else if s[0] != PERCENT then Prepend([s[0]], DecodeUriComponent(s[1..]))
    else if !IsTriple(s) then None
    else
      var n := SequenceLength(TripleValue(s));
      if n == 0 then None
      else if n == 1 then Prepend([TripleValue(s)], DecodeUriComponent(s[3..]))
      else match Triples(s, n)
        case None => None
        case Some(bs) =>
          match DecodePoint(bs)
          case None => None
          case Some(c) => Prepend(Utf16(c), DecodeUriComponent(s[3 * n..]))
  }

  /** encodeURIComponent succeeds exactly on well-formed strings. */
  lemma {:induction false} EncodeSucceedsIff(s: JsString)
    ensures EncodeUriComponent(s).Some? <==> WellFormed(s)
  {
    if s != [] {
      EncodeSucceedsIff(s[1..]);
      if StartsWithPair(s) {
        EncodeSucceedsIff(s[2..]);
      }
    }
  }

  /** The encoded text is made of unreserved characters and %XX triples only. */
  predicate IsPercentText(t: JsString) {
    t == [] ||
    if IsTriple(t) then IsPercentText(t[3..]) else IsUnreserved(t[0]) && IsPercentText(t[1..])
  }

  lemma {:induction false} PercentBytesText(bs: seq<Byte>, rest: JsString)
    requires IsPercentText(rest)
    ensures IsPercentText(PercentBytes(bs) + rest)
  {
    if bs == [] {
      assert PercentBytes(bs) + rest == rest;
    } else {
      PercentBytesText(bs[1..], rest);
      PercentSplit(bs, rest);
    }
  }

  /** t is the triple of b followed by tail, and no %uXXXX reading gets in the way. */
  predicate Splits(t: JsString, b: Byte, tail: JsString) {
    IsTriple(t) && TripleValue(t) == b && t[3..] == tail && !IsUnicodeEscape(t)
  }

  lemma PercentByteSplit(b: Byte, t: JsString, tail: JsString)
    requires t == PercentByte(b) + tail
    ensures Splits(t, b, tail)
  {
  }

  lemma {:induction false} PercentSplit(bs: seq<Byte>, rest: JsString)
    requires bs != []
    ensures Splits(PercentBytes(bs) + rest, bs[0], PercentBytes(bs[1..]) + rest)
  {
    var head, mid := PercentByte(bs[0]), PercentBytes(bs[1..]);
    assert PercentBytes(bs) == head + mid;
    ConcatAssoc(head, mid, rest);
    PercentByteSplit(bs[0], PercentBytes(bs) + rest, mid + rest);
  }

  lemma {:induction false} EncodeIsPercentText(s: JsString)
    requires WellFormed(s)
    ensures EncodeUriComponent(s).Some? && IsPercentText(EncodeUriComponent(s).value)
  {
    EncodeSucceedsIff(s);
    if s == [] {
    } else if IsUnreserved(s[0]) {
      EncodeIsPercentText(s[1..]);
      assert ([s[0]] + EncodeUriComponent(s[1..]).value)[1..] == EncodeUriComponent(s[1..]).value;
    } else if StartsWithPair(s) {
      EncodeIsPercentText(s[2..]);
      PercentBytesText(Utf8(PairPoint(s[0], s[1])), EncodeUriComponent(s[2..]).value);
    } else {
      EncodeIsPercentText(s[1..]);
      PercentBytesText(Utf8(s[0]), EncodeUriComponent(s[1..]).value);
    }
  }

  lemma {:induction false} UnescapePercentBytes(bs: seq<Byte>, rest: JsString)
    ensures Unescape(PercentBytes(bs) + rest) == bs + Unescape(rest)
  {
    if bs == [] {
      assert PercentBytes(bs) + rest == rest;
    } else {
      var tail := PercentBytes(bs[1..]) + rest;
      PercentSplit(bs, rest);
      UnescapePercentBytes(bs[1..], rest);
      assert Unescape(PercentBytes(bs) + rest) == [bs[0]] + Unescape(tail);
      ConcatAssoc([bs[0]], bs[1..], Unescape(rest));
      assert [bs[0]] + bs[1..] == bs;
    }
  }

  /** unescape(encodeURIComponent(s)) is the UTF-8 encoding of s, one unit a byte. */
  lemma {:induction false} UnescapeEncodeIsUtf8(s: JsString)
    requires WellFormed(s)
    ensures EncodeUriComponent(s).Some? && Unescape(EncodeUriComponent(s).value) == Utf8Bytes(s)
  {
    EncodeSucceedsIff(s);
    if s == [] {
    } else if StartsWithPair(s) {
      UnescapeEncodeIsUtf8(s[2..]);
      UnescapePercentBytes(Utf8(PairPoint(s[0], s[1])), EncodeUriComponent(s[2..]).value);
    } else {
      UnescapeEncodeIsUtf8(s[1..]);
      var rest := EncodeUriComponent(s[1..]).value;
      if IsUnreserved(s[0]) {
        assert ([s[0]] + rest)[1..] == rest;
      } else {
        UnescapePercentBytes(Utf8(s[0]), rest);
      }
    }
  }

  lemma {:induction false} PointRoundTrip(c: int)
    requires 0x80 <= c < 0x11_0000 && !IsSurrogate(c)
    ensures |Utf8(c)| >= 2 && SequenceLength(Utf8(c)[0]) == |Utf8(c)| && DecodePoint(Utf8(c)) == Some(c)
  {
    var q0, r0 := c / 0x40, c % 0x40;
    assert c == q0 * 0x40 + r0;
    var q1, r1 := q0 / 0x40, q0 % 0x40;
    assert q0 == q1 * 0x40 + r1 && c / 0x1000 == q1;
    if c < 0x800 {
      assert Utf8(c) == [0xC0 + q0, 0x80 + r0];
    } else if c < 0x1_0000 {
      assert Utf8(c) == [0xE0 + q1, 0x80 + r1, 0x80 + r0];
    } else {
      var q2, r2 := q1 / 0x40, q1 % 0x40;
      assert q1 == q2 * 0x40 + r2 && c / 0x4_0000 == q2;
      assert Utf8(c) == [0xF0 + q2, 0x80 + r2, 0x80 + r1, 0x80 + r0];
    }
  }

  lemma {:induction false} TriplesOfPercentBytes(bs: seq<Byte>, rest: JsString)
    ensures Triples(PercentBytes(bs) + rest, |bs|) == Some(bs)
    ensures |PercentBytes(bs)| == 3 * |bs|
  {
    if bs != [] {
      PercentSplit(bs, rest);
      TriplesOfPercentBytes(bs[1..], rest);
      assert [bs[0]] + bs[1..] == bs;
    }
  }

  /** decodeURIComponent consumes the triples of one code point whatever follows them. */
  lemma DecodePercentPoint(c: int, rest: JsString)
    requires 0x80 <= c < 0x11_0000 && !IsSurrogate(c)
    ensures DecodeUriComponent(PercentBytes(Utf8(c)) + rest) == Prepend(Utf16(c), DecodeUriComponent(rest))
  {
    var bs := Utf8(c);
    var t := PercentBytes(bs) + rest;
    PointRoundTrip(c);
    PercentSplit(bs, rest);
    TriplesOfPercentBytes(bs, rest);
    assert t[3 * |bs|..] == rest;
  }

  lemma DecodeAscii(u: Unit, t: JsString, rest: JsString)
    requires u < 0x80
    requires t == PercentByte(u) || (t == [u] && u != PERCENT)
    ensures DecodeUriComponent(t + rest) == Prepend([u], DecodeUriComponent(rest))
  {
  }

  lemma EscapeFirst(bs: seq<Byte>, rest: seq<Byte>)
    requires bs != []
    ensures Escape(bs + rest) == Escape([bs[0]]) + Escape(bs[1..] + rest)
  {
    assert (bs + rest)[1..] == bs[1..] + rest && [bs[0]][1..] == [];
  }

  lemma {:induction false} EscapeHighBytes(bs: seq<Byte>, rest: seq<Byte>)
    requires forall i :: 0 <= i < |bs| ==> bs[i] >= 0x80
    ensures Escape(bs + rest) == PercentBytes(bs) + Escape(rest)
  {
    if bs == [] {
      EmptyFirst(rest);
      EmptyFirst(Escape(rest));
    } else {
      EscapeFirst(bs, rest);
      EscapeHighBytes(bs[1..], rest);
      assert Escape([bs[0]]) == PercentByte(bs[0]);
      ConcatAssoc(PercentByte(bs[0]), PercentBytes(bs[1..]), Escape(rest));
    }
  }

  /** decodeURIComponent(escape(b)) decodes UTF-8: it gives back every well-formed string. */
  lemma {:induction false} DecodeEscapeIsUtf8Inverse(s: JsString)
    requires WellFormed(s)
    ensures DecodeUriComponent(Escape(Utf8Bytes(s))) == Some(s)
  {
    if s == [] {
    } else if StartsWithPair(s) {
      var c := PairPoint(s[0], s[1]);
      DecodeEscapeIsUtf8Inverse(s[2..]);
      EscapeHighBytes(Utf8(c), Utf8Bytes(s[2..]));
      DecodePercentPoint(c, Escape(Utf8Bytes(s[2..])));
      PairRoundTrip(s[0], s[1]);
      assert [s[0], s[1]] + s[2..] == s;
    } else if s[0] >= 0x80 {
      DecodeEscapeIsUtf8Inverse(s[1..]);
      EscapeHighBytes(Utf8(s[0]), Utf8Bytes(s[1..]));
      DecodePercentPoint(s[0], Escape(Utf8Bytes(s[1..])));
      assert [s[0]] + s[1..] == s;
    } else {
      DecodeEscapeIsUtf8Inverse(s[1..]);
      var rest := Utf8Bytes(s[1..]);
      assert ([s[0]] + rest)[1..] == rest;
      DecodeAscii(s[0], if IsEscapeSafe(s[0]) then [s[0]] else PercentByte(s[0]), Escape(rest));
      assert [s[0]] + s[1..] == s;
    }
  }

  // Nothing but UTF-8 is decoded

  /** Taking the last six bits off. */
  lemma SixBits(q: int, d: int)
    requires 0 <= d < 0x40
    ensures (q * 0x40 + d) / 0x40 == q && (q * 0x40 + d) % 0x40 == d
    ensures (q * 0x40 + d) / 0x1000 == q / 0x40 && (q * 0x40 + d) / 0x4_0000 == q / 0x1000
  {
  }

  lemma TwoSound(bs: seq<Byte>, c: int)
    requires |bs| == 2 && SequenceLength(bs[0]) == 2 && DecodePoint(bs) == Some(c)
    ensures Utf8(c) == bs
  {
    SixBits(bs[0] as int - 0xC0, Payload(bs[1]));
  }

  lemma ThreeSound(bs: seq<Byte>, c: int)
    requires |bs| == 3 && SequenceLength(bs[0]) == 3 && DecodePoint(bs) == Some(c)
    ensures Utf8(c) == bs
  {
    var q := (bs[0] as int - 0xE0) * 0x40 + Payload(bs[1]);
    SixBits(bs[0] as int - 0xE0, Payload(bs[1]));
    SixBits(q, Payload(bs[2]));
    assert c == q * 0x40 + Payload(bs[2]);
  }

  lemma FourSound(bs: seq<Byte>, c: int)
    requires |bs| == 4 && SequenceLength(bs[0]) == 4 && DecodePoint(bs) == Some(c)
    ensures Utf8(c) == bs
  {
    var q := (bs[0] as int - 0xF0) * 0x40 + Payload(bs[1]);
    var r := q * 0x40 + Payload(bs[2]);
    SixBits(bs[0] as int - 0xF0, Payload(bs[1]));
    SixBits(q, Payload(bs[2]));
    SixBits(r, Payload(bs[3]));
    assert c == r * 0x40 + Payload(bs[3]);
  }

  lemma {:induction false} PointSound(bs: seq<Byte>, c: int)
    requires 2 <= |bs| <= 4 && SequenceLength(bs[0]) == |bs| && DecodePoint(bs) == Some(c)
    ensures Utf8(c) == bs
  {
    if |bs| == 2 {
      TwoSound(bs, c);
    } else if |bs| == 3 {
      ThreeSound(bs, c);
    } else {
      FourSound(bs, c);
    }
  }

  lemma FirstTriple(bs: seq<Byte>)
    requires IsTriple(Escape(bs))
    ensures bs != [] && TripleValue(Escape(bs)) == bs[0] && Escape(bs)[3..] == Escape(bs[1..])
  {
    assert bs != [] && !IsEscapeSafe(bs[0]);
    PercentByteSplit(bs[0], Escape(bs), Escape(bs[1..]));
  }

  lemma {:induction false} TriplesOfEscape(bs: seq<Byte>, n: nat)
    requires Triples(Escape(bs), n).Some?
    ensures n <= |bs| && Triples(Escape(bs), n) == Some(bs[..n]) && Escape(bs)[3 * n..] == Escape(bs[n..])
  {
    if n > 0 {
      FirstTriple(bs);
      TriplesOfEscape(bs[1..], n - 1);
      assert bs[..n] == [bs[0]] + bs[1..][..n - 1] && bs[1..][n - 1..] == bs[n..];
      assert Escape(bs)[3 * n..] == Escape(bs)[3..][3 * (n - 1)..];
    }
  }

  lemma PointThen(c: int, r: JsString)
    requires 0 <= c < 0x11_0000 && !IsSurrogate(c) && WellFormed(r)
    ensures WellFormed(Utf16(c) + r) && Utf8Bytes(Utf16(c) + r) == Utf8(c) + Utf8Bytes(r)
  {
    var s := Utf16(c) + r;
    if c >= 0x1_0000 {
      assert s[2..] == r && PairPoint(s[0], s[1]) == c;
    } else {
      assert s[1..] == r;
    }
  }

  lemma LowDecodes(bs: seq<Byte>, s: JsString) returns (r: JsString)
    requires bs != [] && bs[0] < 0x80 && DecodeUriComponent(Escape(bs)) == Some(s)
    ensures DecodeUriComponent(Escape(bs[1..])) == Some(r) && s == Utf16(bs[0]) + r
  {
    DecodeAscii(bs[0], if IsEscapeSafe(bs[0]) then [bs[0]] else PercentByte(bs[0]), Escape(bs[1..]));
    r := DecodeUriComponent(Escape(bs[1..])).value;
  }

  lemma HighDecodes(bs: seq<Byte>, s: JsString) returns (n: nat, c: int, r: JsString)
    requires bs != [] && bs[0] >= 0x80 && DecodeUriComponent(Escape(bs)) == Some(s)
    ensures 2 <= n <= |bs| && n <= 4 && SequenceLength(bs[0]) == n && DecodePoint(bs[..n]) == Some(c)
    ensures DecodeUriComponent(Escape(bs[n..])) == Some(r) && s == Utf16(c) + r
  {
    n := SequenceLength(bs[0]);
    PercentByteSplit(bs[0], Escape(bs), Escape(bs[1..]));
    TriplesOfEscape(bs, n);
    c := DecodePoint(bs[..n]).value;
    r := DecodeUriComponent(Escape(bs[n..])).value;
  }

  /** What decodeURIComponent(escape(b)) decodes is UTF-8: overlong forms, surrogates and the like throw. */
  lemma {:induction false} DecodeEscapeOnlyUtf8(bs: seq<Byte>, s: JsString)
    requires DecodeUriComponent(Escape(bs)) == Some(s)
    ensures WellFormed(s) && Utf8Bytes(s) == bs
    decreases |bs|
  {
    if bs == [] {
    } else if bs[0] < 0x80 {
      var r := LowDecodes(bs, s);
      DecodeEscapeOnlyUtf8(bs[1..], r);
      PointThen(bs[0], r);
      assert [bs[0]] + bs[1..] == bs;
    } else {
      var n, c, r := HighDecodes(bs, s);
      DecodeEscapeOnlyUtf8(bs[n..], r);
      PointSound(bs[..n], c);
      PointThen(c, r);
      assert bs[..n] + bs[n..] == bs;
    }
  }

  /** So the two together are exactly the decoding of UTF-8. */
  lemma {:induction false} DecodeEscapeIff(bs: seq<Byte>, s: JsString)
    ensures DecodeUriComponent(Escape(bs)) == Some(s) <==> WellFormed(s) && Utf8Bytes(s) == bs
  {
    if WellFormed(s) && Utf8Bytes(s) == bs {
      DecodeEscapeIsUtf8Inverse(s);
    } else if DecodeUriComponent(Escape(bs)) == Some(s) {
      DecodeEscapeOnlyUtf8(bs, s);
    }
  }

  /** decodeURIComponent inverts encodeURIComponent wherever the latter does not throw. */
  lemma {:induction false} DecodeEncodeUri(s: JsString)
    requires WellFormed(s)
    ensures EncodeUriComponent(s).Some? && DecodeUriComponent(EncodeUriComponent(s).value) == Some(s)
  {
    EncodeSucceedsIff(s);
    if s == [] {
    } else if StartsWithPair(s) {
      DecodeEncodeUri(s[2..]);
      DecodePercentPoint(PairPoint(s[0], s[1]), EncodeUriComponent(s[2..]).value);
      PairRoundTrip(s[0], s[1]);
      assert [s[0], s[1]] + s[2..] == s;
    } else {
      DecodeEncodeUri(s[1..]);
      var rest := EncodeUriComponent(s[1..]).value;
      assert [s[0]] + s[1..] == s;
      if s[0] >= 0x80 {
        DecodePercentPoint(s[0], rest);
      } else if IsUnreserved(s[0]) {
        DecodeAscii(s[0], [s[0]], rest);
      } else {
        assert PercentBytes([s[0]]) == PercentByte(s[0]);
        DecodeAscii(s[0], PercentByte(s[0]), rest);
      }
    }
  }

  // The characters left alone, written out

  const UNRESERVED := UPPER + LOWER + DIGITS + "-_.!~*'()"
  const ESCAPE_SAFE := UPPER + LOWER + DIGITS + "@*_+-./"

  predicate Among(u: Unit, alphabet: string) { exists k :: 0 <= k < |alphabet| && alphabet[k] as int == u }

  lemma AmongConcat(u: Unit, a: string, b: string)
    ensures Among(u, a + b) <==> Among(u, a) || Among(u, b)
  {
    if Among(u, a) {
      var k :| 0 <= k < |a| && a[k] as int == u;
      assert (a + b)[k] == a[k];
    }
    if Among(u, b) {
      var k :| 0 <= k < |b| && b[k] as int == u;
      assert (a + b)[|a| + k] == b[k];
    }
  }

  lemma AlnumWritten(u: Unit)
    ensures IsAlnum(u) <==> Among(u, UPPER + LOWER + DIGITS)
  {
    AmongConcat(u, UPPER + LOWER, DIGITS);
    AmongConcat(u, UPPER, LOWER);
    UpperIff(u);
    LowerIff(u);
    DigitIff(u);
  }

  lemma UpperIff(u: Unit)
    ensures Among(u, UPPER) <==> 'A' as int <= u <= 'Z' as int
  {
    UpperWritten(if 'A' as int <= u <= 'Z' as int then u - 'A' as int else 0);
    if Among(u, UPPER) {
      var k :| 0 <= k < |UPPER| && UPPER[k] as int == u;
      UpperWritten(k);
    }
  }

  lemma LowerIff(u: Unit)
    ensures Among(u, LOWER) <==> 'a' as int <= u <= 'z' as int
  {
    LowerWritten(if 'a' as int <= u <= 'z' as int then u - 'a' as int else 0);
    if Among(u, LOWER) {
      var k :| 0 <= k < |LOWER| && LOWER[k] as int == u;
      LowerWritten(k);
    }
  }

  lemma DigitIff(u: Unit)
    ensures Among(u, DIGITS) <==> '0' as int <= u <= '9' as int
  {
    DigitWritten(if '0' as int <= u <= '9' as int then u - '0' as int else 0);
    if Among(u, DIGITS) {
      var k :| 0 <= k < |DIGITS| && DIGITS[k] as int == u;
      DigitWritten(k);
    }
  }

  lemma UnreservedWritten(u: Unit)
    ensures IsUnreserved(u) <==> Among(u, UNRESERVED)
  {
    var marks := "-_.!~*'()";
    AlnumWritten(u);
    AmongConcat(u, UPPER + LOWER + DIGITS, marks);
    assert marks[0] == '-' && marks[1] == '_' && marks[2] == '.' && marks[3] == '!' && marks[4] == '~';
    assert marks[5] == '*' && marks[6] == '\'' && marks[7] == '(' && marks[8] == ')';
  }

  lemma EscapeSafeWritten(u: Unit)
    ensures IsEscapeSafe(u) <==> Among(u, ESCAPE_SAFE)
  {
    var marks := "@*_+-./";
    AlnumWritten(u);
    AmongConcat(u, UPPER + LOWER + DIGITS, marks);
    assert marks[0] == '@' && marks[1] == '*' && marks[2] == '_' && marks[3] == '+' && marks[4] == '-';
    assert marks[5] == '.' && marks[6] == '/';
  }

  /** A percent sign and the byte in two capital digits. */
  lemma PercentWritten(b: Byte)
    ensures var t := PercentByte(b);
      t[0] == '%' as int && t[1] == (DIGITS + "ABCDEF")[b / 16] as int && t[2] == (DIGITS + "ABCDEF")[b % 16] as int
  {
    HexWritten(b / 16);
    HexWritten(b % 16);
  }

  /** encodeURIComponent, one unit at a time: the alphabet as it is, a code point as its bytes. */
  lemma EncodeWritten(s: JsString)
    requires s != [] && WellFormed(s)
    ensures var rest := if StartsWithPair(s) then s[2..] else s[1..];
      var point := if StartsWithPair(s) then PairPoint(s[0], s[1]) else s[0];
      EncodeUriComponent(s) ==
      Prepend(if Among(s[0], UNRESERVED) then [s[0]] else PercentBytes(Utf8(point)), EncodeUriComponent(rest))
  {
    UnreservedWritten(s[0]);
  }

  lemma EscapeWritten(bs: seq<Byte>)
    requires bs != []
    ensures Escape(bs) == (if Among(bs[0], ESCAPE_SAFE) then [bs[0]] else PercentByte(bs[0])) + Escape(bs[1..])
  {
    EscapeSafeWritten(bs[0]);
  }
}
