/** btoa and atob: base64 of section 4 of RFC 4648, and the URL-safe alphabet of section 5. */
module Base64 {
  import opened JsText
  import opened Options

  const PAD: Unit := '=' as int

  type Sextet = x: int | 0 <= x < 64

  function Symbol(v: Sextet): (u: Unit)
    ensures IsSymbol(u) && Index(u) == v
  {
    if v < 26 then 'A' as int + v
    else if v < 52 then 'a' as int + (v - 26)
    else if v < 62 then '0' as int + (v - 52)
    else if v == 62 then '+' as int
    else '/' as int
  }

  predicate IsSymbol(u: int) {
    'A' as int <= u <= 'Z' as int || 'a' as int <= u <= 'z' as int || '0' as int <= u <= '9' as int ||
    u == '+' as int || u == '/' as int
  }

  function Index(u: int): Sextet
    requires IsSymbol(u)
  {
    if u == '+' as int then 62
    else if u == '/' as int then 63
    else if u <= '9' as int then u - '0' as int + 52
    else if u <= 'Z' as int then u - 'A' as int
    else u - 'a' as int + 26
  }

  /** The symbols of one group of one, two or three bytes, before padding. */
  function Group(g: seq<Byte>): (t: JsString)
    requires 1 <= |g| <= 3
    ensures |t| == |g| + 1 && forall i :: 0 <= i < |t| ==> IsSymbol(t[i])
  {
    if |g| == 1 then [Symbol(g[0] / 4), Symbol(g[0] % 4 * 16)]
    else if |g| == 2 then [Symbol(g[0] / 4), Symbol(g[0] % 4 * 16 + g[1] / 16), Symbol(g[1] % 16 * 4)]
    else [Symbol(g[0] / 4), Symbol(g[0] % 4 * 16 + g[1] / 16), Symbol(g[1] % 16 * 4 + g[2] / 64), Symbol(g[2] % 64)]
  }

  /** The bytes of two, three or four symbols; bits left over are dropped, as atob drops them. */
  function Ungroup(t: JsString): (g: seq<Byte>)
    requires 2 <= |t| <= 4 && forall i :: 0 <= i < |t| ==> IsSymbol(t[i])
    ensures |g| == |t| - 1
  {
    var b0 := Index(t[0]) * 4 + Index(t[1]) / 16;
    if |t| == 2 then [b0]
    else
      var b1 := Index(t[1]) % 16 * 16 + Index(t[2]) / 4;
      if |t| == 3 then [b0, b1] else [b0, b1, Index(t[2]) % 4 * 64 + Index(t[3])]
  }

  lemma SplitByte(b: Byte)
    ensures b == b / 4 * 4 + b % 4 && b == b / 16 * 16 + b % 16 && b == b / 64 * 64 + b % 64
  {
  }

  lemma GroupIndices(g: seq<Byte>)
    requires 1 <= |g| <= 3
    ensures var t := Group(g);
      && Index(t[0]) == g[0] / 4
      && Index(t[1]) == (if |g| == 1 then g[0] % 4 * 16 else g[0] % 4 * 16 + g[1] / 16)
      && (|g| == 2 ==> Index(t[2]) == g[1] % 16 * 4)
      && (|g| == 3 ==> Index(t[2]) == g[1] % 16 * 4 + g[2] / 64 && Index(t[3]) == g[2] % 64)
  {
  }

  lemma {:induction false} GroupRoundTrip(g: seq<Byte>)
    requires 1 <= |g| <= 3
    ensures Ungroup(Group(g)) == g
  {
    GroupIndices(g);
    SplitByte(g[0]);
    if |g| >= 2 {
      SplitByte(g[1]);
    }
    if |g| == 3 {
      SplitByte(g[2]);
    }
  }

  /** Symbols of all bytes, without padding. */
  function Symbols(bs: seq<Byte>): (t: JsString)
    ensures forall i :: 0 <= i < |t| ==> IsSymbol(t[i])
  {
    if bs == [] then []
    else if |bs| <= 3 then Group(bs)
    else Group(bs[..3]) + Symbols(bs[3..])
  }

  /** n copies of the padding sign. */
  function Pads(n: nat): (t: JsString)
    ensures |t| == n && forall i :: 0 <= i < n ==> t[i] == PAD
  {
    seq(n, i => PAD)
  }

  /** How many padding signs bring a text of n symbols to a multiple of four. */
  function Missing(n: nat): (k: nat)
    ensures k < 4 && (n + k) % 4 == 0
  {
    (4 - n % 4) % 4
  }

  /** btoa on a string of bytes. */
  function Btoa(bs: seq<Byte>): JsString {
    Symbols(bs) + Pads(Missing(|Symbols(bs)|))
  }

  /** Four symbols for three bytes, and one more than the bytes that are left. */
  function Size(n: nat): nat { if n == 0 then 0 else if n < 3 then n + 1 else 4 + Size(n - 3) }

  lemma {:induction false} SizeIs(n: nat)
    ensures Size(n) == (4 * n + 2) / 3 && Size(n) % 4 != 1
  {
    if n >= 3 {
      SizeIs(n - 3);
    }
  }

  lemma {:induction false} SizeOfSymbols(bs: seq<Byte>)
    ensures |Symbols(bs)| == Size(|bs|)
  {
    if |bs| > 3 {
      SizeOfSymbols(bs[3..]);
    }
  }

  lemma {:induction false} SymbolsLength(bs: seq<Byte>)
    ensures |Symbols(bs)| % 4 != 1
    ensures |Symbols(bs)| == (4 * |bs| + 2) / 3
  {
    SizeOfSymbols(bs);
    SizeIs(|bs|);
  }

  /** ASCII whitespace, which atob skips. */
  predicate IsAsciiSpace(u: int) { u == 9 || u == 10 || u == 12 || u == 13 || u == 32 }

  function SkipSpaces(s: JsString): JsString {
    if s == [] then []
    else (if IsAsciiSpace(s[0]) then [] else [s[0]]) + SkipSpaces(s[1..])
  }

  /** Take off at most two final padding signs of a text whose length is a multiple of four. */
  function Unpad(s: JsString): JsString {
    if |s| % 4 != 0 || s == [] || s[|s| - 1] != PAD then s
    else if s[|s| - 2] == PAD then s[..|s| - 2]
    else s[..|s| - 1]
  }

  function Unsymbols(t: JsString): (bs: seq<Byte>)
    requires |t| % 4 != 1 && forall i :: 0 <= i < |t| ==> IsSymbol(t[i])
  {
    if t == [] then []
    else if |t| <= 4 then Ungroup(t)
    else Ungroup(t[..4]) + Unsymbols(t[4..])
  }

  /** atob; None is the InvalidCharacterError. */
  function Atob(s: JsString): Option<seq<Byte>> {
    var t := Unpad(SkipSpaces(s));
    if |t| % 4 == 1 || exists i :: 0 <= i < |t| && !IsSymbol(t[i]) then None
    else Some(Unsymbols(t))
  }

  lemma {:induction false} UnsymbolsSymbols(bs: seq<Byte>)
    ensures |Symbols(bs)| % 4 != 1 && Unsymbols(Symbols(bs)) == bs
  {
    SymbolsLength(bs);
    if bs == [] {
    } else if |bs| <= 3 {
      GroupRoundTrip(bs);
    } else {
      var g, rest := Group(bs[..3]), Symbols(bs[3..]);
      UnsymbolsSymbols(bs[3..]);
      GroupRoundTrip(bs[..3]);
      SymbolsLength(bs[3..]);
      assert (g + rest)[..4] == g && (g + rest)[4..] == rest;
      assert bs[..3] + bs[3..] == bs;
    }
  }

  lemma {:induction false} NothingToSkip(s: JsString)
    requires forall i :: 0 <= i < |s| ==> !IsAsciiSpace(s[i])
    ensures SkipSpaces(s) == s
  {
    if s != [] {
      NothingToSkip(s[1..]);
    }
  }

  lemma UnpadPadded(t: JsString, k: nat)
    requires forall i :: 0 <= i < |t| ==> IsSymbol(t[i])
    requires |t| % 4 != 1 && k == Missing(|t|)
    ensures Unpad(t + Pads(k)) == t
  {
    var s := t + Pads(k);
    assert k <= 2;
    if k == 0 {
      assert s == t;
    } else {
      assert s[..|t|] == t;
    }
  }

  /** atob inverts btoa, with the padding btoa wrote. */
  lemma AtobBtoa(bs: seq<Byte>)
    ensures Atob(Btoa(bs)) == Some(bs)
  {
    SymbolsLength(bs);
    NothingToSkip(Btoa(bs));
    UnpadPadded(Symbols(bs), Missing(|Symbols(bs)|));
    UnsymbolsSymbols(bs);
  }

  lemma {:induction false} SkippedConcat(a: JsString, b: JsString)
    ensures SkipSpaces(a + b) == SkipSpaces(a) + SkipSpaces(b)
  {
    if a == [] {
      assert a + b == b;
    } else {
      assert (a + b)[1..] == a[1..] + b;
      SkippedConcat(a[1..], b);
    }
  }

  lemma SpaceSkipped(a: JsString, space: Unit, b: JsString)
    requires space == 0x09 || space == 0x0A || space == 0x0C || space == 0x0D || space == 0x20
    ensures SkipSpaces(a + ([space] + b)) == SkipSpaces(a + b)
  {
    SkippedConcat(a, [space] + b);
    SkippedConcat(a, b);
    assert ([space] + b)[1..] == b;
  }

  /** Tabs, line feeds, form feeds, carriage returns and spaces may stand anywhere in the text. */
  lemma AtobSkips(a: JsString, space: Unit, b: JsString)
    requires space == 0x09 || space == 0x0A || space == 0x0C || space == 0x0D || space == 0x20
    ensures Atob(a + ([space] + b)) == Atob(a + b)
  {
    SpaceSkipped(a, space, b);
  }

  // The value of the symbols

  const ALPHABET := UPPER + LOWER + DIGITS + "+/"

  /** The place of a symbol in the alphabet is its value. */
  lemma SymbolWritten(u: Unit)
    requires IsSymbol(u)
    ensures |ALPHABET| == 64 && u == ALPHABET[Index(u)] as int
  {
    var v := Index(u);
    UpperWritten(if v < 26 then v else 0);
    LowerWritten(if 26 <= v < 52 then v - 26 else 0);
    DigitWritten(if 52 <= v < 62 then v - 52 else 0);
  }

  /** Symbols read on in base 64, after those that read as n. */
  function Read64(n: nat, t: JsString): nat
    requires forall i :: 0 <= i < |t| ==> IsSymbol(t[i])
    decreases |t|
  {
    if t == [] then n else Read64(n * 64 + Index(t[0]), t[1..])
  }

  /** Bytes read on in base 256. */
  function Read256(n: nat, bs: seq<Byte>): nat
    decreases |bs|
  {
    if bs == [] then n else Read256(n * 256 + bs[0], bs[1..])
  }

  /** The bits left over in the last symbol of n bytes: none, four or two. */
  function Shifted(v: nat, n: nat): nat { if n % 3 == 0 then v else if n % 3 == 1 then v * 16 else v * 4 }

  lemma {:induction false} ReadOn(n: nat, a: JsString, b: JsString)
    requires (forall i :: 0 <= i < |a| ==> IsSymbol(a[i])) && forall i :: 0 <= i < |b| ==> IsSymbol(b[i])
    ensures Read64(n, a + b) == Read64(Read64(n, a), b)
    decreases |a|
  {
    if a == [] {
      assert a + b == b;
    } else {
      assert (a + b)[1..] == a[1..] + b;
      ReadOn(n * 64 + Index(a[0]), a[1..], b);
    }
  }

  lemma OneValue(n: int, a: int)
    ensures (n * 64 + a / 4) * 64 + a % 4 * 16 == (n * 256 + a) * 16
  {
    assert a == a / 4 * 4 + a % 4;
  }

  lemma TwoValue(n: int, a: int, b: int)
    ensures ((n * 64 + a / 4) * 64 + (a % 4 * 16 + b / 16)) * 64 + b % 16 * 4 == ((n * 256 + a) * 256 + b) * 4
  {
    OneValue(n, a);
    assert b == b / 16 * 16 + b % 16;
  }

  lemma ThreeValue(n: int, a: int, b: int, c: int)
    ensures (((n * 64 + a / 4) * 64 + (a % 4 * 16 + b / 16)) * 64 + (b % 16 * 4 + c / 64)) * 64 + c % 64 ==
            ((n * 256 + a) * 256 + b) * 256 + c
  {
    TwoValue(n, a, b);
    assert c == c / 64 * 64 + c % 64;
  }

  lemma ReadTwo(n: nat, u: Unit, v: Unit, rest: JsString)
    requires IsSymbol(u) && IsSymbol(v) && forall i :: 0 <= i < |rest| ==> IsSymbol(rest[i])
    ensures Read64(n, [u, v] + rest) == Read64((n * 64 + Index(u)) * 64 + Index(v), rest)
  {
    assert ([u, v] + rest)[1..] == [v] + rest && ([v] + rest)[1..] == rest;
  }

  lemma ReadThree(n: nat, bs: seq<Byte>, v: nat)
    requires |bs| >= 3 && v == ((n * 256 + bs[0]) * 256 + bs[1]) * 256 + bs[2]
    ensures Read256(n, bs) == Read256(v, bs[3..])
  {
    assert bs[1..][1..] == bs[2..] && bs[2..][1..] == bs[3..];
    assert Read256(n * 256 + bs[0], bs[1..]) == Read256((n * 256 + bs[0]) * 256 + bs[1], bs[2..]);
  }

  lemma OneByte(n: nat, a: Byte)
    ensures Read64(n, Group([a])) == Shifted(Read256(n, [a]), 1)
  {
    var t := Group([a]);
    assert t == [t[0], t[1]] + [];
    ReadTwo(n, t[0], t[1], []);
    assert [a][1..] == [];
    OneValue(n, a);
  }

  lemma TwoBytes(n: nat, a: Byte, b: Byte)
    ensures Read64(n, Group([a, b])) == Shifted(Read256(n, [a, b]), 2)
  {
    var t := Group([a, b]);
    assert t == [t[0], t[1]] + [t[2]] && [t[2]][1..] == [];
    ReadTwo(n, t[0], t[1], [t[2]]);
    assert [a, b][1..] == [b] && [b][1..] == [];
    assert Read256(n * 256 + a, [b]) == (n * 256 + a) * 256 + b;
    TwoValue(n, a, b);
  }

  lemma ThreeBytes(n: nat, a: Byte, b: Byte, c: Byte)
    ensures Read64(n, Group([a, b, c])) == ((n * 256 + a) * 256 + b) * 256 + c
  {
    var t := Group([a, b, c]);
    var two := (n * 64 + Index(t[0])) * 64 + Index(t[1]);
    assert t == [t[0], t[1]] + [t[2], t[3]] && [t[2], t[3]] == [t[2], t[3]] + [];
    ReadTwo(n, t[0], t[1], [t[2], t[3]]);
    ReadTwo(two, t[2], t[3], []);
    ThreeValue(n, a, b, c);
  }

  /** Read in base 64 the symbols are the bytes read in base 256, shifted by the bits left over. */
  lemma {:induction false} SymbolsValue(n: nat, bs: seq<Byte>)
    ensures Read64(n, Symbols(bs)) == Shifted(Read256(n, bs), |bs|)
    decreases |bs|
  {
    if |bs| == 1 {
      assert bs == [bs[0]];
      OneByte(n, bs[0]);
    } else if |bs| == 2 {
      assert bs == [bs[0], bs[1]];
      TwoBytes(n, bs[0], bs[1]);
    } else if |bs| >= 3 {
      var v := ((n * 256 + bs[0]) * 256 + bs[1]) * 256 + bs[2];
      SymbolsValue(v, bs[3..]);
      GroupThenRest(n, bs, v);
    }
  }

  lemma GroupThenRest(n: nat, bs: seq<Byte>, v: nat)
    requires |bs| >= 3 && v == ((n * 256 + bs[0]) * 256 + bs[1]) * 256 + bs[2]
    requires Read64(v, Symbols(bs[3..])) == Shifted(Read256(v, bs[3..]), |bs| - 3)
    ensures Read64(n, Symbols(bs)) == Shifted(Read256(n, bs), |bs|)
  {
    ReadThree(n, bs, v);
    ReadGroup(n, bs, v);
    ThreeMore(Read256(v, bs[3..]), |bs|);
  }

  lemma ThreeMore(v: nat, n: nat)
    requires n >= 3
    ensures Shifted(v, n - 3) == Shifted(v, n)
  {
  }

  lemma ReadGroup(n: nat, bs: seq<Byte>, v: nat)
    requires |bs| >= 3 && v == ((n * 256 + bs[0]) * 256 + bs[1]) * 256 + bs[2]
    ensures Read64(n, Symbols(bs)) == Read64(v, Symbols(bs[3..]))
  {
    assert bs[..3] == [bs[0], bs[1], bs[2]];
    ThreeBytes(n, bs[0], bs[1], bs[2]);
    SymbolsFirst(bs);
    ReadOn(n, Group(bs[..3]), Symbols(bs[3..]));
  }

  lemma SymbolsFirst(bs: seq<Byte>)
    requires |bs| >= 3
    ensures Symbols(bs) == Group(bs[..3]) + Symbols(bs[3..])
  {
    assert |bs| == 3 ==> bs[..3] == bs;
  }

  /**
    * btoa's text, whole: as many symbols as the bits need, that read as the bytes do, and then signs up to a
    * multiple of four.
    */
  lemma BtoaWritten(bs: seq<Byte>) returns (t: JsString)
    ensures |t| == (4 * |bs| + 2) / 3 && (forall i :: 0 <= i < |t| ==> IsSymbol(t[i]))
    ensures Read64(0, t) == Shifted(Read256(0, bs), |bs|)
    ensures t <= Btoa(bs) && |Btoa(bs)| < |t| + 4 && |Btoa(bs)| % 4 == 0
    ensures forall i :: |t| <= i < |Btoa(bs)| ==> Btoa(bs)[i] == '=' as int
  {
    t := Symbols(bs);
    SymbolsLength(bs);
    SymbolsValue(0, bs);
  }

  // Section 5: the URL and filename safe alphabet

  function ToUrlSafe(u: Unit): Unit {
    if u == '+' as int then '-' as int else if u == '/' as int then '_' as int else u
  }

  function FromUrlSafe(u: Unit): Unit {
    if u == '-' as int then '+' as int else if u == '_' as int then '/' as int else u
  }

  predicate IsUrlSafe(u: int) {
    'A' as int <= u <= 'Z' as int || 'a' as int <= u <= 'z' as int || '0' as int <= u <= '9' as int ||
    u == '-' as int || u == '_' as int
  }

  /** The two single-character replacements of encodeCursor. */
  function MapUrlSafe(s: JsString): (t: JsString)
    ensures |t| == |s|
  {
    seq(|s|, i requires 0 <= i < |s| => ToUrlSafe(s[i]))
  }

  /** The two single-character replacements of decodeCursor. */
  function UnmapUrlSafe(s: JsString): (t: JsString)
    ensures |t| == |s|
  {
    seq(|s|, i requires 0 <= i < |s| => FromUrlSafe(s[i]))
  }

  /** Drop every trailing padding sign. */
  function StripPads(s: JsString): JsString {
    if s != [] && s[|s| - 1] == PAD then StripPads(s[..|s| - 1]) else s
  }

  lemma {:induction false} StripPadsExact(t: JsString, n: nat)
    requires t == [] || t[|t| - 1] != PAD
    ensures StripPads(t + Pads(n)) == t
  {
    if n == 0 {
      assert t + Pads(n) == t;
    } else {
      assert (t + Pads(n))[..|t| + n - 1] == t + Pads(n - 1);
      StripPadsExact(t, n - 1);
    }
  }

  lemma UrlSafeRoundTrip(t: JsString)
    requires forall i :: 0 <= i < |t| ==> IsSymbol(t[i])
    ensures UnmapUrlSafe(MapUrlSafe(t)) == t
    ensures forall i :: 0 <= i < |t| ==> IsUrlSafe(MapUrlSafe(t)[i])
  {
  }

  /** Mapping btoa's text and dropping its padding leaves the mapped symbols. */
  lemma UrlSafeUnpadded(bs: seq<Byte>)
    ensures StripPads(MapUrlSafe(Btoa(bs))) == MapUrlSafe(Symbols(bs))
  {
    var symbols := Symbols(bs);
    var n := Missing(|symbols|);
    assert MapUrlSafe(symbols + Pads(n)) == MapUrlSafe(symbols) + Pads(n);
    UrlSafeRoundTrip(symbols);
    StripPadsExact(MapUrlSafe(symbols), n);
  }
}
