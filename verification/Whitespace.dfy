/** Trimming and splitting of text, as the scripts and pages do it. */
module Whitespace {
  /** What String.prototype.trim removes. */
  predicate IsJsSpace(c: char) {
    '\t' <= c <= '\r' || c == ' ' || c == '\U{00A0}' || c == '\U{1680}' || '\U{2000}' <= c <= '\U{200A}' ||
    c == '\U{2028}' || c == '\U{2029}' || c == '\U{202F}' || c == '\U{205F}' || c == '\U{3000}' || c == '\U{FEFF}'
  }

  /** What Python's str.strip removes. */
  predicate IsPySpace(c: char) {
    '\t' <= c <= '\r' || '\U{001C}' <= c <= ' ' || c == '\U{0085}' || c == '\U{00A0}' || c == '\U{1680}' ||
    '\U{2000}' <= c <= '\U{200A}' || c == '\U{2028}' || c == '\U{2029}' || c == '\U{202F}' || c == '\U{205F}' ||
    c == '\U{3000}'
  }

  const JS_SPACES :=
    "\t\n\U{000B}\U{000C}\r \U{00A0}\U{1680}" +
    "\U{2000}\U{2001}\U{2002}\U{2003}\U{2004}\U{2005}\U{2006}\U{2007}\U{2008}\U{2009}\U{200A}" +
    "\U{2028}\U{2029}\U{202F}\U{205F}\U{3000}\U{FEFF}"

  const PY_SPACES :=
    "\t\n\U{000B}\U{000C}\r\U{001C}\U{001D}\U{001E}\U{001F} \U{0085}\U{00A0}\U{1680}" +
    "\U{2000}\U{2001}\U{2002}\U{2003}\U{2004}\U{2005}\U{2006}\U{2007}\U{2008}\U{2009}\U{200A}" +
    "\U{2028}\U{2029}\U{202F}\U{205F}\U{3000}"

  /** The two sets character by character. */
  lemma SpacesWritten(c: char)
    ensures IsJsSpace(c) <==> c in JS_SPACES
    ensures IsPySpace(c) <==> c in PY_SPACES
  {
  }

  // Trimming

  function SolidFrom(s: string, i: nat, space: char -> bool): (j: nat)
    requires i <= |s|
    ensures i <= j <= |s|
    decreases |s| - i
  {
    if i < |s| && space(s[i]) then SolidFrom(s, i + 1, space) else i
  }

  function SolidTo(s: string, j: nat, space: char -> bool): (k: nat)
    requires j <= |s|
    ensures k <= j
  {
    if j > 0 && space(s[j - 1]) then SolidTo(s, j - 1, space) else j
  }

  function TrimStart(s: string, space: char -> bool): string { s[SolidFrom(s, 0, space)..] }

  function Trim(s: string, space: char -> bool): string {
    if SolidFrom(s, 0, space) < SolidTo(s, |s|, space) then s[SolidFrom(s, 0, space)..SolidTo(s, |s|, space)] else ""
  }

  predicate Blank(s: string, space: char -> bool) {
    forall i :: 0 <= i < |s| ==> space(s[i])
  }

  lemma {:induction false} SolidFromIs(s: string, i: nat, j: nat, space: char -> bool)
    requires i <= j <= |s| && (forall k :: i <= k < j ==> space(s[k])) && (j < |s| ==> !space(s[j]))
    ensures SolidFrom(s, i, space) == j
    decreases |s| - i
  {
    if i < j {
      SolidFromIs(s, i + 1, j, space);
    }
  }

  lemma {:induction false} SolidToIs(s: string, j: nat, k: nat, space: char -> bool)
    requires k <= j <= |s| && (forall i :: k <= i < j ==> space(s[i])) && (k > 0 ==> !space(s[k - 1]))
    ensures SolidTo(s, j, space) == k
  {
    if k < j {
      SolidToIs(s, j - 1, k, space);
    }
  }

  lemma {:induction false} SolidFromSkips(s: string, i: nat, space: char -> bool)
    requires i <= |s|
    ensures forall k :: i <= k < SolidFrom(s, i, space) ==> space(s[k])
    ensures SolidFrom(s, i, space) < |s| ==> !space(s[SolidFrom(s, i, space)])
    decreases |s| - i
  {
    if i < |s| && space(s[i]) {
      SolidFromSkips(s, i + 1, space);
    }
  }

  lemma {:induction false} SolidToSkips(s: string, j: nat, space: char -> bool)
    requires j <= |s|
    ensures forall k :: SolidTo(s, j, space) <= k < j ==> space(s[k])
    ensures SolidTo(s, j, space) > 0 ==> !space(s[SolidTo(s, j, space) - 1])
  {
    if j > 0 && space(s[j - 1]) {
      SolidToSkips(s, j - 1, space);
    }
  }

  /** Trimming leaves the text between the first and the last character that are not space. */
  lemma TrimIs(s: string, a: nat, b: nat, space: char -> bool)
    requires a <= b <= |s| && (forall i :: 0 <= i < a || b <= i < |s| ==> space(s[i]))
    requires a < b ==> !space(s[a]) && !space(s[b - 1])
    ensures Trim(s, space) == s[a..b]
  {
    if a < b {
      SolidFromIs(s, 0, a, space);
      SolidToIs(s, |s|, b, space);
    } else {
      SolidFromIs(s, 0, |s|, space);
    }
  }

  /** Where the text that trimming leaves starts and ends. */
  lemma TrimBounds(s: string, space: char -> bool) returns (a: nat, b: nat)
    ensures a <= b <= |s| && Trim(s, space) == s[a..b]
    ensures forall i :: 0 <= i < a || b <= i < |s| ==> space(s[i])
    ensures a < b ==> !space(s[a]) && !space(s[b - 1])
  {
    SolidFromSkips(s, 0, space);
    SolidToSkips(s, |s|, space);
    a, b := SolidFrom(s, 0, space), SolidTo(s, |s|, space);
    if a >= b {
      b := a;
      BlankFrom(s, a, space);
    }
  }

  lemma BlankFrom(s: string, a: nat, space: char -> bool)
    requires SolidTo(s, |s|, space) <= a <= |s|
    ensures forall i :: a <= i < |s| ==> space(s[i])
  {
    SolidToSkips(s, |s|, space);
  }

  /** Space after a text does not change what trimming leaves. */
  lemma TrimPadEnd(s: string, c: char, space: char -> bool)
    requires space(c)
    ensures Trim(s + [c], space) == Trim(s, space)
  {
    var a, b := TrimBounds(s, space);
    TrimIs(s + [c], a, b, space);
    assert (s + [c])[a..b] == s[a..b];
  }

  /** Nor does space before it. */
  lemma TrimPadStart(s: string, c: char, space: char -> bool)
    requires space(c)
    ensures Trim([c] + s, space) == Trim(s, space)
  {
    var a, b := TrimBounds(s, space);
    var t := [c] + s;
    assert forall i :: 1 <= i < |t| ==> t[i] == s[i - 1];
    TrimIs(t, a + 1, b + 1, space);
    assert t[a + 1..b + 1] == s[a..b];
  }

  /** A text without space at its ends is left as it is. */
  predicate Trimmed(s: string, space: char -> bool) {
    s == "" || (!space(s[0]) && !space(s[|s| - 1]))
  }

  lemma TrimIsTrimmed(s: string, space: char -> bool)
    ensures Trimmed(Trim(s, space), space) && |Trim(s, space)| <= |s|
    ensures Trimmed(s, space) ==> Trim(s, space) == s
  {
    var a, b := TrimBounds(s, space);
    if Trimmed(s, space) {
      TrimIs(s, 0, |s|, space);
      assert s[0..|s|] == s;
    }
  }

  // Counting what is not space

  function Solid(s: string, space: char -> bool): nat {
    if s == "" then 0 else Solid(s[..|s| - 1], space) + if space(s[|s| - 1]) then 0 else 1
  }

  lemma {:induction false} SolidConcat(a: string, b: string, space: char -> bool)
    ensures Solid(a + b, space) == Solid(a, space) + Solid(b, space)
  {
    if b == "" {
      assert a + b == a;
    } else {
      SolidConcat(a, b[..|b| - 1], space);
      assert (a + b)[..|a + b| - 1] == a + b[..|b| - 1];
    }
  }

  lemma {:induction false} SolidBlank(s: string, space: char -> bool)
    ensures Solid(s, space) == 0 <==> Blank(s, space)
  {
    if s != "" {
      SolidBlank(s[..|s| - 1], space);
      assert Blank(s, space) <==> Blank(s[..|s| - 1], space) && space(s[|s| - 1]) by {
        assert forall i :: 0 <= i < |s| - 1 ==> s[i] == s[..|s| - 1][i];
      }
    }
  }

  lemma SolidCut(s: string, a: nat, space: char -> bool)
    requires a <= |s|
    ensures Solid(s, space) == Solid(s[..a], space) + Solid(s[a..], space)
  {
    SolidConcat(s[..a], s[a..], space);
    assert s[..a] + s[a..] == s;
  }

  lemma SolidSlices(s: string, a: nat, b: nat, space: char -> bool)
    requires a <= b <= |s|
    ensures Solid(s, space) == Solid(s[..a], space) + Solid(s[a..b], space) + Solid(s[b..], space)
  {
    var head := s[..b];
    SolidCut(s, b, space);
    SolidCut(head, a, space);
    assert head[..a] == s[..a] && head[a..] == s[a..b];
  }

  /** Trimming drops space only. */
  lemma TrimKeepsSolid(s: string, space: char -> bool)
    ensures Solid(Trim(s, space), space) == Solid(s, space)
  {
    var a, b := TrimBounds(s, space);
    SolidSlices(s, a, b, space);
    SolidBlank(s[..a], space);
    SolidBlank(s[b..], space);
  }

  // Splitting

  function IndexFrom(s: string, i: nat, c: char): (e: nat)
    requires i <= |s|
    ensures i <= e <= |s|
    decreases |s| - i
  {
    if i == |s| || s[i] == c then i else IndexFrom(s, i + 1, c)
  }

  function SplitFrom(s: string, i: nat, c: char): (r: seq<string>)
    requires i <= |s|
    ensures r != []
    decreases |s| - i
  {
    var e := IndexFrom(s, i, c);
    if e == |s| then [s[i..]] else [s[i..e]] + SplitFrom(s, e + 1, c)
  }

  /** The pieces between the occurrences of c, as both languages' split gives them. */
  function SplitOn(s: string, c: char): seq<string> { SplitFrom(s, 0, c) }

  lemma {:induction false} IndexShift(x: string, y: string, j: nat, c: char)
    requires j <= |y|
    ensures IndexFrom(x + y, |x| + j, c) == |x| + IndexFrom(y, j, c)
    decreases |y| - j
  {
    if j < |y| {
      IndexShift(x, y, j + 1, c);
    }
  }

  lemma {:induction false} SplitShift(x: string, y: string, j: nat, c: char)
    requires j <= |y|
    ensures SplitFrom(x + y, |x| + j, c) == SplitFrom(y, j, c)
    decreases |y| - j
  {
    IndexShift(x, y, j, c);
    var e := IndexFrom(y, j, c);
    assert (x + y)[|x| + j..] == y[j..];
    assert (x + y)[|x| + j..|x| + e] == y[j..e];
    if e < |y| {
      SplitShift(x, y, e + 1, c);
    }
  }

  lemma {:induction false} FirstIndex(a: string, i: nat, c: char, rest: string)
    requires i <= |a| && c !in a[i..]
    ensures IndexFrom(a + ([c] + rest), i, c) == |a|
    decreases |a| - i
  {
    var s := a + ([c] + rest);
    if i < |a| {
      assert s[i] == a[i] && a[i] == a[i..][0];
      assert a[i + 1..] == a[i..][1..];
      FirstIndex(a, i + 1, c, rest);
    } else {
      assert s[|a|] == c;
    }
  }

  /** The piece before the first c. */
  lemma SplitFirst(a: string, c: char, rest: string)
    requires c !in a
    ensures SplitOn(a + ([c] + rest), c) == [a] + SplitOn(rest, c)
  {
    var s := a + ([c] + rest);
    assert a[0..] == a;
    FirstIndex(a, 0, c, rest);
    assert s[0..|a|] == a && s == a + [c] + rest;
    SplitShift(a + [c], rest, 0, c);
  }

  lemma {:induction false} NoIndex(s: string, i: nat, c: char)
    requires i <= |s| && c !in s[i..]
    ensures IndexFrom(s, i, c) == |s|
    decreases |s| - i
  {
    if i < |s| {
      assert s[i] == s[i..][0];
      assert s[i + 1..] == s[i..][1..];
      NoIndex(s, i + 1, c);
    }
  }

  lemma {:induction false} IndexBefore(s: string, i: nat, k: nat, c: char)
    requires i <= k < |s| && s[k] == c
    ensures IndexFrom(s, i, c) <= k
    decreases k - i
  {
    if i < k && s[i] != c {
      IndexBefore(s, i + 1, k, c);
    }
  }

  /** A text with c in it is two pieces at least. */
  lemma SplitTwo(s: string, k: nat, c: char)
    requires k < |s| && s[k] == c
    ensures |SplitOn(s, c)| >= 2
  {
    IndexBefore(s, 0, k, c);
  }

  lemma {:induction false} IndexIsFirst(s: string, i: nat, c: char)
    requires i <= |s|
    ensures c !in s[i..IndexFrom(s, i, c)]
    decreases |s| - i
  {
    if i < |s| && s[i] != c {
      IndexIsFirst(s, i + 1, c);
      assert s[i..IndexFrom(s, i, c)] == [s[i]] + s[i + 1..IndexFrom(s, i, c)];
    }
  }

  /** No piece holds the character split at. */
  lemma {:induction false} PieceLacks(s: string, i: nat, c: char, k: nat)
    requires i <= |s| && k < |SplitFrom(s, i, c)|
    ensures c !in SplitFrom(s, i, c)[k]
    decreases |s| - i
  {
    var e := IndexFrom(s, i, c);
    IndexIsFirst(s, i, c);
    if k > 0 {
      PieceLacks(s, e + 1, c, k - 1);
    } else {
      assert e == |s| ==> s[i..] == s[i..e];
    }
  }

  /** A text without c is one piece. */
  lemma SplitNone(s: string, c: char)
    requires c !in s
    ensures SplitOn(s, c) == [s]
  {
    assert s[0..] == s;
    NoIndex(s, 0, c);
  }

  lemma FirstCut(s: string, c: char) returns (a: string, rest: string)
    requires c in s
    ensures s == a + ([c] + rest) && c !in a
  {
    var k :| 0 <= k < |s| && s[k] == c;
    var e := IndexFrom(s, 0, c);
    IndexIsFirst(s, 0, c);
    IndexBefore(s, 0, k, c);
    CutAtIndex(s, 0, c);
    a, rest := s[..e], s[e + 1..];
  }

  lemma {:induction false} CutAtIndex(s: string, i: nat, c: char)
    requires i <= |s| && IndexFrom(s, i, c) < |s|
    ensures s[IndexFrom(s, i, c)] == c
    decreases |s| - i
  {
    if s[i] != c {
      CutAtIndex(s, i + 1, c);
    }
  }

  /** p stands in s between two c's, or between a c and an end. */
  ghost predicate Between(s: string, c: char, x: string, p: string, y: string) {
    s == x + (p + y) && c !in p && (x == "" || x[|x| - 1] == c) && (y == "" || y[0] == c)
  }

  lemma {:induction false} PieceBetween(s: string, c: char, p: string) returns (x: string, y: string)
    requires p in SplitOn(s, c)
    ensures Between(s, c, x, p, y)
    decreases |s|
  {
    if c in s {
      var a, rest := FirstCut(s, c);
      SplitFirst(a, c, rest);
      if p == a {
        x, y := "", [c] + rest;
      } else {
        x, y := PieceBetween(rest, c, p);
        assert s == a + [c] + x + (p + y);
        x := a + [c] + x;
      }
    } else {
      SplitNone(s, c);
      x, y := "", "";
    }
  }

  lemma NowhereIn(p: string, c: char)
    requires c !in p
    ensures forall k :: 0 <= k < |p| ==> p[k] != c
  {
  }

  /** The first cut of a text is the end of its first piece. */
  lemma SameCut(a: string, c: char, rest: string, p: string, y: string)
    requires c !in a && c !in p && a + ([c] + rest) == p + y && (y == "" || y[0] == c)
    ensures p == a
  {
    var s := a + ([c] + rest);
    NowhereIn(a, c);
    NowhereIn(p, c);
    assert forall k :: 0 <= k < |a| ==> s[k] == a[k];
    assert forall k :: 0 <= k < |p| ==> s[k] == p[k];
    assert s[|a|] == c && (y == "" || s[|p|] == c);
    assert |p| == |a|;
    assert s[..|a|] == a && s[..|p|] == p;
  }

  lemma LaterCut(a: string, c: char, rest: string, x: string, z: string)
    requires c !in a && a + ([c] + rest) == x + z && x != "" && x[|x| - 1] == c
    ensures |x| > |a| && rest == x[|a| + 1..] + z && (x[|a| + 1..] == "" || x[|a| + 1..][|x| - |a| - 2] == c)
  {
    var s := a + ([c] + rest);
    NowhereIn(a, c);
    assert forall k :: 0 <= k < |a| ==> s[k] == a[k];
    assert s[|x| - 1] == c;
    assert rest == s[|a| + 1..] && s[|a| + 1..] == x[|a| + 1..] + z;
  }

  lemma PartsLack(a: string, b: string, c: char)
    requires c !in a + b
    ensures c !in a && c !in b
  {
    NowhereIn(a + b, c);
    assert forall k :: 0 <= k < |a| ==> a[k] == (a + b)[k];
    assert forall k :: 0 <= k < |b| ==> b[k] == (a + b)[|a| + k];
  }

  lemma BetweenAlone(s: string, c: char, x: string, p: string, y: string)
    requires Between(s, c, x, p, y) && c !in s
    ensures p == s
  {
    PartsLack(x, p + y, c);
    PartsLack(p, y, c);
  }

  lemma {:induction false} BetweenIsPiece(s: string, c: char, x: string, p: string, y: string)
    requires Between(s, c, x, p, y)
    ensures p in SplitOn(s, c)
    decreases |s|
  {
    if c in s {
      var a, rest := FirstCut(s, c);
      SplitFirst(a, c, rest);
      if x == "" {
        SameCut(a, c, rest, p, y);
      } else {
        LaterCut(a, c, rest, x, p + y);
        BetweenIsPiece(rest, c, x[|a| + 1..], p, y);
      }
    } else {
      SplitNone(s, c);
      BetweenAlone(s, c, x, p, y);
    }
  }

  /** split gives exactly what stands between the separators. */
  lemma PieceIff(s: string, c: char, p: string)
    ensures p in SplitOn(s, c) <==> exists x: string, y: string :: Between(s, c, x, p, y)
  {
    if p in SplitOn(s, c) {
      var x, y := PieceBetween(s, c, p);
    } else if x: string, y: string :| Between(s, c, x, p, y) {
      BetweenIsPiece(s, c, x, p, y);
    }
  }

  predicate Contains(s: string, sub: string) {
    sub <= s || (s != "" && Contains(s[1..], sub))
  }

  lemma {:induction false} ContainsParts(s: string, sub: string) returns (a: string, b: string)
    requires Contains(s, sub)
    ensures s == a + (sub + b)
  {
    if sub <= s {
      a, b := "", s[|sub|..];
    } else {
      a, b := ContainsParts(s[1..], sub);
      assert s == [s[0]] + s[1..];
      a := [s[0]] + a;
    }
  }

  lemma {:induction false} PartsContain(a: string, sub: string, b: string)
    ensures Contains(a + (sub + b), sub)
  {
    if a == "" {
      assert a + (sub + b) == sub + b;
    } else {
      assert (a + (sub + b))[1..] == a[1..] + (sub + b);
      PartsContain(a[1..], sub, b);
    }
  }

  /** includes: the text is something, the part, something. */
  lemma ContainsIff(s: string, sub: string)
    ensures Contains(s, sub) <==> exists a: string, b: string :: s == a + (sub + b)
  {
    if Contains(s, sub) {
      var a, b := ContainsParts(s, sub);
    } else if a: string, b: string :| s == a + (sub + b) {
      PartsContain(a, sub, b);
    }
  }
}
