/** src/pages/ResearchReportPage.tsx, findSection: a chapter looked up in a Markdown report by its heading. */
module ReportSections {
  import opened Lists
  import opened Options
  import opened Whitespace

  // The two regular expressions, on one line of text

  predicate IsTerminator(c: char) { c == '\n' || c == '\r' || c == '\U{2028}' || c == '\U{2029}' }

  predicate IsBlank(c: char) { c == ' ' || c == '\t' }

  predicate Hashes(s: string, n: nat) { n <= |s| && forall i :: 0 <= i < n ==> s[i] == '#' }

  /** Some blanks, then the heading, then blanks to the end of the line. */
  predicate AfterBlanks(s: string, heading: string) {
    (heading <= s && Blank(s[|heading|..], IsBlank)) || (s != "" && IsBlank(s[0]) && AfterBlanks(s[1..], heading))
  }

  predicate HeadingLine(line: string, heading: string) {
    exists n: int :: 1 <= n <= 3 && Hashes(line, n) && AfterBlanks(line[n..], heading)
  }

  /** Where a section ends: one to three hashes and a blank, after any blanks. */
  predicate BoundaryLine(line: string) {
    var t := TrimStart(line, IsBlank);
    exists n: int :: 1 <= n <= 3 && Hashes(t, n) && n < |t| && IsBlank(t[n])
  }

  /** The first search, for a line that is the section's heading. */
  function Heads(heading: string): string -> bool { line => HeadingLine(line, heading) }

  // Searching line by line, as the m flag does

  function LineEnd(s: string, i: nat): (e: nat)
    requires i <= |s|
    ensures i <= e <= |s|
    decreases |s| - i
  {
    if i == |s| || IsTerminator(s[i]) then i else LineEnd(s, i + 1)
  }

  function LineAt(s: string, i: nat): string
    requires i <= |s|
  {
    s[i..LineEnd(s, i)]
  }

  /** Where exec's leftmost match from i on starts, if i starts a line. */
  function FirstLine(s: string, i: nat, p: string -> bool): (r: Option<nat>)
    requires i <= |s|
    ensures r.Some? ==> i <= r.value <= |s|
    decreases |s| - i
  {
    if p(LineAt(s, i)) then Some(i)
    else if LineEnd(s, i) == |s| then None
    else FirstLine(s, LineEnd(s, i) + 1, p)
  }

  /** The characters that end a line under the m flag, written out. */
  const TERMINATORS := "\n\r\U{2028}\U{2029}"

  predicate LineStart(s: string, i: nat, k: nat)
    requires i <= k <= |s|
  {
    k == i || s[k - 1] in TERMINATORS
  }

  lemma {:induction false} LineEndIsFirst(s: string, i: nat)
    requires i <= |s|
    ensures forall k :: i <= k < LineEnd(s, i) ==> !IsTerminator(s[k])
    ensures LineEnd(s, i) < |s| ==> IsTerminator(s[LineEnd(s, i)])
    decreases |s| - i
  {
    if i < |s| && !IsTerminator(s[i]) {
      LineEndIsFirst(s, i + 1);
    }
  }

  /** What FirstLine finds is a line that p matches. */
  lemma {:induction false} FirstLineFound(s: string, i: nat, p: string -> bool)
    requires i <= |s| && FirstLine(s, i, p).Some?
    ensures var k := FirstLine(s, i, p).value; LineStart(s, i, k) && p(LineAt(s, k))
    decreases |s| - i
  {
    if !p(LineAt(s, i)) {
      LineEndIsFirst(s, i);
      FirstLineFound(s, LineEnd(s, i) + 1, p);
    }
  }

  /** FirstLine misses no line that p matches, and none starts before the one it finds. */
  lemma {:induction false} FirstLineIsFirst(s: string, i: nat, p: string -> bool, k: nat)
    requires i <= k <= |s| && LineStart(s, i, k) && p(LineAt(s, k))
    ensures FirstLine(s, i, p).Some? && FirstLine(s, i, p).value <= k
    decreases |s| - i
  {
    if k > i && !p(LineAt(s, i)) {
      LineEndIsFirst(s, i);
      FirstLineIsFirst(s, LineEnd(s, i) + 1, p, k);
    }
  }

  /** The trimmed body under the first heading line, up to the next boundary line. */
  function FindSection(md: string, heading: string): Option<string> { FindBetween(md, Heads(heading), BoundaryLine) }

  function FindBetween(md: string, heads: string -> bool, ends: string -> bool): Option<string> {
    var m := FirstLine(md, 0, heads);
    if m.None? then None else Some(BodyOf(TailAt(md, m.value), ends))
  }

  /** What follows the line that starts at i. */
  function TailAt(s: string, i: nat): string
    requires i <= |s|
  {
    s[LineEnd(s, i)..]
  }

  function BodyOf(tail: string, ends: string -> bool): string {
    var next := FirstLine(tail, 0, ends);
    Trim(if next.Some? then tail[..next.value] else tail, IsJsSpace)
  }

  // Searching joined texts

  function Shifted(n: nat, r: Option<nat>): Option<nat> { if r.Some? then Some(n + r.value) else None }

  lemma {:induction false} LineEndShift(x: string, y: string, j: nat)
    requires j <= |y|
    ensures LineEnd(x + y, |x| + j) == |x| + LineEnd(y, j) && LineAt(x + y, |x| + j) == LineAt(y, j)
    decreases |y| - j
  {
    if j < |y| {
      LineEndShift(x, y, j + 1);
    }
  }

  lemma {:induction false} SearchShift(x: string, y: string, j: nat, p: string -> bool)
    requires j <= |y|
    ensures FirstLine(x + y, |x| + j, p) == Shifted(|x|, FirstLine(y, j, p))
    decreases |y| - j
  {
    LineEndShift(x, y, j);
    if !p(LineAt(y, j)) && LineEnd(y, j) < |y| {
      SearchShift(x, y, LineEnd(y, j) + 1, p);
    }
  }

  lemma {:induction false} LineEndBefore(a: string, rest: string, i: nat)
    requires i <= |a|
    ensures LineEnd(a + ("\n" + rest), i) == LineEnd(a, i) && LineAt(a + ("\n" + rest), i) == LineAt(a, i)
    decreases |a| - i
  {
    var s := a + ("\n" + rest);
    assert s[|a|] == '\n';
    if i < |a| {
      LineEndBefore(a, rest, i + 1);
    }
  }

  /** Searching a text and what follows its last line. */
  lemma {:induction false} SearchJoined(a: string, rest: string, i: nat, p: string -> bool)
    requires i <= |a|
    ensures FirstLine(a + ("\n" + rest), i, p) ==
            if FirstLine(a, i, p).Some? then FirstLine(a, i, p) else Shifted(|a| + 1, FirstLine(rest, 0, p))
    decreases |a| - i
  {
    LineEndBefore(a, rest, i);
    if !p(LineAt(a, i)) {
      if LineEnd(a, i) < |a| {
        SearchJoined(a, rest, LineEnd(a, i) + 1, p);
      } else {
        SearchShift(a + "\n", rest, 0, p);
        assert a + "\n" + rest == a + ("\n" + rest);
      }
    }
  }

  lemma OneLine(line: string, p: string -> bool)
    requires forall i :: 0 <= i < |line| ==> !IsTerminator(line[i])
    ensures LineEnd(line, 0) == |line| && FirstLine(line, 0, p) == if p(line) then Some(0) else None
  {
    LineEndIsFirst(line, 0);
    assert line[0..|line|] == line;
  }

  lemma TailShift(a: string, rest: string, k: nat)
    requires k <= |rest|
    ensures TailAt(a + ("\n" + rest), |a| + 1 + k) == TailAt(rest, k)
  {
    var x, e := a + "\n", LineEnd(rest, k);
    assert x + rest == a + ("\n" + rest);
    LineEndShift(x, rest, k);
    DropShift(x, rest, e);
  }

  lemma DropShift(x: string, y: string, j: nat)
    requires j <= |y|
    ensures (x + y)[|x| + j..] == y[j..]
  {
  }

  /** Two texts with the same tail under the line found give the same body. */
  lemma SameTail(s: string, t: string, heads: string -> bool, ends: string -> bool)
    requires var m, n := FirstLine(s, 0, heads), FirstLine(t, 0, heads);
      (m.None? && n.None?) || (m.Some? && n.Some? && TailAt(s, m.value) == TailAt(t, n.value))
    ensures FindBetween(s, heads, ends) == FindBetween(t, heads, ends)
  {
  }

  /** A text without the heading does not change what is found after it. */
  lemma SkipText(a: string, rest: string, heads: string -> bool, ends: string -> bool)
    requires FirstLine(a, 0, heads).None?
    ensures FindBetween(a + ("\n" + rest), heads, ends) == FindBetween(rest, heads, ends)
  {
    SearchJoined(a, rest, 0, heads);
    var m := FirstLine(rest, 0, heads);
    if m.Some? {
      TailShift(a, rest, m.value);
    }
    SameTail(a + ("\n" + rest), rest, heads, ends);
  }

  // The printer: second-level headings

  datatype Section = Section(title: string, body: string)

  function HeadingText(title: string): string { "## " + title }

  function Print(sections: seq<Section>): string {
    if sections == [] then ""
    else HeadingText(sections[0].title) + ("\n" + (sections[0].body + ("\n" + Print(sections[1..]))))
  }

  /** One line, not empty, no blank at either end, no hash in front. */
  predicate GoodTitle(title: string) {
    title != "" && title[0] != '#' && !IsBlank(title[0]) && !IsBlank(title[|title| - 1]) &&
    forall i :: 0 <= i < |title| ==> !IsTerminator(title[i])
  }

  lemma TitlesMatchOnlyThemselves(title: string, heading: string)
    requires GoodTitle(title) && GoodTitle(heading)
    ensures HeadingLine(HeadingText(title), heading) <==> title == heading
  {
    var line := HeadingText(title);
    assert line[0] == '#' && line[1] == '#' && line[2] == ' ';
    assert !AfterBlanks(line[1..], heading) by {
      assert line[1..][0] == '#';
    }
    var rest := line[2..];
    assert rest[0] == ' ' && rest[1..] == title;
    assert AfterBlanks(rest, heading) <==> AfterBlanks(title, heading);
    assert AfterBlanks(title, heading) <==> title == heading by {
      assert heading <= title && |heading| < |title| ==>
        title[|heading|..][|title| - |heading| - 1] == title[|title| - 1];
    }
    assert Hashes(line, 2) && !Hashes(line, 3);
  }

  lemma HeadingIsOneLine(title: string)
    requires GoodTitle(title)
    ensures forall i :: 0 <= i < |HeadingText(title)| ==> !IsTerminator(HeadingText(title)[i])
    ensures BoundaryLine(HeadingText(title))
  {
    var line := HeadingText(title);
    assert forall i :: 3 <= i < |line| ==> line[i] == title[i - 3];
    HashesEnd(line);
  }

  lemma HashesEnd(line: string)
    requires |line| > 2 && line[0] == '#' && line[1] == '#' && line[2] == ' '
    ensures BoundaryLine(line)
  {
    SolidFromIs(line, 0, 0, IsBlank);
    var t := TrimStart(line, IsBlank);
    assert t == line[0..] == line;
    assert Hashes(t, 2) && IsBlank(t[2]);
  }

  lemma SkipHeads(title: string, heading: string, rest: string)
    requires GoodTitle(title) && GoodTitle(heading) && title != heading
    ensures FindSection(HeadingText(title) + ("\n" + rest), heading) == FindSection(rest, heading)
  {
    TitlesMatchOnlyThemselves(title, heading);
    HeadingIsOneLine(title);
    OneLine(HeadingText(title), Heads(heading));
    SkipText(HeadingText(title), rest, Heads(heading), BoundaryLine);
  }

  lemma FoundFirst(title: string, rest: string)
    requires GoodTitle(title)
    ensures FindSection(HeadingText(title) + ("\n" + rest), title) == Some(BodyOf("\n" + rest, BoundaryLine))
  {
    var line := HeadingText(title);
    TitlesMatchOnlyThemselves(title, title);
    HeadingIsOneLine(title);
    OneLine(line, Heads(title));
    SearchJoined(line, rest, 0, Heads(title));
    LineEndBefore(line, rest, 0);
    assert (line + ("\n" + rest))[|line|..] == "\n" + rest;
  }

  /** What follows a section starts with a boundary line, or there is nothing. */
  lemma PrintStartsWithBoundary(sections: seq<Section>)
    requires forall s <- sections :: GoodTitle(s.title)
    ensures FirstLine(Print(sections), 0, BoundaryLine) == if sections == [] then None else Some(0)
  {
    if sections == [] {
      OneLine("", BoundaryLine);
    } else {
      var line := HeadingText(sections[0].title);
      HeadingIsOneLine(sections[0].title);
      OneLine(line, BoundaryLine);
      SearchJoined(line, sections[0].body + ("\n" + Print(sections[1..])), 0, BoundaryLine);
    }
  }

  // Where a body ends

  /** A boundary line holds a hash, so cutting a body there loses more than space. */
  lemma CutLoses(body: string, k: nat)
    requires k <= |body| && BoundaryLine(LineAt(body, k))
    ensures Trim(body[..k], IsJsSpace) != Trim(body, IsJsSpace)
  {
    var line := LineAt(body, k);
    var t := TrimStart(line, IsBlank);
    assert t[0] == '#' && t[0] == line[|line| - |t|] && line[|line| - |t|] == body[k..][|line| - |t|];
    assert !Blank(body[k..], IsJsSpace);
    SolidBlank(body[k..], IsJsSpace);
    SolidConcat(body[..k], body[k..], IsJsSpace);
    assert body[..k] + body[k..] == body;
    TrimKeepsSolid(body[..k], IsJsSpace);
    TrimKeepsSolid(body, IsJsSpace);
  }

  /** Searching below a heading line, whose own end counts as an empty line. */
  lemma SearchBelow(body: string, rest: string, p: string -> bool)
    requires !p("")
    ensures FirstLine("\n" + (body + ("\n" + rest)), 0, p) ==
            Shifted(1, if FirstLine(body, 0, p).Some? then FirstLine(body, 0, p)
                       else Shifted(|body| + 1, FirstLine(rest, 0, p)))
  {
    var inner := body + ("\n" + rest);
    assert "" + ("\n" + inner) == "\n" + inner;
    OneLine("", p);
    SearchJoined("", inner, 0, p);
    SearchJoined(body, rest, 0, p);
  }

  lemma TrimBody(body: string)
    ensures Trim("\n" + body, IsJsSpace) == Trim(body, IsJsSpace)
    ensures Trim("\n" + body + "\n", IsJsSpace) == Trim(body, IsJsSpace)
  {
    TrimPadStart(body, '\n', IsJsSpace);
    TrimPadEnd("\n" + body, '\n', IsJsSpace);
  }

  lemma CutBelow(body: string, rest: string, k: nat)
    requires k <= |body|
    ensures ("\n" + (body + ("\n" + rest)))[..1 + k] == "\n" + body[..k]
    ensures ("\n" + (body + ("\n" + rest)))[..|body| + 2] == "\n" + body + "\n"
    ensures rest == "" ==> "\n" + (body + ("\n" + rest)) == "\n" + body + "\n"
  {
  }

  lemma BodyEnds(body: string, rest: string, ends: string -> bool, k: nat)
    requires k <= |body| && FirstLine("\n" + (body + ("\n" + rest)), 0, ends) == Some(1 + k)
    ensures BodyOf("\n" + (body + ("\n" + rest)), ends) == Trim(body[..k], IsJsSpace)
  {
    CutBelow(body, rest, k);
    TrimBody(body[..k]);
  }

  lemma BodyGoesOn(body: string, rest: string, ends: string -> bool)
    requires FirstLine("\n" + (body + ("\n" + rest)), 0, ends) == if rest == "" then None else Some(|body| + 2)
    ensures BodyOf("\n" + (body + ("\n" + rest)), ends) == Trim(body, IsJsSpace)
  {
    CutBelow(body, rest, 0);
    TrimBody(body);
  }

  /** The text down to the next section: the whole body, or what comes before a line in it that ends it. */
  lemma BodyBelow(body: string, rest: string, ends: string -> bool)
    requires !ends("") && FirstLine(rest, 0, ends) == if rest == "" then None else Some(0)
    ensures var r := FirstLine(body, 0, ends);
      BodyOf("\n" + (body + ("\n" + rest)), ends) == Trim(if r.Some? then body[..r.value] else body, IsJsSpace)
  {
    SearchBelow(body, rest, ends);
    var r := FirstLine(body, 0, ends);
    if r.Some? {
      BodyEnds(body, rest, ends, r.value);
    } else {
      BodyGoesOn(body, rest, ends);
    }
  }

  lemma BodyIsWhole(body: string, rest: string)
    requires FirstLine(rest, 0, BoundaryLine) == if rest == "" then None else Some(0)
    ensures BodyOf("\n" + (body + ("\n" + rest)), BoundaryLine) == Trim(body, IsJsSpace) <==>
            FirstLine(body, 0, BoundaryLine).None?
  {
    BodyBelow(body, rest, BoundaryLine);
    var r := FirstLine(body, 0, BoundaryLine);
    if r.Some? {
      FirstLineFound(body, 0, BoundaryLine);
      CutLoses(body, r.value);
    }
  }

  // Lookup inverts printing

  /** No earlier title is the k-th, and no earlier body holds a line that reads as its heading. */
  ghost predicate Unshadowed(sections: seq<Section>, k: nat)
    requires k < |sections|
  {
    forall j :: 0 <= j < k ==>
      sections[j].title != sections[k].title && FirstLine(sections[j].body, 0, Heads(sections[k].title)).None?
  }

  lemma {:induction false} SkipSection(sections: seq<Section>, k: nat)
    requires 0 < k < |sections| && GoodTitle(sections[0].title) && GoodTitle(sections[k].title)
    requires Unshadowed(sections, k)
    ensures FindSection(Print(sections), sections[k].title) == FindSection(Print(sections[1..]), sections[k].title)
    ensures Unshadowed(sections[1..], k - 1)
  {
    SkipHeads(sections[0].title, sections[k].title, sections[0].body + ("\n" + Print(sections[1..])));
    SkipText(sections[0].body, Print(sections[1..]), Heads(sections[k].title), BoundaryLine);
  }

  /**
    * Looking a section up in a printed report gives its trimmed body exactly when no line of that body
    * is a boundary line, if titles differ and no body before it holds a line that reads as its heading.
    */
  lemma {:induction false} LookupInvertsPrinting(sections: seq<Section>, k: nat)
    requires k < |sections| && (forall s <- sections :: GoodTitle(s.title)) && Unshadowed(sections, k)
    ensures FindSection(Print(sections), sections[k].title) == Some(Trim(sections[k].body, IsJsSpace)) <==>
            FirstLine(sections[k].body, 0, BoundaryLine).None?
  {
    assert GoodTitle(sections[0].title) && GoodTitle(sections[k].title);
    if k == 0 {
      FoundFirst(sections[0].title, sections[0].body + ("\n" + Print(sections[1..])));
      PrintStartsWithBoundary(sections[1..]);
      BodyIsWhole(sections[0].body, Print(sections[1..]));
    } else {
      SkipSection(sections, k);
      LookupInvertsPrinting(sections[1..], k - 1);
    }
  }

  /** No section of that title, and no line that reads as its heading: nothing is found. */
  lemma {:induction false} MissingSection(sections: seq<Section>, title: string)
    requires GoodTitle(title) && forall s <- sections :: GoodTitle(s.title)
    requires forall s <- sections :: s.title != title && FirstLine(s.body, 0, Heads(title)).None?
    ensures FindSection(Print(sections), title) == None
  {
    if sections != [] {
      SkipHeads(sections[0].title, title, sections[0].body + ("\n" + Print(sections[1..])));
      SkipText(sections[0].body, Print(sections[1..]), Heads(title), BoundaryLine);
      MissingSection(sections[1..], title);
    } else {
      OneLine("", Heads(title));
    }
  }

  // The two regular expressions, read as concatenations

  function Sharps(n: nat): (s: string)
    ensures |s| == n && Hashes(s, n)
  {
    seq(n, i => '#')
  }

  /** Blanks, n hashes, one more blank, anything. */
  ghost predicate IsBoundary(line: string, blanks: string, n: nat, blank: char, rest: string) {
    line == blanks + (Sharps(n) + ([blank] + rest)) && 1 <= n <= 3 && (blank == ' ' || blank == '\t') &&
    forall i :: 0 <= i < |blanks| ==> blanks[i] == ' ' || blanks[i] == '\t'
  }

  lemma HashesAreSharps(s: string, n: nat)
    requires n <= |s|
    ensures Hashes(s, n) <==> s[..n] == Sharps(n)
  {
    if s[..n] == Sharps(n) {
      forall i | 0 <= i < n ensures s[i] == '#' {
        assert s[i] == s[..n][i];
      }
    }
  }

  lemma TrimStartBoundary(line: string, blanks: string, n: nat, blank: char, rest: string)
    requires IsBoundary(line, blanks, n, blank, rest)
    ensures TrimStart(line, IsBlank) == Sharps(n) + ([blank] + rest)
  {
    assert line[|blanks|] == '#';
    SolidFromIs(line, 0, |blanks|, IsBlank);
    DropPrefix(blanks, Sharps(n) + ([blank] + rest));
  }

  lemma PartsMakeBoundary(line: string, blanks: string, n: nat, blank: char, rest: string)
    requires IsBoundary(line, blanks, n, blank, rest)
    ensures BoundaryLine(line)
  {
    var t := Sharps(n) + ([blank] + rest);
    TrimStartBoundary(line, blanks, n, blank, rest);
    assert Hashes(t, n) && t[n] == blank;
  }

  lemma BoundaryParts(line: string) returns (blanks: string, n: nat, blank: char, rest: string)
    requires BoundaryLine(line)
    ensures IsBoundary(line, blanks, n, blank, rest)
  {
    var t := TrimStart(line, IsBlank);
    var k: int :| 1 <= k <= 3 && Hashes(t, k) && k < |t| && IsBlank(t[k]);
    blanks, n, blank, rest := line[..SolidFrom(line, 0, IsBlank)], k, t[k], t[k + 1..];
    SolidFromSkips(line, 0, IsBlank);
    SharpsThen(t, n);
    assert line == blanks + t;
  }

  lemma SharpsThen(t: string, n: nat)
    requires Hashes(t, n) && n < |t|
    ensures t == Sharps(n) + ([t[n]] + t[n + 1..])
  {
    HashesAreSharps(t, n);
    assert t == t[..n] + ([t[n]] + t[n + 1..]);
  }

  /** A section ends at exactly the lines of that form. */
  lemma BoundaryLineIff(line: string)
    ensures BoundaryLine(line) <==>
            exists blanks: string, n: nat, blank: char, rest: string :: IsBoundary(line, blanks, n, blank, rest)
  {
    if BoundaryLine(line) {
      var blanks, n, blank, rest := BoundaryParts(line);
    } else if blanks: string, n: nat, blank: char, rest: string :| IsBoundary(line, blanks, n, blank, rest) {
      PartsMakeBoundary(line, blanks, n, blank, rest);
    }
  }

  /** One to three hashes, blanks, the heading, blanks. */
  ghost predicate IsHeading(line: string, heading: string, n: nat, before: string, after: string) {
    line == Sharps(n) + (before + (heading + after)) && 1 <= n <= 3 &&
    (forall i :: 0 <= i < |before| ==> before[i] == ' ' || before[i] == '\t') &&
    forall i :: 0 <= i < |after| ==> after[i] == ' ' || after[i] == '\t'
  }

  lemma {:induction false} BlanksThen(s: string, heading: string, before: string, after: string)
    requires s == before + (heading + after) && Blank(before, IsBlank) && Blank(after, IsBlank)
    ensures AfterBlanks(s, heading)
  {
    if before == "" {
      assert s == heading + after;
      DropPrefix(heading, after);
    } else {
      assert s[1..] == before[1..] + (heading + after);
      BlanksThen(s[1..], heading, before[1..], after);
    }
  }

  lemma {:induction false} ThenBlanks(s: string, heading: string) returns (before: string, after: string)
    requires AfterBlanks(s, heading)
    ensures s == before + (heading + after) && Blank(before, IsBlank) && Blank(after, IsBlank)
  {
    if heading <= s && Blank(s[|heading|..], IsBlank) {
      before, after := "", s[|heading|..];
    } else {
      before, after := ThenBlanks(s[1..], heading);
      assert s == [s[0]] + s[1..];
      before := [s[0]] + before;
    }
  }

  lemma PartsMakeHeading(line: string, heading: string, n: nat, before: string, after: string)
    requires 1 <= n <= 3 && Hashes(line, n) && line[n..] == before + (heading + after)
    requires Blank(before, IsBlank) && Blank(after, IsBlank)
    ensures IsHeading(line, heading, n, before, after)
  {
    HashesAreSharps(line, n);
    assert line == line[..n] + line[n..];
  }

  lemma HeadingParts(line: string, heading: string) returns (n: nat, before: string, after: string)
    requires HeadingLine(line, heading)
    ensures IsHeading(line, heading, n, before, after)
  {
    var k: int :| 1 <= k <= 3 && Hashes(line, k) && AfterBlanks(line[k..], heading);
    n := k;
    before, after := ThenBlanks(line[n..], heading);
    PartsMakeHeading(line, heading, n, before, after);
  }

  /** A heading is found on exactly the lines of that form. */
  lemma HeadingLineIff(line: string, heading: string)
    ensures HeadingLine(line, heading) <==>
            exists n: nat, before: string, after: string :: IsHeading(line, heading, n, before, after)
  {
    if HeadingLine(line, heading) {
      var n, before, after := HeadingParts(line, heading);
    } else if n: nat, before: string, after: string :| IsHeading(line, heading, n, before, after) {
      HashesAreSharps(line, n);
      DropPrefix(Sharps(n), before + (heading + after));
      BlanksThen(line[n..], heading, before, after);
    }
  }
}
