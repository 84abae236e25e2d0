/**
  * backend/scripts/check_structured_exclusions.py: the table of nodes exempt from structured output,
  * read line by line, and checked against the registry.
  */
module Exclusions {
  import opened Options
  import opened Lists
  import opened TableText
  import opened Whitespace

  // Lines, as Python's splitlines gives them

  predicate IsBreak(c: char) {
    '\n' <= c <= '\r' || '\U{001C}' <= c <= '\U{001E}' || c == '\U{0085}' || c == '\U{2028}' || c == '\U{2029}'
  }

  function BreakFrom(s: string, i: nat): (e: nat)
    requires i <= |s|
    ensures i <= e <= |s|
    decreases |s| - i
  {
    if i == |s| || IsBreak(s[i]) then i else BreakFrom(s, i + 1)
  }

  /** A carriage return and a line feed are one break. */
  function AfterBreak(s: string, e: nat): (k: nat)
    requires e < |s|
    ensures e < k <= |s|
  {
    if s[e] == '\r' && e + 1 < |s| && s[e + 1] == '\n' then e + 2 else e + 1
  }

  function LinesFrom(s: string, i: nat): seq<string>
    requires i <= |s|
    decreases |s| - i
  {
    var e := BreakFrom(s, i);
    if i == |s| then [] else if e == |s| then [s[i..]] else [s[i..e]] + LinesFrom(s, AfterBreak(s, e))
  }

  function SplitLines(s: string): seq<string> { LinesFrom(s, 0) }

  // What a line is

  datatype Line = Header | Rule | Entry(node: string, kind: string) | NoEntry | Plain

  predicate IsHeader(stripped: string) {
    "|" <= stripped && Contains(stripped, "node_id") && Contains(stripped, "kind")
  }

  /** The second and third piece between bars, if there are five pieces and neither is blank. */
  function EntryOf(pieces: seq<string>, space: char -> bool): Line {
    if |pieces| >= 5 && Trim(pieces[1], space) != "" && Trim(pieces[2], space) != "" then
      Entry(Trim(pieces[1], space), Trim(pieces[2], space))
    else NoEntry
  }

  function LineOf(line: string): Line {
    var stripped := Trim(line, IsPySpace);
    if IsHeader(stripped) then Header
    else if "|---" <= stripped then Rule
    else if "|" <= stripped then EntryOf(SplitOn(stripped, '|'), IsPySpace)
    else Plain
  }

  // The document: the header, then the rule, then entries up to the first line without a bar

  function After(ls: seq<Line>, l: Line): seq<Line> {
    if ls == [] then [] else if ls[0] == l then ls[1..] else After(ls[1..], l)
  }

  function Entries(ls: seq<Line>): map<string, string> {
    if ls == [] || ls[0].Plain? then map[]
    else (if ls[0].Entry? then map[ls[0].node := ls[0].kind] else map[]) + Entries(ls[1..])
  }

  function Table(ls: seq<Line>): map<string, string> { Entries(After(After(ls, Header), Rule)) }

  function DocRows(text: string): map<string, string> { Table(Map(SplitLines(text), LineOf)) }

  /** What is left of the table to read, in the loop's three states. */
  function Rest(headerSeen: bool, inTable: bool, rows: map<string, string>, ls: seq<Line>): map<string, string> {
    if inTable then rows + Entries(ls) else if headerSeen then Entries(After(ls, Rule)) else Table(ls)
  }

  lemma RestNext(headerSeen: bool, inTable: bool, rows: map<string, string>, ls: seq<Line>)
    requires ls != [] && (inTable ==> headerSeen && !ls[0].Plain?) && (!inTable ==> rows == map[])
    ensures var seen := headerSeen || ls[0] == Header; var inside := inTable || (headerSeen && ls[0] == Rule);
      Rest(headerSeen, inTable, rows, ls) ==
      Rest(seen, inside, if inTable && ls[0].Entry? then rows[ls[0].node := ls[0].kind] else rows, ls[1..])
  {
  }

  method ParseDoc(text: string) returns (rows: map<string, string>)
    ensures rows == DocRows(text)
  {
    var lines := SplitLines(text);
    var inTable, headerSeen := false, false;
    rows := map[];
    ghost var ls := Map(lines, LineOf);
    for n := 0 to |lines|
      invariant ls == Map(lines, LineOf)[n..]
      invariant (inTable ==> headerSeen) && (!inTable ==> rows == map[])
      invariant DocRows(text) == Rest(headerSeen, inTable, rows, ls)
    {
      ghost var l := LineOf(lines[n]);
      assert ls[0] == l;
      var stripped := Trim(lines[n], IsPySpace);
      if !(inTable && l.Plain?) {
        RestNext(headerSeen, inTable, rows, ls);
        ls := ls[1..];
      }
      if "|" <= stripped && Contains(stripped, "node_id") && Contains(stripped, "kind") {
        headerSeen := true;
        continue;
      }
      if headerSeen && "|---" <= stripped {
        inTable := true;
        continue;
      }
      if inTable {
        if !("|" <= stripped) {
          break;
        }
        var parts := SplitOn(stripped, '|');
        if |parts| >= 5 {
          var node, kind := Trim(parts[1], IsPySpace), Trim(parts[2], IsPySpace);
          if node != "" && kind != "" {
            rows := rows[node := kind];
          }
        }
      }
    }
  }

  // A printed entry

  datatype Exempt = Exempt(node: string, kind: string, reason: string)

  function EntryText(x: Exempt): string {
    "" + (['|'] + (Pad(x.node) + (['|'] + (Pad(x.kind) + (['|'] + (Pad(x.reason) + ['|']))))))
  }

  lemma EntryPieces(x: Exempt)
    requires '|' !in x.node && '|' !in x.kind
    ensures var pieces := SplitOn(EntryText(x), '|');
      |pieces| >= 5 && pieces[1] == Pad(x.node) && pieces[2] == Pad(x.kind)
  {
    var last := Pad(x.reason) + ['|'];
    SplitTwo(last, |last| - 1, '|');
    SplitFirst(Pad(x.kind), '|', last);
    SplitFirst(Pad(x.node), '|', Pad(x.kind) + (['|'] + last));
    SplitFirst("", '|', Pad(x.node) + (['|'] + (Pad(x.kind) + (['|'] + last))));
  }

  lemma EntryOfPieces(pieces: seq<string>, node: string, kind: string, space: char -> bool)
    requires |pieces| >= 5 && pieces[1] == Pad(node) && pieces[2] == Pad(kind) && space(' ')
    ensures EntryOf(pieces, space) == Entry(node, kind) <==> CleanCell(node, space) && CleanCell(kind, space)
  {
    PadIsTrimmed(node, space);
    PadIsTrimmed(kind, space);
  }

  lemma EntryEnds(x: Exempt)
    ensures "|" <= EntryText(x) && !("|---" <= EntryText(x)) && Trim(EntryText(x), IsPySpace) == EntryText(x)
  {
    var text := EntryText(x);
    assert text[0] == '|' && text[1] == ' ' && text[|text| - 1] == '|';
    TrimIsTrimmed(text, IsPySpace);
  }

  /** The text holds the two words that make a line a header. */
  predicate ReadsAsHeader(text: string) { Contains(text, "node_id") && Contains(text, "kind") }

  /** A printed entry reads back exactly when its cells are clean and its text does not read as a header. */
  lemma {:induction false} EntryRoundTrip(x: Exempt)
    requires '|' !in x.node && '|' !in x.kind
    ensures LineOf(EntryText(x)) == Entry(x.node, x.kind) <==>
            CleanCell(x.node, IsPySpace) && CleanCell(x.kind, IsPySpace) && !ReadsAsHeader(EntryText(x))
  {
    EntryEnds(x);
    EntryPieces(x);
    EntryOfPieces(SplitOn(EntryText(x), '|'), x.node, x.kind, IsPySpace);
  }

  // Any line

  /** A bar and three pieces, each ended by a bar, and whatever follows. */
  ghost predicate Barred(text: string, a: string, b: string, c: string, d: string) {
    text == "" + (['|'] + (a + (['|'] + (b + (['|'] + (c + (['|'] + d))))))) &&
    '|' !in a && '|' !in b && '|' !in c
  }

  lemma BarredPieces(text: string, a: string, b: string, c: string, d: string)
    requires Barred(text, a, b, c, d)
    ensures var pieces := SplitOn(text, '|'); |pieces| >= 5 && pieces[1] == a && pieces[2] == b
  {
    SplitFirst(c, '|', d);
    SplitFirst(b, '|', c + (['|'] + d));
    SplitFirst(a, '|', b + (['|'] + (c + (['|'] + d))));
    SplitFirst("", '|', a + (['|'] + (b + (['|'] + (c + (['|'] + d))))));
  }

  /** A text of two pieces or more, at its first bar. */
  lemma FirstBar(text: string) returns (a: string, rest: string)
    requires |SplitOn(text, '|')| >= 2
    ensures text == a + (['|'] + rest) && '|' !in a && SplitOn(text, '|') == [a] + SplitOn(rest, '|')
  {
    if '|' !in text {
      SplitNone(text, '|');
    }
    a, rest := FirstCut(text, '|');
    SplitFirst(a, '|', rest);
  }

  lemma PiecesBarred(text: string) returns (a: string, b: string, c: string, d: string)
    requires "|" <= text && |SplitOn(text, '|')| >= 5
    ensures Barred(text, a, b, c, d)
  {
    var first, r1 := FirstBar(text);
    assert text[0] == '|';
    var r2, r3;
    a, r2 := FirstBar(r1);
    b, r3 := FirstBar(r2);
    c, d := FirstBar(r3);
  }
  /** The words that make a stripped line the header stand in it, somewhere behind a bar at its start. */
  ghost predicate Heads(text: string) {
    (exists rest: string :: text == "|" + rest) &&
    (exists x: string, y: string :: text == x + ("node_id" + y)) &&
    exists x: string, y: string :: text == x + ("kind" + y)
  }

  lemma StartsIff(text: string, start: string)
    ensures start <= text <==> exists rest: string :: text == start + rest
  {
    if start <= text {
      assert text == start + text[|start|..];
    }
  }

  lemma HeadsIff(text: string)
    ensures IsHeader(text) <==> Heads(text)
  {
    StartsIff(text, "|");
    ContainsIff(text, "node_id");
    ContainsIff(text, "kind");
  }

  /** How a line is read: as the header, else as a rule if it starts like one, else as an entry or as none. */
  lemma {:induction false} LineWritten(line: string, node: string, kind: string)
    ensures var text, l := Trim(line, IsPySpace), LineOf(line);
      && (l == Header <==> Heads(text))
      && (l == Rule <==> !Heads(text) && exists rest: string :: text == "|---" + rest)
      && (l == Entry(node, kind) <==>
            l != Header && l != Rule && node != "" && kind != "" &&
            exists a: string, b: string, c: string, d: string ::
              Barred(text, a, b, c, d) && Trim(a, IsPySpace) == node && Trim(b, IsPySpace) == kind)
      && (l == Plain <==> !exists rest: string :: text == "|" + rest)
  {
    var text := Trim(line, IsPySpace);
    HeadsIff(text);
    StartsIff(text, "|");
    StartsIff(text, "|---");
    EntryIff(line, node, kind);
  }

  lemma {:induction false} EntryIff(line: string, node: string, kind: string)
    ensures LineOf(line) == Entry(node, kind) <==>
            LineOf(line) != Header && LineOf(line) != Rule && node != "" && kind != "" &&
            exists a: string, b: string, c: string, d: string ::
              Barred(Trim(line, IsPySpace), a, b, c, d) && Trim(a, IsPySpace) == node && Trim(b, IsPySpace) == kind
  {
    var text := Trim(line, IsPySpace);
    if LineOf(line) == Entry(node, kind) {
      var a, b, c, d := PiecesBarred(text);
      BarredPieces(text, a, b, c, d);
    } else if a: string, b: string, c: string, d: string :|
      Barred(text, a, b, c, d) && Trim(a, IsPySpace) == node && Trim(b, IsPySpace) == kind
    {
      BarredPieces(text, a, b, c, d);
      assert text[0] == '|';
    }
  }

  // A printed document

  function Text(lines: seq<string>): string {
    if lines == [] then "" else lines[0] + (['\n'] + Text(lines[1..]))
  }

  predicate NoBreak(line: string) { forall i :: 0 <= i < |line| ==> !IsBreak(line[i]) }

  lemma {:induction false} BreakShift(x: string, y: string, j: nat)
    requires j <= |y|
    ensures BreakFrom(x + y, |x| + j) == |x| + BreakFrom(y, j)
    decreases |y| - j
  {
    if j < |y| {
      BreakShift(x, y, j + 1);
    }
  }

  lemma AfterBreakShift(x: string, y: string, e: nat)
    requires e < |y|
    ensures AfterBreak(x + y, |x| + e) == |x| + AfterBreak(y, e)
  {
  }

  lemma FirstOfLines(s: string, i: nat, e: nat, k: nat)
    requires i < |s| && e == BreakFrom(s, i) && e < |s| && k == AfterBreak(s, e)
    ensures LinesFrom(s, i) == [s[i..e]] + LinesFrom(s, k)
  {
  }

  lemma {:induction false} LinesShift(x: string, y: string, j: nat)
    requires j <= |y|
    ensures LinesFrom(x + y, |x| + j) == LinesFrom(y, j)
    decreases |y| - j
  {
    var e := BreakFrom(y, j);
    BreakShift(x, y, j);
    SliceShift(x, y, j, e);
    if e < |y| {
      var k := AfterBreak(y, e);
      AfterBreakShift(x, y, e);
      LinesShift(x, y, k);
      FirstShift(x, y, j, e, k);
    } else {
      LastOfLines(x + y, |x| + j);
      LastOfLines(y, j);
    }
  }

  lemma FirstShift(x: string, y: string, j: nat, e: nat, k: nat)
    requires j <= e < |y| && e == BreakFrom(y, j) && k == AfterBreak(y, e)
    requires BreakFrom(x + y, |x| + j) == |x| + e && AfterBreak(x + y, |x| + e) == |x| + k
    requires (x + y)[|x| + j..|x| + e] == y[j..e] && LinesFrom(x + y, |x| + k) == LinesFrom(y, k)
    ensures LinesFrom(x + y, |x| + j) == LinesFrom(y, j)
  {
    FirstOfLines(x + y, |x| + j, |x| + e, |x| + k);
    FirstOfLines(y, j, e, k);
  }

  lemma LastOfLines(s: string, i: nat)
    requires i <= |s| && BreakFrom(s, i) == |s|
    ensures LinesFrom(s, i) == if i == |s| then [] else [s[i..]]
  {
  }

  lemma SliceShift(x: string, y: string, j: nat, e: nat)
    requires j <= e <= |y|
    ensures (x + y)[|x| + j..|x| + e] == y[j..e] && (x + y)[|x| + j..] == y[j..]
  {
  }

  /** The characters at which splitlines breaks, written out. */
  const BREAKS := "\n\U{000B}\U{000C}\r\U{001C}\U{001D}\U{001E}\U{0085}\U{2028}\U{2029}"

  lemma BreaksWritten(c: char)
    ensures IsBreak(c) <==> c in BREAKS
  {
  }

  lemma {:induction false} FirstBreak(a: string, i: nat, rest: string)
    requires i <= |a| && NoBreak(a) && rest != "" && IsBreak(rest[0])
    ensures BreakFrom(a + rest, i) == |a|
    decreases |a| - i
  {
    if i < |a| {
      FirstBreak(a, i + 1, rest);
    }
  }

  /** One break: any of those characters, or a carriage return and a line feed together. */
  predicate OneBreak(br: string, rest: string) {
    br == "\r\n" || (|br| == 1 && br[0] in BREAKS && !(br == "\r" && "\n" <= rest))
  }

  /** A line ends at its first break, and the next one starts behind it. */
  lemma LineThenBreak(a: string, br: string, rest: string)
    requires NoBreak(a) && OneBreak(br, rest)
    ensures SplitLines(a + (br + rest)) == [a] + SplitLines(rest)
  {
    var s := a + (br + rest);
    BreaksWritten(br[0]);
    FirstBreak(a, 0, br + rest);
    assert s == a + br + rest && s[|a|] == br[0] && s[0..|a|] == a;
    assert AfterBreak(s, |a|) == |a + br|;
    LinesShift(a + br, rest, 0);
  }

  lemma LinesFirst(a: string, rest: string)
    requires NoBreak(a)
    ensures SplitLines(a + (['\n'] + rest)) == [a] + SplitLines(rest)
  {
    LineThenBreak(a, "\n", rest);
  }

  lemma {:induction false} SplitText(lines: seq<string>)
    requires forall i :: 0 <= i < |lines| ==> NoBreak(lines[i])
    ensures SplitLines(Text(lines)) == lines
  {
    if lines != [] {
      SplitText(lines[1..]);
      LinesFirst(lines[0], Text(lines[1..]));
    }
  }

  /** The dictionary that listing entries in turn gives: the last of a node wins. */
  function MapOf(xs: seq<Exempt>): (m: map<string, string>)
    ensures m.Keys == set i | 0 <= i < |xs| :: xs[i].node
  {
    if xs == [] then map[] else map[xs[0].node := xs[0].kind] + MapOf(xs[1..])
  }

  lemma {:induction false} AfterFirst(a: seq<Line>, l: Line, rest: seq<Line>)
    requires l !in a
    ensures After(a + ([l] + rest), l) == rest
  {
    if a == [] {
      assert a + ([l] + rest) == [l] + rest;
    } else {
      assert (a + ([l] + rest))[1..] == a[1..] + ([l] + rest);
      AfterFirst(a[1..], l, rest);
    }
  }

  lemma {:induction false} EntriesOf(xs: seq<Exempt>, entries: seq<Line>, rest: seq<Line>)
    requires |entries| == |xs| && forall i :: 0 <= i < |xs| ==> entries[i] == Entry(xs[i].node, xs[i].kind)
    requires rest == [] || rest[0].Plain?
    ensures Entries(entries + rest) == MapOf(xs)
  {
    if xs == [] {
      assert entries + rest == rest;
    } else {
      assert (entries + rest)[1..] == entries[1..] + rest;
      EntriesOf(xs[1..], entries[1..], rest);
    }
  }

  lemma TableOf(before: seq<Line>, ls: seq<Line>)
    requires Header !in before
    ensures Table(before + ([Header] + ([Rule] + ls))) == Entries(ls)
  {
    AfterFirst(before, Header, [Rule] + ls);
    AfterFirst([], Rule, ls);
    assert [] + ([Rule] + ls) == [Rule] + ls;
  }

  predicate Readable(x: Exempt) {
    '|' !in x.node && '|' !in x.kind && CleanCell(x.node, IsPySpace) && CleanCell(x.kind, IsPySpace) &&
    !ReadsAsHeader(EntryText(x))
  }

  function DocLines(before: seq<string>, header: string, rule: string, xs: seq<Exempt>,
                    after: seq<string>): seq<string>
  {
    before + ([header] + ([rule] + (Map(xs, EntryText) + after)))
  }

  lemma MapDoc<T, U>(before: seq<T>, header: T, rule: T, entries: seq<T>, after: seq<T>, f: T -> U)
    ensures Map(before + ([header] + ([rule] + (entries + after))), f) ==
            Map(before, f) + ([f(header)] + ([f(rule)] + (Map(entries, f) + Map(after, f))))
  {
  }

  lemma EntryLines(xs: seq<Exempt>)
    requires forall i :: 0 <= i < |xs| ==> Readable(xs[i])
    ensures var entries := Map(Map(xs, EntryText), LineOf);
      |entries| == |xs| && forall i :: 0 <= i < |xs| ==> entries[i] == Entry(xs[i].node, xs[i].kind)
  {
    forall i | 0 <= i < |xs| ensures LineOf(EntryText(xs[i])) == Entry(xs[i].node, xs[i].kind) {
      EntryRoundTrip(xs[i]);
    }
  }

  predicate NotHeader(before: seq<Line>, after: seq<Line>) { Header !in before && (after == [] || after[0].Plain?) }

  /**
    * The table printed from entries parses to exactly their map, whatever lines that are no header come
    * before it, and whatever comes after the first line without a bar.
    */
  lemma {:induction false} ParseInvertsPrinting(before: seq<string>, header: string, rule: string, xs: seq<Exempt>,
                                                after: seq<string>)
    requires var lines := DocLines(before, header, rule, xs, after);
      forall i :: 0 <= i < |lines| ==> NoBreak(lines[i])
    requires NotHeader(Map(before, LineOf), Map(after, LineOf)) && LineOf(header) == Header && LineOf(rule) == Rule
    requires forall i :: 0 <= i < |xs| ==> Readable(xs[i])
    ensures DocRows(Text(DocLines(before, header, rule, xs, after))) == MapOf(xs)
  {
    PrintedTable(before, header, rule, xs, after);
    EntryLines(xs);
    EntriesOf(xs, Map(Map(xs, EntryText), LineOf), Map(after, LineOf));
  }

  lemma {:induction false} PrintedTable(before: seq<string>, header: string, rule: string, xs: seq<Exempt>,
                                        after: seq<string>)
    requires var lines := DocLines(before, header, rule, xs, after);
      forall i :: 0 <= i < |lines| ==> NoBreak(lines[i])
    requires Header !in Map(before, LineOf) && LineOf(header) == Header && LineOf(rule) == Rule
    ensures DocRows(Text(DocLines(before, header, rule, xs, after))) ==
            Entries(Map(Map(xs, EntryText), LineOf) + Map(after, LineOf))
  {
    SplitText(DocLines(before, header, rule, xs, after));
    MapDoc(before, header, rule, Map(xs, EntryText), after, LineOf);
    TableOf(Map(before, LineOf), Map(Map(xs, EntryText), LineOf) + Map(after, LineOf));
  }

  // Only readable entries read back

  /** What the table holds for a node is the kind of some line of that node, above the first plain line. */
  lemma {:induction false} EntriesWitness(ls: seq<Line>, rest: seq<Line>, node: string) returns (j: nat)
    requires (rest == [] || rest[0].Plain?) && node in Entries(ls + rest)
    ensures j < |ls| && ls[j] == Entry(node, Entries(ls + rest)[node])
  {
    EmptyFirst(rest);
    if ls != [] {
      assert (ls + rest)[1..] == ls[1..] + rest;
      if node in Entries(ls[1..] + rest) {
        j := EntriesWitness(ls[1..], rest, node);
        j := j + 1;
      } else {
        j := 0;
      }
    }
  }

  predicate DistinctNodes(xs: seq<Exempt>) { forall i, j :: 0 <= i < j < |xs| ==> xs[i].node != xs[j].node }

  lemma {:induction false} MapOfHas(xs: seq<Exempt>, i: nat)
    requires i < |xs| && DistinctNodes(xs)
    ensures xs[i].node in MapOf(xs) && MapOf(xs)[xs[i].node] == xs[i].kind
  {
    if i > 0 {
      assert xs[1..][i - 1] == xs[i] && xs[0].node != xs[i].node;
      MapOfHas(xs[1..], i - 1);
    }
  }

  /** What a line reads as never holds a bar, and its parts are trimmed. */
  lemma EntryParts(line: string)
    requires LineOf(line).Entry?
    ensures '|' !in LineOf(line).node && '|' !in LineOf(line).kind
    ensures CleanCell(LineOf(line).node, IsPySpace) && CleanCell(LineOf(line).kind, IsPySpace)
  {
    var pieces := SplitOn(Trim(line, IsPySpace), '|');
    PieceLacks(Trim(line, IsPySpace), 0, '|', 1);
    PieceLacks(Trim(line, IsPySpace), 0, '|', 2);
    TrimIsTrimmed(pieces[1], IsPySpace);
    TrimIsTrimmed(pieces[2], IsPySpace);
    TrimIsTrimmed(Trim(pieces[1], IsPySpace), IsPySpace);
    TrimIsTrimmed(Trim(pieces[2], IsPySpace), IsPySpace);
  }

  lemma EntryReads(x: Exempt)
    requires '|' !in x.node && '|' !in x.kind && LineOf(EntryText(x)).Entry?
    ensures LineOf(EntryText(x)) == Entry(Trim(x.node, IsPySpace), Trim(x.kind, IsPySpace))
  {
    EntryEnds(x);
    EntryPieces(x);
    PadIsTrimmed(x.node, IsPySpace);
    PadIsTrimmed(x.kind, IsPySpace);
  }

  /** In a table that reads as the map of its entries, some line reads as each of them. */
  lemma LineForEach(xs: seq<Exempt>, rest: seq<Line>, i: nat) returns (j: nat)
    requires DistinctNodes(xs) && i < |xs| && (rest == [] || rest[0].Plain?)
    requires Entries(Map(Map(xs, EntryText), LineOf) + rest) == MapOf(xs)
    ensures j < |xs| && LineOf(EntryText(xs[j])) == Entry(xs[i].node, xs[i].kind)
    ensures '|' !in xs[i].node && '|' !in xs[i].kind
    ensures CleanCell(xs[i].node, IsPySpace) && CleanCell(xs[i].kind, IsPySpace)
  {
    MapOfHas(xs, i);
    j := EntriesWitness(Map(Map(xs, EntryText), LineOf), rest, xs[i].node);
    EntryParts(EntryText(xs[j]));
  }

  lemma AllReadable(xs: seq<Exempt>, rest: seq<Line>, i: nat)
    requires DistinctNodes(xs) && i < |xs| && (rest == [] || rest[0].Plain?)
    requires Entries(Map(Map(xs, EntryText), LineOf) + rest) == MapOf(xs)
    ensures Readable(xs[i])
  {
    var j := LineForEach(xs, rest, i);
    var k := LineForEach(xs, rest, j);
    EntryReads(xs[j]);
    assert xs[i].node == xs[j].node;
    assert i == j;
    EntryRoundTrip(xs[i]);
  }

  /** The table printed from entries of distinct nodes parses to their map if and only if each is readable. */
  lemma {:induction false} TableRoundTrip(before: seq<string>, header: string, rule: string, xs: seq<Exempt>,
                                          after: seq<string>)
    requires var lines := DocLines(before, header, rule, xs, after);
      forall i :: 0 <= i < |lines| ==> NoBreak(lines[i])
    requires NotHeader(Map(before, LineOf), Map(after, LineOf)) && LineOf(header) == Header && LineOf(rule) == Rule
    requires DistinctNodes(xs)
    ensures DocRows(Text(DocLines(before, header, rule, xs, after))) == MapOf(xs) <==>
            forall i :: 0 <= i < |xs| ==> Readable(xs[i])
  {
    PrintedTable(before, header, rule, xs, after);
    if forall i :: 0 <= i < |xs| ==> Readable(xs[i]) {
      ParseInvertsPrinting(before, header, rule, xs, after);
    } else if DocRows(Text(DocLines(before, header, rule, xs, after))) == MapOf(xs) {
      forall i | 0 <= i < |xs| ensures Readable(xs[i]) {
        AllReadable(xs, Map(after, LineOf), i);
      }
    }
  }

  const HEADER_LINE := "| " + "node_id" + " | " + "kind" + " | exclusion_reason |"

  const RULE_LINE := "|---|---|---|"

  lemma {:induction false} ContainsAt(s: string, i: nat, sub: string)
    requires i + |sub| <= |s| && s[i..i + |sub|] == sub
    ensures Contains(s, sub)
  {
    if i > 0 {
      assert s[1..][i - 1..i - 1 + |sub|] == s[i..i + |sub|];
      ContainsAt(s[1..], i - 1, sub);
    }
  }

  /** The contract document's own header and rule are ones. */
  lemma OwnHeader()
    ensures LineOf(HEADER_LINE) == Header && LineOf(RULE_LINE) == Rule
  {
    TrimIsTrimmed(HEADER_LINE, IsPySpace);
    TrimIsTrimmed(RULE_LINE, IsPySpace);
    assert HEADER_LINE[2..2 + |"node_id"|] == "node_id" && HEADER_LINE[12..12 + |"kind"|] == "kind";
    ContainsAt(HEADER_LINE, 2, "node_id");
    ContainsAt(HEADER_LINE, 12, "kind");
    OnlyDashes(RULE_LINE);
  }

  lemma {:induction false} OnlyDashes(s: string)
    requires forall i :: 0 <= i < |s| ==> s[i] == '|' || s[i] == '-'
    ensures !Contains(s, "kind")
  {
    assert !("kind" <= s) by {
      assert "kind"[0] == 'k';
    }
    if s != "" {
      OnlyDashes(s[1..]);
    }
  }

  // The check against the registry

  datatype Failure =
    | MissingFromDoc(node: string)
    | StructuredInDoc(node: string)
    | NotRegistered(node: string)
    | NotFreeForm(node: string)
    | NotDeferred(node: string)
    | UnknownKind(node: string)
    | ShouldNotAppear(node: string)

  datatype Registry = Registry(freeForm: seq<string>, deferred: seq<string>, structured: seq<string>)

  /** What each message says is so. */
  predicate Holds(f: Failure, rows: map<string, string>, r: Registry) {
    var excluded := r.freeForm + r.deferred;
    match f
    case MissingFromDoc(node) => node in excluded && node !in rows
    case StructuredInDoc(node) => node in rows && node in r.structured
    case NotRegistered(node) => node in rows && node !in r.structured && node !in excluded
    case NotFreeForm(node) =>
      node in rows && node !in r.structured && node in excluded && rows[node] == "free_form" && node !in r.freeForm
    case NotDeferred(node) =>
      node in rows && node !in r.structured && node in excluded && rows[node] == "deferred" && node !in r.deferred
    case UnknownKind(node) =>
      node in rows && node !in r.structured && node in excluded && rows[node] != "free_form" && rows[node] != "deferred"
    case ShouldNotAppear(node) => node in r.structured && node in rows
  }

  function SetOf(nodes: seq<string>): set<string> { set i | 0 <= i < |nodes| :: nodes[i] }

  /** The document lists the exempt nodes, no structured one, and each under a kind that holds it. */
  ghost predicate Consistent(rows: map<string, string>, r: Registry) {
    rows.Keys == SetOf(r.freeForm) + SetOf(r.deferred) && rows.Keys !! SetOf(r.structured) &&
    forall node :: node in rows ==>
      (rows[node] == "free_form" && node in r.freeForm) || (rows[node] == "deferred" && node in r.deferred)
  }

  lemma ConsistentIff(rows: map<string, string>, r: Registry)
    ensures Consistent(rows, r) <==> forall f: Failure :: !Holds(f, rows, r)
  {
    if forall f: Failure :: !Holds(f, rows, r) {
      forall node ensures node in rows <==> node in SetOf(r.freeForm) + SetOf(r.deferred) {
        assert !Holds(MissingFromDoc(node), rows, r) && !Holds(NotRegistered(node), rows, r);
        assert !Holds(StructuredInDoc(node), rows, r);
      }
      forall node | node in rows
        ensures node !in r.structured
        ensures (rows[node] == "free_form" && node in r.freeForm) || (rows[node] == "deferred" && node in r.deferred)
      {
        assert !Holds(StructuredInDoc(node), rows, r) && !Holds(NotRegistered(node), rows, r);
        assert !Holds(NotFreeForm(node), rows, r) && !Holds(NotDeferred(node), rows, r);
        assert !Holds(UnknownKind(node), rows, r);
      }
    }
  }

  /** Which of the three loops lists the failure. */
  function Part(f: Failure): nat { if f.MissingFromDoc? then 1 else if f.ShouldNotAppear? then 3 else 2 }

  /** Each failure once, those of the first loop first and those of the last loop last. */
  predicate ListedInParts(failures: seq<Failure>) {
    forall i, j :: 0 <= i < j < |failures| ==> failures[i] != failures[j] && Part(failures[i]) <= Part(failures[j])
  }

  /** Exactly the failures of one part, each once. */
  ghost predicate ListsPart(failures: seq<Failure>, part: nat, rows: map<string, string>, r: Registry) {
    (forall f: Failure :: f in failures <==> Part(f) == part && Holds(f, rows, r)) &&
    forall i, j :: 0 <= i < j < |failures| ==> failures[i] != failures[j]
  }

  /** Every registry node must be in the document. */
  method MissingNodes(rows: map<string, string>, r: Registry) returns (failures: seq<Failure>)
    ensures ListsPart(failures, 1, rows, r)
  {
    failures := [];
    var excluded := SetOf(r.freeForm) + SetOf(r.deferred);
    var todo := excluded;
    while todo != {}
      invariant todo <= excluded
      invariant forall f: Failure :: f in failures <==> f.MissingFromDoc? && f.node !in todo && Holds(f, rows, r)
      invariant forall i, j :: 0 <= i < j < |failures| ==> failures[i] != failures[j]
    {
      var node :| node in todo;
      todo := todo - {node};
      if node !in rows {
        failures := failures + [MissingFromDoc(node)];
      }
    }
  }

  /** Every document entry must match the registry. */
  method WrongEntries(rows: map<string, string>, r: Registry) returns (failures: seq<Failure>)
    ensures ListsPart(failures, 2, rows, r)
  {
    failures := [];
    var excluded := SetOf(r.freeForm) + SetOf(r.deferred);
    var todo := rows.Keys;
    while todo != {}
      invariant todo <= rows.Keys
      invariant forall f: Failure :: f in failures <==> Part(f) == 2 && f.node !in todo && Holds(f, rows, r)
      invariant forall i, j :: 0 <= i < j < |failures| ==> failures[i] != failures[j]
    {
      var node :| node in todo;
      todo := todo - {node};
      var kind := rows[node];
      if node in r.structured {
        failures := failures + [StructuredInDoc(node)];
      } else if node !in excluded {
        failures := failures + [NotRegistered(node)];
      } else if kind == "free_form" && node !in r.freeForm {
        failures := failures + [NotFreeForm(node)];
      } else if kind == "deferred" && node !in r.deferred {
        failures := failures + [NotDeferred(node)];
      } else if kind != "free_form" && kind != "deferred" {
        failures := failures + [UnknownKind(node)];
      }
    }
  }

  /** No structured node may be in the document. */
  method StructuredNodes(rows: map<string, string>, r: Registry) returns (failures: seq<Failure>)
    ensures ListsPart(failures, 3, rows, r)
  {
    failures := [];
    var todo := SetOf(r.structured);
    while todo != {}
      invariant todo <= SetOf(r.structured)
      invariant forall f: Failure :: f in failures <==> f.ShouldNotAppear? && f.node !in todo && Holds(f, rows, r)
      invariant forall i, j :: 0 <= i < j < |failures| ==> failures[i] != failures[j]
    {
      var node :| node in todo;
      todo := todo - {node};
      if node in rows {
        failures := failures + [ShouldNotAppear(node)];
      }
    }
  }

  lemma PartsJoined(a: seq<Failure>, b: seq<Failure>, c: seq<Failure>, rows: map<string, string>, r: Registry)
    requires ListsPart(a, 1, rows, r) && ListsPart(b, 2, rows, r) && ListsPart(c, 3, rows, r)
    ensures ListedInParts(a + b + c) && forall f: Failure :: f in a + b + c <==> Holds(f, rows, r)
  {
    AllHold(a, b, c, rows, r);
    InParts(a, b, c, rows, r);
  }

  lemma AllHold(a: seq<Failure>, b: seq<Failure>, c: seq<Failure>, rows: map<string, string>, r: Registry)
    requires ListsPart(a, 1, rows, r) && ListsPart(b, 2, rows, r) && ListsPart(c, 3, rows, r)
    ensures forall f: Failure :: f in a + b + c <==> Holds(f, rows, r)
  {
    forall f: Failure ensures f in a + b + c <==> Holds(f, rows, r) {
      assert f in a + b + c <==> f in a || f in b || f in c;
    }
  }

  lemma InParts(a: seq<Failure>, b: seq<Failure>, c: seq<Failure>, rows: map<string, string>, r: Registry)
    requires ListsPart(a, 1, rows, r) && ListsPart(b, 2, rows, r) && ListsPart(c, 3, rows, r)
    ensures ListedInParts(a + b + c)
  {
    var all := a + b + c;
    assert forall i :: 0 <= i < |all| ==>
      all[i] in (if i < |a| then a else if i < |a| + |b| then b else c);
    assert forall i :: 0 <= i < |all| ==> Part(all[i]) == if i < |a| then 1 else if i < |a| + |b| then 2 else 3;
  }

  method CheckRows(rows: map<string, string>, r: Registry) returns (failures: seq<Failure>)
    ensures forall f: Failure :: f in failures <==> Holds(f, rows, r)
    ensures ListedInParts(failures)
  {
    var missing := MissingNodes(rows, r);
    var wrong := WrongEntries(rows, r);
    var structured := StructuredNodes(rows, r);
    PartsJoined(missing, wrong, structured, rows, r);
    failures := missing + wrong + structured;
  }

  /** The script: it passes exactly when there is a document and it is consistent with the registry. */
  method Check(doc: Option<string>, r: Registry) returns (exit: int, failures: seq<Failure>)
    ensures exit == 0 <==> doc.Some? && Consistent(DocRows(doc.value), r)
    ensures exit == 0 || exit == 1
    ensures doc.Some? ==>
      ListedInParts(failures) && forall f: Failure :: f in failures <==> Holds(f, DocRows(doc.value), r)
  {
    if doc.None? {
      return 1, [];
    }
    var rows := ParseDoc(doc.value);
    failures := CheckRows(rows, r);
    ConsistentIff(rows, r);
    if failures != [] {
      assert failures[0] in failures;
      return 1, failures;
    }
    return 0, failures;
  }
}
