/** src/pages/ResearchReportPage.tsx, parseComparisonSection: a loosely written Markdown table read row by row. */
module ReportTable {
  import opened Options
  import opened Lists
  import opened TableText
  import opened Whitespace

  datatype Trend = Up | Down | Flat | Unknown

  datatype Row = Row(dimension: string, last: string, current: string, trend: Trend)

  const HEADER_WORD := "维度"

  // One line

  function Lower(s: string): (t: string)
    ensures |t| == |s|
  {
    seq(|s|, i requires 0 <= i < |s| => if 'A' <= s[i] <= 'Z' then (s[i] as int + 32) as char else s[i])
  }

  predicate HasAny(s: string, words: seq<string>) { exists i :: 0 <= i < |words| && Contains(s, words[i]) }

  function TrendOf(text: string): Trend {
    var folded := Lower(text);
    if Contains(text, "↑") || HasAny(folded, ["up", "上升", "进步", "改善"]) then Up
    else if Contains(text, "↓") || HasAny(folded, ["down", "退步", "下降"]) then Down
    else if Contains(text, "→") || HasAny(folded, ["flat", "持平", "不变"]) then Flat
    else Unknown
  }

  predicate IsRule(cell: string) { cell != "" && forall i :: 0 <= i < |cell| ==> cell[i] == '-' || cell[i] == ':' }

  /** A piece between bars: trimmed, and dropped if nothing is left. */
  function Cell(space: char -> bool): string -> Option<string> {
    piece => var cell := Trim(piece, space); if cell == "" then None else Some(cell)
  }

  /** The cells of a line that starts with a bar. */
  function CellsOf(line: string, space: char -> bool): seq<string> {
    var trimmed := Trim(line, space);
    if "|" <= trimmed then FilterMap(SplitOn(trimmed, '|'), Cell(space)) else []
  }

  /** Too few cells, the header and the rule below it are no rows. */
  predicate IsRow(cells: seq<string>) { |cells| >= 4 && cells[0] != HEADER_WORD && !IsRule(cells[1]) }

  function RowFrom(cells: seq<string>, trend: string -> Trend): Option<Row> {
    if IsRow(cells) then Some(Row(cells[0], cells[1], cells[2], trend(cells[3]))) else None
  }

  function RowOf(line: string): Option<Row> { RowFrom(CellsOf(line, IsJsSpace), TrendOf) }

  // A whole body

  function DropReturn(s: string): string { if s != "" && s[|s| - 1] == '\r' then s[..|s| - 1] else s }

  /** Split at each line feed, with the carriage return before it. */
  function JsLines(s: string): (lines: seq<string>) {
    var pieces := SplitOn(s, '\n');
    seq(|pieces|, i requires 0 <= i < |pieces| => if i + 1 < |pieces| then DropReturn(pieces[i]) else pieces[i])
  }

  function RowsOf(body: string): seq<Row> { FilterMap(JsLines(body), RowOf) }

  lemma EmptyBody()
    ensures RowsOf("") == []
  {
  }

  method ParseComparisonSection(body: string) returns (rows: seq<Row>)
    ensures rows == RowsOf(body)
  {
    if body == "" {
      EmptyBody();
      return [];
    }
    var lines := JsLines(body);
    rows := [];
    for n := 0 to |lines|
      invariant rows == FilterMap(lines[..n], RowOf)
    {
      FilterMapNext(lines, n, RowOf);
      var trimmed := Trim(lines[n], IsJsSpace);
      if !("|" <= trimmed) {
        continue;
      }
      var cells := FilterMap(SplitOn(trimmed, '|'), Cell(IsJsSpace));
      if |cells| < 4 {
        continue;
      }
      if cells[0] == HEADER_WORD || IsRule(cells[1]) {
        continue;
      }
      var t := TrendOf(cells[3]);
      rows := rows + [Row(cells[0], cells[1], cells[2], t)];
    }
    assert lines[..|lines|] == lines;
  }

  // The printer

  function TrendText(t: Trend): string {
    match t
    case Up => "↑"
    case Down => "↓"
    case Flat => "→"
    case Unknown => "?"
  }

  function RowText(r: Row): string { LineText([r.dimension, r.last, r.current, TrendText(r.trend)]) }

  const HEADER_CELLS := [HEADER_WORD, "上次", "本次", "趋势"]

  const RULE_CELLS := ["---", "---", "---", "---"]

  function HeaderLines(): seq<string> { [LineText(HEADER_CELLS), LineText(RULE_CELLS)] }

  // The cells of a printed line

  lemma CellsOfPieces(cells: seq<string>, space: char -> bool)
    requires space(' ')
    ensures FilterMap([""] + (Map(cells, Pad) + [""]), Cell(space)) == FilterMap(cells, Cell(space))
  {
    FilterMapConcat([""], Map(cells, Pad) + [""], Cell(space));
    FilterMapConcat(Map(cells, Pad), [""], Cell(space));
    FilterMapNone([""], Cell(space));
    forall i | 0 <= i < |cells| ensures Cell(space)(Map(cells, Pad)[i]) == Cell(space)(cells[i]) {
      PadIsTrimmed(cells[i], space);
    }
    FilterMapSame(Map(cells, Pad), cells, Cell(space));
  }

  /** A printed line reads as its own cells, trimmed, without the blank ones. */
  lemma {:induction false} PrintedCells(cells: seq<string>, space: char -> bool)
    requires cells != [] && NoBar(cells) && space(' ') && !space('|')
    ensures CellsOf(LineText(cells), space) == FilterMap(cells, Cell(space))
  {
    BarsEnd(cells);
    TrimIsTrimmed(LineText(cells), space);
    SplitFirst("", '|', Bars(cells));
    SplitBars(cells);
    CellsOfPieces(cells, space);
  }

  lemma CellKept(cell: string, space: char -> bool)
    ensures Cell(space)(cell) == Some(cell) <==> CleanCell(cell, space)
    ensures Cell(space)(cell).Some? ==> Cell(space)(cell).value == Trim(cell, space)
  {
  }

  /** Cells are kept as they are exactly when they are clean; if as many are kept, they are the trimmed ones. */
  lemma KeptCells(cells: seq<string>, space: char -> bool)
    ensures var kept := FilterMap(cells, Cell(space));
      (kept == cells <==> forall i :: 0 <= i < |cells| ==> CleanCell(cells[i], space)) &&
      (|kept| == |cells| ==> forall i :: 0 <= i < |cells| ==> kept[i] == Trim(cells[i], space))
  {
    forall i | 0 <= i < |cells|
      ensures Cell(space)(cells[i]) == Some(cells[i]) <==> CleanCell(cells[i], space)
      ensures Cell(space)(cells[i]).Some? ==> Cell(space)(cells[i]).value == Trim(cells[i], space)
    {
      CellKept(cells[i], space);
    }
    FilterMapAll(cells, Cell(space));
    Unchanged(cells, Cell(space));
  }

  // Trends

  lemma OneCharContains(c: char, w: string)
    requires |w| > 1 || (|w| == 1 && w[0] != c)
    ensures !Contains([c], w)
  {
  }

  lemma NoWord(c: char, words: seq<string>)
    requires forall i :: 0 <= i < |words| ==> |words[i]| > 1
    ensures !HasAny([c], words)
  {
    forall i | 0 <= i < |words| ensures !Contains([c], words[i]) {
      OneCharContains(c, words[i]);
    }
  }

  lemma TrendRoundTrip(t: Trend)
    ensures TrendOf(TrendText(t)) == t
  {
    var c := TrendText(t)[0];
    assert TrendText(t) == [c] && Lower([c]) == [c];
    NoWord(c, ["up", "上升", "进步", "改善"]);
    NoWord(c, ["down", "退步", "下降"]);
    NoWord(c, ["flat", "持平", "不变"]);
    assert Contains([c], "↑") <==> t == Up by {
      if t != Up { OneCharContains(c, "↑"); }
    }
    assert Contains([c], "↓") <==> t == Down by {
      if t != Down { OneCharContains(c, "↓"); }
    }
    assert Contains([c], "→") <==> t == Flat by {
      if t != Flat { OneCharContains(c, "→"); }
    }
  }

  // A printed row

  /** Non-blank trimmed cells; the first is not the header's, the second holds more than hyphens and colons. */
  predicate CleanRow(r: Row, space: char -> bool) {
    CleanCell(r.dimension, space) && CleanCell(r.last, space) && CleanCell(r.current, space) &&
    r.dimension != "维度" && exists c <- r.last :: c != '-' && c != ':'
  }

  lemma RuleIff(cell: string)
    requires cell != ""
    ensures !IsRule(cell) <==> exists c <- cell :: c != '-' && c != ':'
  {
    if !IsRule(cell) {
      var i :| 0 <= i < |cell| && cell[i] != '-' && cell[i] != ':';
      assert cell[i] in cell;
    }
  }

  lemma RowFromRead(read: seq<string>, r: Row, text: string, trend: string -> Trend)
    requires trend(text) == r.trend && |read| <= 4 && (|read| == 4 ==> read[3] == text)
    ensures RowFrom(read, trend) == Some(r) <==>
            read == [r.dimension, r.last, r.current, text] && r.dimension != HEADER_WORD && !IsRule(r.last)
  {
  }

  lemma KeptRow(r: Row, text: string, space: char -> bool, trend: string -> Trend)
    requires CleanCell(text, space) && trend(text) == r.trend
    ensures RowFrom(FilterMap([r.dimension, r.last, r.current, text], Cell(space)), trend) == Some(r) <==>
            CleanRow(r, space)
  {
    var cells := [r.dimension, r.last, r.current, text];
    KeptCells(cells, space);
    RowFromRead(FilterMap(cells, Cell(space)), r, text, trend);
    if r.last != "" {
      RuleIff(r.last);
    }
    assert (forall i :: 0 <= i < 4 ==> CleanCell(cells[i], space)) <==>
      CleanCell(cells[0], space) && CleanCell(cells[1], space) && CleanCell(cells[2], space);
  }

  lemma TrendTextIsClean(t: Trend)
    ensures CleanCell(TrendText(t), IsJsSpace) && '|' !in TrendText(t)
  {
  }

  /** A row without a bar in it reads back as itself exactly when it is clean. */
  lemma RowRoundTrip(r: Row)
    requires NoBar([r.dimension, r.last, r.current])
    ensures RowOf(RowText(r)) == Some(r) <==> CleanRow(r, IsJsSpace)
  {
    var cells := [r.dimension, r.last, r.current, TrendText(r.trend)];
    TrendTextIsClean(r.trend);
    assert forall i :: 0 <= i < 3 ==> cells[i] == [r.dimension, r.last, r.current][i];
    TrendRoundTrip(r.trend);
    PrintedCells(cells, IsJsSpace);
    KeptRow(r, TrendText(r.trend), IsJsSpace, TrendOf);
  }

  // A printed table among other lines

  lemma ReturnIsTrimmed(line: string, space: char -> bool)
    requires space('\r')
    ensures Trim(DropReturn(line), space) == Trim(line, space)
  {
    if line != "" && line[|line| - 1] == '\r' {
      TrimPadEnd(line[..|line| - 1], '\r', space);
      assert line[..|line| - 1] + ['\r'] == line;
    }
  }

  lemma SameRow(s: string, t: string)
    requires Trim(s, IsJsSpace) == Trim(t, IsJsSpace)
    ensures RowOf(s) == RowOf(t)
  {
  }

  lemma {:induction false} RowsOfJoined(lines: seq<string>)
    requires lines != [] && OneLineEach(lines)
    ensures RowsOf(Joined(lines, "\n")) == FilterMap(lines, RowOf)
  {
    SplitJoined(lines);
    forall i | 0 <= i < |lines| ensures RowOf(JsLines(Joined(lines, "\n"))[i]) == RowOf(lines[i]) {
      ReturnIsTrimmed(lines[i], IsJsSpace);
      SameRow(JsLines(Joined(lines, "\n"))[i], lines[i]);
    }
    FilterMapSame(JsLines(Joined(lines, "\n")), lines, RowOf);
  }

  lemma NoRowFrom(read: seq<string>, cells: seq<string>, trend: string -> Trend)
    requires |cells| == 4 && |read| <= 4 && (|read| == 4 ==> read[0] == cells[0] && read[1] == cells[1])
    requires !IsRow(cells)
    ensures RowFrom(read, trend) == None
  {
  }

  lemma NotARow(cells: seq<string>, space: char -> bool, trend: string -> Trend)
    requires |cells| == 4 && NoBar(cells) && space(' ') && !space('|')
    requires Trim(cells[0], space) == cells[0] && Trim(cells[1], space) == cells[1] && !IsRow(cells)
    ensures RowFrom(CellsOf(LineText(cells), space), trend) == None
  {
    PrintedCells(cells, space);
    KeptCells(cells, space);
    NoRowFrom(FilterMap(cells, Cell(space)), cells, trend);
  }

  lemma HeaderCellsTrim()
    ensures forall i :: 0 <= i < 2 ==>
      Trim(HEADER_CELLS[i], IsJsSpace) == HEADER_CELLS[i] && Trim(RULE_CELLS[i], IsJsSpace) == RULE_CELLS[i]
  {
  }

  lemma HeaderLineIsNoRow()
    ensures RowOf(LineText(HEADER_CELLS)) == None
  {
    HeaderCellsTrim();
    NotARow(HEADER_CELLS, IsJsSpace, TrendOf);
  }

  lemma RuleLineIsNoRow()
    ensures RowOf(LineText(RULE_CELLS)) == None
  {
    HeaderCellsTrim();
    NotARow(RULE_CELLS, IsJsSpace, TrendOf);
  }

  lemma HeaderIsNoRow()
    ensures forall line | line in HeaderLines() :: RowOf(line) == None
  {
    HeaderLineIsNoRow();
    RuleLineIsNoRow();
  }

  predicate AllClean(rows: seq<Row>) { forall i :: 0 <= i < |rows| ==> CleanRow(rows[i], IsJsSpace) }

  predicate Barless(rows: seq<Row>) {
    forall i :: 0 <= i < |rows| ==> NoBar([rows[i].dimension, rows[i].last, rows[i].current])
  }

  lemma {:induction false} PrintedRows(rows: seq<Row>)
    requires Barless(rows)
    ensures FilterMap(Map(rows, RowText), RowOf) == rows <==> AllClean(rows)
  {
    forall i | 0 <= i < |rows| ensures RowOf(RowText(rows[i])) == Some(rows[i]) <==> CleanRow(rows[i], IsJsSpace) {
      RowRoundTrip(rows[i]);
    }
    ReadPrinted(rows, RowText, RowOf);
  }

  lemma {:induction false} TableAmongOthers(before: seq<string>, head: seq<string>, lines: seq<string>,
                                            after: seq<string>)
    requires head != [] && OneLineEach(before + head + lines + after)
    requires forall line | line in before || line in head || line in after :: RowOf(line) == None
    ensures RowsOf(Joined(before + head + lines + after, "\n")) == FilterMap(lines, RowOf)
  {
    RowsOfJoined(before + head + lines + after);
    AmongOthers(before, head, lines, after, RowOf);
  }

  /**
    * A printed table reads back as the same rows and trends exactly when every row is clean, whatever
    * lines that are no rows stand before and after it.
    */
  lemma {:induction false} TableRoundTrip(before: seq<string>, rows: seq<Row>, after: seq<string>)
    requires Barless(rows) && OneLineEach(before + HeaderLines() + Map(rows, RowText) + after)
    requires forall line | line in before || line in after :: RowOf(line) == None
    ensures RowsOf(Joined(before + HeaderLines() + Map(rows, RowText) + after, "\n")) == rows <==> AllClean(rows)
  {
    HeaderIsNoRow();
    TableAmongOthers(before, HeaderLines(), Map(rows, RowText), after);
    PrintedRows(rows);
  }

  // The words of a trend

  const UP_WORDS := ["↑", "up", "上升", "进步", "改善"]
  const DOWN_WORDS := ["↓", "down", "退步", "下降"]
  const FLAT_WORDS := ["→", "flat", "持平", "不变"]

  /** Letter for letter the same, but that v may have capital Latin letters. */
  predicate SameLetters(v: string, word: string) {
    |v| == |word| &&
    forall k :: 0 <= k < |v| ==>
      v[k] == word[k] || ('A' <= v[k] <= 'Z' && word[k] as int == v[k] as int + ('a' as int - 'A' as int))
  }

  /** The text is something, the word, something. */
  ghost predicate Says(text: string, word: string) {
    exists a: string, v: string, b: string :: text == a + (v + b) && SameLetters(v, word)
  }

  ghost predicate SaysOne(text: string, words: seq<string>) { exists i :: 0 <= i < |words| && Says(text, words[i]) }

  predicate NoCapitals(word: string) { forall k :: 0 <= k < |word| ==> !('A' <= word[k] <= 'Z') }

  lemma FoldedParts(text: string, word: string)
    requires Contains(Lower(text), word)
    ensures Says(text, word)
  {
    var a, b := ContainsParts(Lower(text), word);
    var n := |a|;
    var v := text[n..n + |word|];
    assert text == text[..n] + (v + text[n + |word|..]);
    forall k | 0 <= k < |v|
      ensures v[k] == word[k] || ('A' <= v[k] <= 'Z' && word[k] as int == v[k] as int + ('a' as int - 'A' as int))
    {
      assert Lower(text)[n + k] == word[k] && v[k] == text[n + k];
    }
  }

  lemma FoldedSays(text: string, word: string)
    requires NoCapitals(word)
    ensures Contains(Lower(text), word) <==> Says(text, word)
  {
    if Contains(Lower(text), word) {
      FoldedParts(text, word);
    } else if a: string, v: string, b: string :| text == a + (v + b) && SameLetters(v, word) {
      LowerConcat(a, v + b);
      LowerConcat(v, b);
      assert Lower(v) == word;
      PartsContain(Lower(a), word, Lower(b));
    }
  }

  lemma LowerConcat(a: string, b: string)
    ensures Lower(a + b) == Lower(a) + Lower(b)
  {
  }

  lemma ArrowSays(text: string, arrow: char)
    requires arrow as int > 127
    ensures Contains(text, [arrow]) <==> Says(text, [arrow])
  {
    if Contains(text, [arrow]) {
      var a, b := ContainsParts(text, [arrow]);
      assert SameLetters([arrow], [arrow]);
    } else if a: string, v: string, b: string :| text == a + (v + b) && SameLetters(v, [arrow]) {
      assert v == [arrow];
      PartsContain(a, v, b);
    }
  }

  lemma OneOfWords(text: string, arrow: char, words: seq<string>)
    requires arrow as int > 127 && forall i :: 0 <= i < |words| ==> NoCapitals(words[i])
    ensures Contains(text, [arrow]) || HasAny(Lower(text), words) <==> SaysOne(text, [[arrow]] + words)
  {
    var all := [[arrow]] + words;
    ArrowSays(text, arrow);
    forall i | 0 <= i < |words| ensures Contains(Lower(text), words[i]) <==> Says(text, all[i + 1]) {
      FoldedSays(text, words[i]);
    }
    if HasAny(Lower(text), words) {
      var i :| 0 <= i < |words| && Contains(Lower(text), words[i]);
      assert Says(text, all[i + 1]);
    }
    if Says(text, all[0]) {
      assert SaysOne(text, all);
    }
    if SaysOne(text, all) {
      var i :| 0 <= i < |all| && Says(text, all[i]);
      assert i > 0 ==> all[i] == words[i - 1];
    }
  }

  /** The trend of a cell: up if it says one of those words in any case, else down, else flat, else unknown. */
  lemma TrendWritten(text: string)
    ensures TrendOf(text) ==
            if SaysOne(text, UP_WORDS) then Up
            else if SaysOne(text, DOWN_WORDS) then Down
            else if SaysOne(text, FLAT_WORDS) then Flat
            else Unknown
  {
    OneOfWords(text, '↑', ["up", "上升", "进步", "改善"]);
    OneOfWords(text, '↓', ["down", "退步", "下降"]);
    OneOfWords(text, '→', ["flat", "持平", "不变"]);
    assert UP_WORDS == [['↑']] + ["up", "上升", "进步", "改善"];
    assert DOWN_WORDS == [['↓']] + ["down", "退步", "下降"];
    assert FLAT_WORDS == [['→']] + ["flat", "持平", "不变"];
  }
}
