/** Rows of a Markdown table as text, and lines joined into a text. */
module TableText {
  import opened Lists
  import opened Whitespace

  function Pad(cell: string): string { " " + cell + " " }

  function Bars(cells: seq<string>): string {
    if cells == [] then "" else Pad(cells[0]) + (['|'] + Bars(cells[1..]))
  }

  function LineText(cells: seq<string>): string { "" + (['|'] + Bars(cells)) }

  function Joined(parts: seq<string>, glue: string): string {
    if parts == [] then "" else if |parts| == 1 then parts[0] else parts[0] + (glue + Joined(parts[1..], glue))
  }

  predicate NoBar(cells: seq<string>) { forall i :: 0 <= i < |cells| ==> '|' !in cells[i] }

  lemma {:induction false} SplitBars(cells: seq<string>)
    requires NoBar(cells)
    ensures SplitOn(Bars(cells), '|') == Map(cells, Pad) + [""]
  {
    if cells == [] {
      SplitNone("", '|');
    } else {
      SplitBars(cells[1..]);
      SplitFirst(Pad(cells[0]), '|', Bars(cells[1..]));
      assert Map(cells, Pad) == [Pad(cells[0])] + Map(cells[1..], Pad);
    }
  }

  lemma {:induction false} BarsEnd(cells: seq<string>)
    requires cells != []
    ensures Bars(cells) != "" && Bars(cells)[|Bars(cells)| - 1] == '|'
  {
    if |cells| > 1 {
      BarsEnd(cells[1..]);
    }
  }

  lemma PadIsTrimmed(cell: string, space: char -> bool)
    requires space(' ')
    ensures Trim(Pad(cell), space) == Trim(cell, space)
  {
    TrimPadStart(cell, ' ', space);
    TrimPadEnd(" " + cell, ' ', space);
  }

  /** Not blank, and no space at either end. */
  predicate CleanCell(cell: string, space: char -> bool) { cell != "" && Trim(cell, space) == cell }

  predicate OneLineEach(lines: seq<string>) { forall i :: 0 <= i < |lines| ==> '\n' !in lines[i] }

  lemma {:induction false} SplitJoined(lines: seq<string>)
    requires lines != [] && OneLineEach(lines)
    ensures SplitOn(Joined(lines, "\n"), '\n') == lines
  {
    if |lines| == 1 {
      SplitNone(lines[0], '\n');
    } else {
      SplitJoined(lines[1..]);
      SplitFirst(lines[0], '\n', Joined(lines[1..], "\n"));
    }
  }
}
