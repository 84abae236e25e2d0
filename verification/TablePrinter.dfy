/** backend/scripts/dbq.py: query results printed as a grid. */
module TablePrinter {
  import Decimal
  import opened JsText
  import opened Lists
  import opened Options
  import opened TableText

  const ELLIPSIS := "…"
  const CELL_MAX := 48
  const WIDTH_MAX := 64

  /** A database value: nothing, bytes, or anything else by the text that str or json.dumps gives it. */
  datatype Value = Null | Bytes(bytes: seq<Byte>) | Shown(text: string)

  function Spaces(n: nat): (s: string)
    ensures |s| == n && forall i :: 0 <= i < n ==> s[i] == ' '
  {
    seq(n, i => ' ')
  }

  /** str.ljust: never shorter than the text. */
  function Ljust(s: string, w: nat): string { if |s| < w then s + Spaces(w - |s|) else s }

  function Hex(bytes: seq<Byte>): (s: string)
    ensures |s| == 2 * |bytes|
  {
    if bytes == [] then ""
    else [HexDigit(bytes[0] / 16, false) as char, HexDigit(bytes[0] % 16, false) as char] + Hex(bytes[1..])
  }

  function Fmt(v: Value): string {
    match v
    case Null => Ljust("NULL", 6)
    case Bytes(bytes) => Shortened(if |bytes| > 20 then Hex(bytes)[..20] + ELLIPSIS else Hex(bytes))
    case Shown(text) => Shortened(text)
  }

  function Shortened(s: string): string { if |s| > CELL_MAX then s[..CELL_MAX - 1] + ELLIPSIS else s }

  /** No cell is wider than 48, and a text that fits is shown whole. */
  lemma FmtBounded(v: Value)
    ensures |Fmt(v)| <= 48
    ensures v.Shown? && |v.text| <= 48 ==> Fmt(v) == v.text
  {
  }

  // The grid

  function Dashes(n: nat): (s: string)
    ensures |s| == n
  {
    seq(n, i => '-')
  }

  function Border(widths: seq<nat>): string { "+-" + Joined(Map(widths, Dashes), "-+-") + "-+" }

  function Cells(texts: seq<string>, widths: seq<nat>): (cells: seq<string>)
    requires |texts| == |widths|
    ensures |cells| == |texts|
  {
    seq(|texts|, i requires 0 <= i < |texts| => Ljust(texts[i], widths[i]))
  }

  function GridLine(texts: seq<string>, widths: seq<nat>): string
    requires |texts| == |widths|
  {
    "| " + Joined(Cells(texts, widths), " | ") + " |"
  }

  predicate Rectangular(names: seq<string>, cells: seq<seq<string>>) {
    forall r :: 0 <= r < |cells| ==> |cells[r]| == |names|
  }

  /** Border, header, border, one line for each row, border. */
  function Grid(names: seq<string>, widths: seq<nat>, cells: seq<seq<string>>): seq<string>
    requires |widths| == |names| && Rectangular(names, cells)
  {
    [Border(widths), GridLine(names, widths), Border(widths)] + GridLines(cells, widths) + [Border(widths)]
  }

  function GridLines(cells: seq<seq<string>>, widths: seq<nat>): (lines: seq<string>)
    requires forall r :: 0 <= r < |cells| ==> |cells[r]| == |widths|
    ensures |lines| == |cells|
  {
    seq(|cells|, r requires 0 <= r < |cells| => GridLine(cells[r], widths))
  }

  /** Wide enough for the name and every cell of the column, and no wider, but never wider than 64. */
  ghost predicate WidthFits(w: nat, name: string, cells: seq<seq<string>>, i: nat)
    requires forall r :: 0 <= r < |cells| ==> i < |cells[r]|
  {
    w <= 64 && (w == 64 || |name| <= w) &&
    (w == 64 || forall r :: 0 <= r < |cells| ==> |cells[r][i]| <= w) &&
    (|name| >= w || exists r :: 0 <= r < |cells| && |cells[r][i]| >= w)
  }

  function Sum(ns: seq<nat>): nat { if ns == [] then 0 else ns[0] + Sum(ns[1..]) }

  function Lengths(parts: seq<string>): (ns: seq<nat>) { seq(|parts|, i requires 0 <= i < |parts| => |parts[i]|) }

  lemma {:induction false} JoinedLength(parts: seq<string>, glue: string)
    requires parts != [] && |glue| == 3
    ensures |Joined(parts, glue)| == Sum(Lengths(parts)) + 3 * (|parts| - 1)
  {
    assert Lengths(parts)[1..] == Lengths(parts[1..]);
    if |parts| > 1 {
      JoinedLength(parts[1..], glue);
    } else {
      assert Lengths(parts[1..]) == [];
    }
  }

  lemma {:induction false} SumMonotone(a: seq<nat>, b: seq<nat>)
    requires |a| == |b| && forall i :: 0 <= i < |a| ==> a[i] >= b[i]
    ensures Sum(a) >= Sum(b) && (Sum(a) == Sum(b) <==> a == b)
  {
    if a != [] {
      SumMonotone(a[1..], b[1..]);
      assert a == [a[0]] + a[1..] && b == [b[0]] + b[1..];
    }
  }

  lemma {:induction false} BorderLength(widths: seq<nat>)
    requires widths != []
    ensures |Border(widths)| == Sum(widths) + 3 * |widths| + 1
  {
    JoinedLength(Map(widths, Dashes), "-+-");
    assert Lengths(Map(widths, Dashes)) == widths;
  }

  /** A line is as long as a border exactly when every text in it fits its column; otherwise it is longer. */
  lemma LineLength(texts: seq<string>, widths: seq<nat>)
    requires widths != [] && |texts| == |widths|
    ensures |GridLine(texts, widths)| >= Sum(widths) + 3 * |widths| + 1
    ensures |GridLine(texts, widths)| == Sum(widths) + 3 * |widths| + 1 <==>
            forall i :: 0 <= i < |texts| ==> |texts[i]| <= widths[i]
  {
    var lengths := Lengths(Cells(texts, widths));
    JoinedLength(Cells(texts, widths), " | ");
    assert forall i :: 0 <= i < |texts| ==> lengths[i] == if |texts[i]| <= widths[i] then widths[i] else |texts[i]|;
    SumMonotone(lengths, widths);
    assert lengths == widths <==> forall i :: 0 <= i < |texts| ==> |texts[i]| <= widths[i] by {
      if lengths == widths {
        forall i | 0 <= i < |texts| ensures |texts[i]| <= widths[i] {
          assert lengths[i] == widths[i];
        }
      }
    }
  }

  /** The widths the printer chose, for cells that _fmt made. */
  ghost predicate Chosen(widths: seq<nat>, names: seq<string>, cells: seq<seq<string>>) {
    |widths| == |names| && Rectangular(names, cells) &&
    (forall i :: 0 <= i < |names| ==> WidthFits(widths[i], names[i], cells, i)) &&
    forall r, i :: 0 <= r < |cells| && 0 <= i < |cells[r]| ==> |cells[r][i]| <= CELL_MAX
  }

  /** The printed grid is aligned, border, header and data alike, exactly when no column name is over 64 characters. */
  lemma GridIsAligned(names: seq<string>, widths: seq<nat>, cells: seq<seq<string>>)
    requires names != [] && Chosen(widths, names, cells)
    ensures var lines := Grid(names, widths, cells);
      (forall n :: 0 <= n < |lines| ==> |lines[n]| == Sum(widths) + 3 * |names| + 1) <==>
      forall i :: 0 <= i < |names| ==> |names[i]| <= 64
    ensures var lines := Grid(names, widths, cells);
      forall n :: 0 <= n < |lines| && n != 1 ==> |lines[n]| == Sum(widths) + 3 * |names| + 1
  {
    var lines := Grid(names, widths, cells);
    BorderLength(widths);
    LineLength(names, widths);
    assert forall i :: 0 <= i < |names| ==> WidthFits(widths[i], names[i], cells, i);
    assert forall i :: 0 <= i < |names| ==> (|names[i]| <= widths[i] <==> |names[i]| <= WIDTH_MAX);
    forall n | 0 <= n < |lines| && n != 1 ensures |lines[n]| == Sum(widths) + 3 * |names| + 1 {
      if 3 <= n < |lines| - 1 {
        var row := cells[n - 3];
        assert lines[n] == GridLine(row, widths);
        LineLength(row, widths);
      }
    }
    assert lines[1] == GridLine(names, widths);
  }

  /** The widths loop: each column's name and cells, capped. */
  method ColumnWidths(names: seq<string>, formatted: seq<seq<string>>) returns (w: seq<nat>)
    requires Rectangular(names, formatted)
    ensures |w| == |names| && forall i :: 0 <= i < |names| ==> WidthFits(w[i], names[i], formatted, i)
  {
    w := Lengths(names);
    for i := 0 to |names|
      invariant |w| == |names|
      invariant forall k :: i <= k < |names| ==> w[k] == |names[k]|
      invariant forall k :: 0 <= k < i ==> WidthFits(w[k], names[k], formatted, k)
    {
      for r := 0 to |formatted|
        invariant |w| == |names|
        invariant forall k :: i < k < |names| ==> w[k] == |names[k]|
        invariant forall k :: 0 <= k < i ==> WidthFits(w[k], names[k], formatted, k)
        invariant |names[i]| <= w[i] && forall s :: 0 <= s < r ==> |formatted[s][i]| <= w[i]
        invariant w[i] == |names[i]| || exists s :: 0 <= s < r && |formatted[s][i]| == w[i]
      {
        w := w[i := if w[i] < |formatted[r][i]| then |formatted[r][i]| else w[i]];
      }
      w := w[i := if w[i] < WIDTH_MAX then w[i] else WIDTH_MAX];
    }
  }

  /** The cells cut to the column widths are the cells: the cut drops nothing. */
  lemma CutDropsNothing(texts: seq<string>, widths: seq<nat>)
    requires |texts| == |widths| && forall i :: 0 <= i < |texts| ==> |texts[i]| <= widths[i]
    ensures Cut(texts, widths) == texts
  {
  }

  function Cut(texts: seq<string>, widths: seq<nat>): (cut: seq<string>)
    requires |texts| == |widths|
    ensures |cut| == |texts|
  {
    seq(|texts|, i requires 0 <= i < |texts| => if widths[i] < |texts[i]| then texts[i][..widths[i]] else texts[i])
  }

  /** The printing loop, which cuts every cell to its column's width. */
  method PrintGrid(names: seq<string>, w: seq<nat>, formatted: seq<seq<string>>) returns (lines: seq<string>)
    requires Chosen(w, names, formatted)
    ensures lines == Grid(names, w, formatted)
  {
    CellsFit(w, names, formatted);
    var head := [Border(w), GridLine(names, w), Border(w)];
    lines := head;
    for r := 0 to |formatted|
      invariant lines == head + GridLines(formatted[..r], w)
    {
      var truncated := Cut(formatted[r], w);
      CutDropsNothing(formatted[r], w);
      GridLinesNext(formatted, r, w);
      lines := lines + [GridLine(truncated, w)];
    }
    assert formatted[..|formatted|] == formatted;
    lines := lines + [Border(w)];
  }

  lemma GridLinesNext(cells: seq<seq<string>>, r: nat, w: seq<nat>)
    requires r < |cells| && forall s :: 0 <= s < |cells| ==> |cells[s]| == |w|
    ensures GridLines(cells[..r + 1], w) == GridLines(cells[..r], w) + [GridLine(cells[r], w)]
  {
  }

  method PrintTable(rows: seq<seq<Value>>, given: Option<seq<string>>)
    returns (lines: seq<string>, ghost widths: seq<nat>)
    requires var k := if given.Some? then |given.value| else if rows == [] then 0 else |rows[0]|;
      forall r :: 0 <= r < |rows| ==> |rows[r]| == k
    ensures rows == [] ==> lines == ["(no rows)"]
    ensures rows != [] ==>
      var names := if given.Some? then given.value else DefaultNames(|rows[0]|);
      var cells := Map(rows, FmtRow);
      Chosen(widths, names, cells) && lines == Grid(names, widths, cells) + [CountLine(|rows|)]
  {
    widths := [];
    if rows == [] {
      return ["(no rows)"], widths;
    }
    var names := if given.Some? then given.value else DefaultNames(|rows[0]|);
    var formatted: seq<seq<string>> := [];
    for r := 0 to |rows|
      invariant formatted == Map(rows[..r], FmtRow)
    {
      formatted := formatted + [FmtRow(rows[r])];
    }
    assert rows[..|rows|] == rows;
    var w := ColumnWidths(names, formatted);
    CellsBounded(rows);
    assert Chosen(w, names, formatted);
    lines := PrintGrid(names, w, formatted);
    lines := lines + [CountLine(|rows|)];
    widths := w;
  }

  function FmtRow(row: seq<Value>): (cells: seq<string>)
    ensures |cells| == |row|
  {
    Map(row, Fmt)
  }

  function CountLine(n: nat): string { "(" + Decimal.Print(n) + " row" + (if n != 1 then "s" else "") + ")" }

  function DefaultNames(k: nat): (names: seq<string>)
    ensures |names| == k && forall i :: 0 <= i < k ==> names[i] == "c" + Decimal.Print(i)
  {
    seq(k, i requires 0 <= i => "c" + Decimal.Print(i))
  }

  lemma CellsBounded(rows: seq<seq<Value>>)
    ensures forall r, i :: 0 <= r < |rows| && 0 <= i < |rows[r]| ==> |Map(rows, FmtRow)[r][i]| <= CELL_MAX
  {
  }

  /** A cell is never wider than its column, capped or not. */
  lemma CellsFit(widths: seq<nat>, names: seq<string>, cells: seq<seq<string>>)
    requires Chosen(widths, names, cells)
    ensures forall r, i :: 0 <= r < |cells| && 0 <= i < |names| ==> |cells[r][i]| <= widths[i]
  {
  }

  // Where the texts stand

  /** The text, and then spaces up to the width. */
  lemma LjustWritten(s: string, w: nat)
    ensures s <= Ljust(s, w) && |Ljust(s, w)| == (if |s| < w then w else |s|)
    ensures forall i :: |s| <= i < |Ljust(s, w)| ==> Ljust(s, w)[i] == ' '
  {
  }

  /** The bytes that pairs of hexadecimal digits read as. */
  function ReadHex(s: string): seq<int>
    requires |s| % 2 == 0 && forall i :: 0 <= i < |s| ==> IsHex(s[i] as int)
  {
    if s == "" then [] else [HexValue(s[0] as int) * 16 + HexValue(s[1] as int)] + ReadHex(s[2..])
  }

  lemma {:induction false} HexReadsBack(bytes: seq<Byte>)
    ensures forall i :: 0 <= i < |Hex(bytes)| ==> IsHex(Hex(bytes)[i] as int) && !('A' <= Hex(bytes)[i] <= 'F')
    ensures ReadHex(Hex(bytes)) == bytes
  {
    if bytes != [] {
      HexReadsBack(bytes[1..]);
      assert Hex(bytes)[2..] == Hex(bytes[1..]);
      assert bytes == [bytes[0]] + bytes[1..];
    }
  }

  /**
    * A cell: NULL and two spaces; the hexadecimal digits of bytes, or the first twenty and an ellipsis when
    * there are more than twenty bytes; any other text, or its first 47 characters and an ellipsis.
    */
  lemma FmtWritten(v: Value)
    ensures v.Null? ==> Fmt(v) == "NULL  "
    ensures v.Bytes? ==>
              Fmt(v) == if |v.bytes| <= 20 then Hex(v.bytes) else Hex(v.bytes)[..20] + "…"
    ensures v.Shown? ==> Fmt(v) == if |v.text| <= 48 then v.text else v.text[..47] + "…"
  {
    if v.Null? {
      assert Spaces(2) == "  ";
    }
  }

  lemma CountLineWritten(n: nat)
    ensures CountLine(n) == if n == 1 then "(1 row)" else "(" + Decimal.Print(n) + " rows)"
  {
    assert Decimal.Print(1) == "1";
  }

  /** Where part k of a joined line starts. */
  function Start(parts: seq<string>, k: nat): nat
    requires k <= |parts|
  {
    if k == 0 then 0 else |parts[0]| + 3 + Start(parts[1..], k - 1)
  }

  lemma {:induction false} JoinedAt(parts: seq<string>, glue: string, k: nat)
    requires k < |parts| && |glue| == 3
    ensures var line, at := Joined(parts, glue), Start(parts, k);
      at + |parts[k]| <= |line| && line[at..at + |parts[k]|] == parts[k] &&
      (k > 0 ==> at >= 3 && line[at - 3..at] == glue) &&
      (k == |parts| - 1 ==> at + |parts[k]| == |line|)
  {
    if k > 0 {
      var rest := Joined(parts[1..], glue);
      JoinedAt(parts[1..], glue, k - 1);
      JoinedOn(parts[0], glue, rest, Start(parts[1..], k - 1), |parts[k]|);
    } else if |parts| > 1 {
      DropPrefix(parts[0], glue + Joined(parts[1..], glue));
    }
  }

  lemma JoinedOn(first: string, glue: string, rest: string, at: nat, n: nat)
    requires at + n <= |rest| && |glue| == 3
    ensures var line, here := first + (glue + rest), |first| + 3 + at;
      line[here..here + n] == rest[at..at + n] &&
      (at >= 3 ==> line[here - 3..here] == rest[at - 3..at]) && (at == 0 ==> line[here - 3..here] == glue)
  {
  }

  /** Where column k starts in every line. */
  function Column(widths: seq<nat>, k: nat): nat
    requires k <= |widths|
  {
    if k == 0 then 2 else widths[0] + 3 + Column(widths[1..], k - 1)
  }

  lemma {:induction false} StartIsColumn(parts: seq<string>, widths: seq<nat>, k: nat)
    requires k < |parts| == |widths| && forall i :: 0 <= i < |parts| ==> |parts[i]| == widths[i]
    ensures 2 + Start(parts, k) == Column(widths, k)
  {
    if k > 0 {
      StartIsColumn(parts[1..], widths[1..], k - 1);
    }
  }

  /** What stands between two texts: before the first, between others, after the last. */
  ghost predicate Stands(line: string, widths: seq<nat>, k: nat, text: string, first: string, glue: string,
                         last: string)
    requires k < |widths|
  {
    var at := Column(widths, k);
    at + |text| <= |line| && line[at..at + |text|] == text &&
    (k == 0 ==> line[..2] == first) && (k > 0 ==> at >= 3 && line[at - 3..at] == glue) &&
    (k == |widths| - 1 ==> line[at + |text|..] == last)
  }

  lemma PartStands(parts: seq<string>, widths: seq<nat>, k: nat, first: string, glue: string, last: string)
    requires k < |parts| == |widths| && forall i :: 0 <= i < |parts| ==> |parts[i]| == widths[i]
    requires |first| == 2 && |glue| == 3
    ensures Stands(first + Joined(parts, glue) + last, widths, k, parts[k], first, glue, last)
  {
    var inner, at := Joined(parts, glue), Start(parts, k);
    JoinedAt(parts, glue, k);
    StartIsColumn(parts, widths, k);
    Within(first, inner, last, at, |parts[k]|);
  }

  lemma Within(first: string, inner: string, last: string, at: nat, n: nat)
    requires at + n <= |inner| && |first| == 2
    ensures var line := first + inner + last;
      line[..2] == first && line[2 + at..2 + at + n] == inner[at..at + n] && line[2 + |inner|..] == last &&
      (at >= 3 ==> line[2 + at - 3..2 + at] == inner[at - 3..at])
  {
  }

  /**
    * Columns line up: in a line whose texts fit, column k holds its text and then spaces, with bars around it;
    * in the border it holds as many hyphens, with crosses around it.
    */
  lemma ColumnsLineUp(texts: seq<string>, widths: seq<nat>, k: nat)
    requires k < |texts| == |widths| && forall i :: 0 <= i < |texts| ==> |texts[i]| <= widths[i]
    ensures Stands(GridLine(texts, widths), widths, k, Ljust(texts[k], widths[k]), "| ", " | ", " |")
    ensures Stands(Border(widths), widths, k, seq(widths[k], i => '-'), "+-", "-+-", "-+")
  {
    PartStands(Cells(texts, widths), widths, k, "| ", " | ", " |");
    PartStands(Map(widths, Dashes), widths, k, "+-", "-+-", "-+");
  }
}
