/** FormatTable of tableformatter.go: a column-width pass over the rows, then one line per
    row (after a header line), each cell left-justified to its column's width and the
    cells joined by tabs. Widths are counted in characters. */
module Table {
  import opened Text
  import Seqs

  /** A table column: its header, a lower bound on its width, and how to get the cell of
      an item. */
  datatype Column<!T> = Column(header: string, minWidth: int, extractor: T -> string)

  function Max(a: int, b: int): int
  {
    if a < b then b else a
  }

  /** The width of a column over `data`: at least the header, the minimum width and every
      cell, and equal to one of them. */
  function ColumnWidth<T>(col: Column<T>, data: seq<T>): (w: int)
    ensures w >= |col.header| && w >= col.minWidth
    ensures forall i :: 0 <= i < |data| ==> w >= |col.extractor(data[i])|
    ensures w == |col.header| || w == col.minWidth || exists i :: 0 <= i < |data| && w == |col.extractor(data[i])|
  {
    if |data| == 0 then Max(|col.header|, col.minWidth)
    else
      var n := |data| - 1;
      var prev := ColumnWidth(col, data[..n]);
      assert forall i :: 0 <= i < n ==> data[..n][i] == data[i];
      Max(prev, |col.extractor(data[n])|)
  }

  /** The width over one more row. */
  lemma {:induction false} ColumnWidthSnoc<T>(col: Column<T>, data: seq<T>, i: int)
    requires 0 <= i < |data|
    ensures ColumnWidth(col, data[..i + 1]) == Max(ColumnWidth(col, data[..i]), |col.extractor(data[i])|)
  {
    assert data[..i + 1][..i] == data[..i];
  }

  /** `fmt.Sprintf("%-*s", width, s)`: `s` followed by spaces up to `width` characters. */
  function LeftJustify(s: string, width: int): (r: string)
    decreases width - |s|
    ensures |s| < width ==> |r| == width
    ensures |s| >= width ==> r == s
  {
    if |s| < width then LeftJustify(s + " ", width) else s
  }

  /** The justified text starts with `s` and continues with spaces only. */
  lemma {:induction false} LeftJustifyShape(s: string, width: int)
    decreases width - |s|
    ensures var r := LeftJustify(s, width);
      r[..|s|] == s && forall k :: |s| <= k < |r| ==> r[k] == ' '
  {
    if |s| < width {
      var r := LeftJustify(s, width);
      LeftJustifyShape(s + " ", width);
      assert r[..|s|] == r[..|s| + 1][..|s|];
    }
  }

  function Headers<T>(columns: seq<Column<T>>): (r: seq<string>)
    ensures |r| == |columns| && forall j :: 0 <= j < |r| ==> r[j] == columns[j].header
  {
    if |columns| == 0 then []
    else
      var n := |columns| - 1;
      assert forall j :: 0 <= j < n ==> columns[..n][j] == columns[j];
      Headers(columns[..n]) + [columns[n].header]
  }

  /** The cells of one item, one per column. */
  function Cells<T>(item: T, columns: seq<Column<T>>): (r: seq<string>)
    ensures |r| == |columns| && forall j :: 0 <= j < |r| ==> r[j] == columns[j].extractor(item)
  {
    if |columns| == 0 then []
    else
      var n := |columns| - 1;
      assert forall j :: 0 <= j < n ==> columns[..n][j] == columns[j];
      Cells(item, columns[..n]) + [columns[n].extractor(item)]
  }

  function Widths<T>(columns: seq<Column<T>>, data: seq<T>): (r: seq<int>)
    ensures |r| == |columns| && forall j :: 0 <= j < |r| ==> r[j] == ColumnWidth(columns[j], data)
  {
    if |columns| == 0 then []
    else
      var n := |columns| - 1;
      assert forall j :: 0 <= j < n ==> columns[..n][j] == columns[j];
      Widths(columns[..n], data) + [ColumnWidth(columns[n], data)]
  }

  function Justified(cells: seq<string>, widths: seq<int>): (r: seq<string>)
    requires |cells| == |widths|
    ensures |r| == |cells|
  {
    if |cells| == 0 then []
    else
      var n := |cells| - 1;
      Justified(cells[..n], widths[..n]) + [LeftJustify(cells[n], widths[n])]
  }

  /** Part `j` is cell `j` justified to width `j`. */
  lemma {:induction false} JustifiedAt(cells: seq<string>, widths: seq<int>, j: int)
    requires |cells| == |widths| && 0 <= j < |cells|
    ensures Justified(cells, widths)[j] == LeftJustify(cells[j], widths[j])
  {
    var n := |cells| - 1;
    if j < n {
      JustifiedAt(cells[..n], widths[..n], j);
      assert cells[..n][j] == cells[j] && widths[..n][j] == widths[j];
    }
  }

  /** One printed line, without its newline. */
  function Line(cells: seq<string>, widths: seq<int>): string
    requires |cells| == |widths|
  {
    Join(Justified(cells, widths), "\t")
  }

  function RowLines<T>(items: seq<T>, columns: seq<Column<T>>, widths: seq<int>): (r: seq<string>)
    requires |widths| == |columns|
    ensures |r| == |items|
  {
    if |items| == 0 then []
    else
      var n := |items| - 1;
      RowLines(items[..n], columns, widths) + [Line(Cells(items[n], columns), widths)]
  }

  /** Line `i` of the rows is the line of item `i`. */
  lemma {:induction false} RowLinesAt<T>(items: seq<T>, columns: seq<Column<T>>, widths: seq<int>, i: int)
    requires |widths| == |columns| && 0 <= i < |items|
    ensures RowLines(items, columns, widths)[i] == Line(Cells(items[i], columns), widths)
  {
    var n := |items| - 1;
    var front := RowLines(items[..n], columns, widths);
    assert RowLines(items, columns, widths) == front + [Line(Cells(items[n], columns), widths)];
    if i < n {
      RowLinesAt(items[..n], columns, widths, i);
      assert items[..n][i] == items[i];
    }
  }

  /** The lines of the table: the header, then one line per item in data order. */
  function TableLines<T>(data: seq<T>, columns: seq<Column<T>>): seq<string>
  {
    var widths := Widths(columns, data);
    [Line(Headers(columns), widths)] + RowLines(data, columns, widths)
  }

  /** Lines each followed by a newline, as `fmt.Fprintf(&sb, "%s\n", ...)` writes them. */
  function Terminated(lines: seq<string>): (r: string)
    ensures |lines| > 0 ==> |r| > 0 && r[|r| - 1] == '\n'
  {
    if |lines| == 0 then ""
    else
      var n := |lines| - 1;
      Terminated(lines[..n]) + lines[n] + "\n"
  }

  /** The string FormatTable returns. */
  function Table<T>(data: seq<T>, columns: seq<Column<T>>): (r: string)
    ensures |r| == 0 <==> |data| == 0
  {
    if |data| == 0 then "" else Terminated(TableLines(data, columns))
  }

  /** The first two loops: header widths, then the cells of every row and the widest. */
  method MeasureRows<T>(data: seq<T>, columns: seq<Column<T>>) returns (maxWidths: array<int>, rows: array2<string>)
    ensures fresh(maxWidths) && fresh(rows)
    ensures maxWidths.Length == |columns| && rows.Length0 == |data| && rows.Length1 == |columns|
    ensures forall j :: 0 <= j < |columns| ==> maxWidths[j] == ColumnWidth(columns[j], data)
    ensures forall i, j :: 0 <= i < |data| && 0 <= j < |columns| ==> rows[i, j] == columns[j].extractor(data[i])
  {
    maxWidths := new int[|columns|];
    for i := 0 to |columns|
      invariant forall j :: 0 <= j < i ==> maxWidths[j] == ColumnWidth(columns[j], data[..0])
    {
      maxWidths[i] := |columns[i].header|;
      if columns[i].minWidth > maxWidths[i] {
        maxWidths[i] := columns[i].minWidth;
      }
    }
    rows := new string[|data|, |columns|];
    for i := 0 to |data|
      invariant forall j :: 0 <= j < |columns| ==> maxWidths[j] == ColumnWidth(columns[j], data[..i])
      invariant forall r, j :: 0 <= r < i && 0 <= j < |columns| ==> rows[r, j] == columns[j].extractor(data[r])
    {
      MeasureRow(Cells(data[i], columns), i, maxWidths, rows);
      forall j | 0 <= j < |columns|
        ensures maxWidths[j] == ColumnWidth(columns[j], data[..i + 1])
      {
        ColumnWidthSnoc(columns[j], data, i);
      }
    }
    assert data[..|data|] == data;
  }

  /** The inner loop for row `i`: store its cells and widen each column the row
      overflows. */
  method MeasureRow(cells: seq<string>, i: int, maxWidths: array<int>, rows: array2<string>)
    requires 0 <= i < rows.Length0 && maxWidths.Length == |cells| == rows.Length1
    modifies maxWidths, rows
    ensures forall j :: 0 <= j < |cells| ==> maxWidths[j] == Max(old(maxWidths[j]), |cells[j]|)
    ensures forall j :: 0 <= j < |cells| ==> rows[i, j] == cells[j]
    ensures forall r, j :: 0 <= r < rows.Length0 && r != i && 0 <= j < |cells| ==> rows[r, j] == old(rows[r, j])
  {
    for j := 0 to |cells|
      invariant forall c :: 0 <= c < j ==> maxWidths[c] == Max(old(maxWidths[c]), |cells[c]|)
      invariant forall c :: j <= c < |cells| ==> maxWidths[c] == old(maxWidths[c])
      invariant forall c :: 0 <= c < j ==> rows[i, c] == cells[c]
      invariant forall r, c :: 0 <= r < rows.Length0 && r != i && 0 <= c < |cells| ==> rows[r, c] == old(rows[r, c])
    {
      rows[i, j] := cells[j];
      if |rows[i, j]| > maxWidths[j] {
        maxWidths[j] := |rows[i, j]|;
      }
    }
  }

  /** One `%-*s` loop: the cells of a line justified into a fresh array of parts. */
  method JustifyParts(cells: seq<string>, maxWidths: array<int>) returns (parts: array<string>)
    requires |cells| == maxWidths.Length
    ensures fresh(parts)
    ensures parts[..] == Justified(cells, maxWidths[..])
  {
    parts := new string[|cells|];
    for i := 0 to |cells|
      invariant forall c :: 0 <= c < i ==> parts[c] == LeftJustify(cells[c], maxWidths[c])
    {
      parts[i] := LeftJustify(cells[i], maxWidths[i]);
    }
    forall c | 0 <= c < |cells| ensures parts[c] == Justified(cells, maxWidths[..])[c] {
      JustifiedAt(cells, maxWidths[..], c);
    }
  }

  /** Terminated on one more line. */
  lemma {:induction false} TerminatedSnoc(lines: seq<string>, line: string)
    ensures Terminated(lines + [line]) == Terminated(lines) + line + "\n"
  {
    assert (lines + [line])[..|lines|] == lines;
  }

  /** RowLines over one more item. */
  lemma {:induction false} RowLinesSnoc<T>(data: seq<T>, columns: seq<Column<T>>, widths: seq<int>, r: int)
    requires 0 <= r < |data| && |widths| == |columns|
    ensures RowLines(data[..r + 1], columns, widths) == RowLines(data[..r], columns, widths) + [Line(Cells(data[r], columns), widths)]
  {
    assert data[..r + 1][..r] == data[..r];
  }

  /** The body of the printing loop for row `r`: its line, without the newline. */
  method PrintRow<T>(data: seq<T>, columns: seq<Column<T>>, rows: array2<string>, maxWidths: array<int>, r: int)
      returns (line: string)
    requires 0 <= r < |data| && rows.Length0 == |data| && rows.Length1 == |columns| && maxWidths.Length == |columns|
    requires forall i, j :: 0 <= i < |data| && 0 <= j < |columns| ==> rows[i, j] == columns[j].extractor(data[i])
    ensures line == Line(Cells(data[r], columns), maxWidths[..])
  {
    var cells := seq(|columns|, c requires 0 <= c < |columns| reads rows => rows[r, c]);
    assert cells == Cells(data[r], columns);
    var rowParts := JustifyParts(cells, maxWidths);
    line := Join(rowParts[..], "\t");
  }

  /** The header line, without the newline. */
  method PrintHeader<T>(columns: seq<Column<T>>, maxWidths: array<int>) returns (line: string)
    requires maxWidths.Length == |columns|
    ensures line == Line(Headers(columns), maxWidths[..])
  {
    var headerParts := JustifyParts(Headers(columns), maxWidths);
    line := Join(headerParts[..], "\t");
  }

  /** Before any row the output is the header line and a newline. */
  lemma {:induction false} TableStart<T>(header: string, data: seq<T>, columns: seq<Column<T>>, widths: seq<int>)
    requires |widths| == |columns|
    ensures Terminated([header] + RowLines(data[..0], columns, widths)) == header + "\n"
  {
    var rows := RowLines(data[..0], columns, widths);
    assert rows == [];
    assert [header] + rows == [] + [header];
    TerminatedSnoc([], header);
  }

  /** The output so far over one more row: that row's line and a newline appended. */
  lemma {:induction false} TableLinesSnoc<T>(header: string, data: seq<T>, columns: seq<Column<T>>, widths: seq<int>, r: int)
    requires 0 <= r < |data| && |widths| == |columns|
    ensures Terminated([header] + RowLines(data[..r + 1], columns, widths)) ==
      Terminated([header] + RowLines(data[..r], columns, widths)) + Line(Cells(data[r], columns), widths) + "\n"
  {
    var before := [header] + RowLines(data[..r], columns, widths);
    var line := Line(Cells(data[r], columns), widths);
    TerminatedSnoc(before, line);
    RowLinesSnoc(data, columns, widths, r);
    Seqs.AppendAssoc([header], RowLines(data[..r], columns, widths), [line]);
  }

  /** FormatTable. */
  method FormatTable<T>(data: seq<T>, columns: seq<Column<T>>) returns (out: string)
    ensures out == Table(data, columns)
  {
    if |data| == 0 {
      return "";
    }
    var maxWidths, rows := MeasureRows(data, columns);
    ghost var widths := Widths(columns, data);
    assert maxWidths[..] == widths;
    var header := PrintHeader(columns, maxWidths);
    out := header + "\n";
    TableStart(header, data, columns, widths);
    for r := 0 to |data|
      invariant maxWidths[..] == widths
      invariant forall i, j :: 0 <= i < |data| && 0 <= j < |columns| ==> rows[i, j] == columns[j].extractor(data[i])
      invariant out == Terminated([header] + RowLines(data[..r], columns, widths))
    {
      var line := PrintRow(data, columns, rows, maxWidths, r);
      TableLinesSnoc(header, data, columns, widths, r);
      out := out + line + "\n";
    }
    assert data[..|data|] == data;
  }

  // ---------------------------------------------------------------- properties

  /** Every column is aligned: the header and every cell of column `j` are justified to
      the same width, the column's width, and keep their text at the front. */
  lemma {:induction false} Aligned<T>(data: seq<T>, columns: seq<Column<T>>)
    ensures var widths := Widths(columns, data);
      forall j :: 0 <= j < |columns| ==>
        |LeftJustify(columns[j].header, widths[j])| == widths[j] &&
        forall i :: 0 <= i < |data| ==>
          var cell := columns[j].extractor(data[i]);
          |LeftJustify(cell, widths[j])| == widths[j] && LeftJustify(cell, widths[j])[..|cell|] == cell
  {
    var widths := Widths(columns, data);
    forall j, i | 0 <= j < |columns| && 0 <= i < |data|
      ensures LeftJustify(columns[j].extractor(data[i]), widths[j])[..|columns[j].extractor(data[i])|] == columns[j].extractor(data[i])
    {
      LeftJustifyShape(columns[j].extractor(data[i]), widths[j]);
    }
  }

  /** A character other than the space that is not in `s` is not in its justification. */
  lemma {:induction false} LeftJustifyAvoids(s: string, width: int, c: char)
    requires c != ' ' && c !in s
    ensures c !in LeftJustify(s, width)
  {
    var r := LeftJustify(s, width);
    LeftJustifyShape(s, width);
    forall k | 0 <= k < |r| ensures r[k] != c {
      if k < |s| {
        assert r[k] == r[..|s|][k];
      }
    }
  }

  /** A character in neither the parts nor the separator is not in their join. */
  lemma {:induction false} JoinAvoids(parts: seq<string>, d: string, c: char)
    requires c !in d && forall k :: 0 <= k < |parts| ==> c !in parts[k]
    ensures c !in Join(parts, d)
  {
    if |parts| > 1 {
      JoinAvoids(parts[1..], d, c);
    }
  }

  /** No line contains `c` when no header and no cell does (and `c` is not a tab or a
      space). */
  lemma {:induction false} LineAvoids(cells: seq<string>, widths: seq<int>, c: char)
    requires |cells| == |widths| && c != ' ' && c != '\t'
    requires forall k :: 0 <= k < |cells| ==> c !in cells[k]
    ensures c !in Line(cells, widths)
  {
    var parts := Justified(cells, widths);
    forall k | 0 <= k < |parts| ensures c !in parts[k] {
      JustifiedAt(cells, widths, k);
      LeftJustifyAvoids(cells[k], widths[k], c);
    }
    JoinAvoids(parts, "\t", c);
  }

  /** Reading a line back: when no cell holds a tab, splitting the line at tabs gives
      the justified cells, one per column. */
  lemma {:induction false} LineCells(cells: seq<string>, widths: seq<int>)
    requires |cells| == |widths| && |cells| > 0
    requires forall k :: 0 <= k < |cells| ==> '\t' !in cells[k]
    ensures Split(Line(cells, widths), "\t") == Justified(cells, widths)
  {
    var parts := Justified(cells, widths);
    forall k | 0 <= k < |parts| ensures '\t' !in parts[k] {
      JustifiedAt(cells, widths, k);
      LeftJustifyAvoids(cells[k], widths[k], '\t');
    }
    SplitJoin(parts, "\t");
  }

  /** Terminated lines are the lines joined by newlines, plus a final newline. */
  lemma {:induction false} TerminatedJoin(lines: seq<string>)
    requires |lines| > 0
    ensures Terminated(lines) == Join(lines + [""], "\n")
  {
    TerminatedJoinLast(lines);
    JoinAppend(lines, "", "\n");
    assert Join(lines, "\n") + "\n" + "" == Join(lines, "\n") + "\n";
  }

  /** Terminated is the join with one more newline. */
  lemma {:induction false} TerminatedJoinLast(lines: seq<string>)
    requires |lines| > 0
    ensures Terminated(lines) == Join(lines, "\n") + "\n"
  {
    var n := |lines| - 1;
    if n > 0 {
      var front := lines[..n];
      TerminatedJoinLast(front);
      assert front + [lines[n]] == lines;
      JoinAppend(front, lines[n], "\n");
      Seqs.AppendAssoc(Join(front, "\n") + "\n", lines[n], "\n");
    }
  }

  /** Reading the table back: when no header and no cell holds a newline, splitting the
      output at newlines gives the header line, one line per item in data order, and the
      empty string after the final newline. */
  lemma {:induction false} TableText<T>(data: seq<T>, columns: seq<Column<T>>)
    requires |data| > 0
    requires forall j :: 0 <= j < |columns| ==> '\n' !in columns[j].header
    requires forall i, j :: 0 <= i < |data| && 0 <= j < |columns| ==> '\n' !in columns[j].extractor(data[i])
    ensures var text := Split(Table(data, columns), "\n");
      var widths := Widths(columns, data);
      |text| == |data| + 2 && text[0] == Line(Headers(columns), widths) &&
      (forall i :: 0 <= i < |data| ==> text[i + 1] == Line(Cells(data[i], columns), widths)) &&
      text[|data| + 1] == ""
  {
    var widths := Widths(columns, data);
    assert Table(data, columns) == Terminated([Line(Headers(columns), widths)] + RowLines(data, columns, widths));
    LinesText(data, columns, widths);
  }

  /** TableText for any widths, one per column. */
  lemma {:induction false} LinesText<T>(data: seq<T>, columns: seq<Column<T>>, widths: seq<int>)
    requires |widths| == |columns|
    requires forall j :: 0 <= j < |columns| ==> '\n' !in columns[j].header
    requires forall i, j :: 0 <= i < |data| && 0 <= j < |columns| ==> '\n' !in columns[j].extractor(data[i])
    ensures var text := Split(Terminated([Line(Headers(columns), widths)] + RowLines(data, columns, widths)), "\n");
      |text| == |data| + 2 && text[0] == Line(Headers(columns), widths) &&
      (forall i :: 0 <= i < |data| ==> text[i + 1] == Line(Cells(data[i], columns), widths)) &&
      text[|data| + 1] == ""
  {
    var header := Line(Headers(columns), widths);
    var rows := RowLines(data, columns, widths);
    var text := [header] + rows + [""];
    assert Split(Terminated([header] + rows), "\n") == text by {
      LineAvoids(Headers(columns), widths, '\n');
      RowLinesAvoid(data, columns, widths);
      SplitTerminated(header, rows);
    }
    FramedRows(data, columns, widths, header);
  }

  /** The rows framed by a header line and a final empty line, item by item. */
  lemma {:induction false} FramedRows<T>(data: seq<T>, columns: seq<Column<T>>, widths: seq<int>, header: string)
    requires |widths| == |columns|
    ensures var text := [header] + RowLines(data, columns, widths) + [""];
      forall i :: 0 <= i < |data| ==> text[i + 1] == Line(Cells(data[i], columns), widths)
  {
    var rows := RowLines(data, columns, widths);
    forall i | 0 <= i < |data| ensures ([header] + rows + [""])[i + 1] == Line(Cells(data[i], columns), widths) {
      Seqs.IndexInFrame(header, rows, "", i);
      RowLinesAt(data, columns, widths, i);
    }
  }

  /** A header and rows without newlines, each terminated, split back at newlines into
      themselves and the empty string after the last newline. */
  lemma {:induction false} SplitTerminated(header: string, rows: seq<string>)
    requires '\n' !in header && forall k :: 0 <= k < |rows| ==> '\n' !in rows[k]
    ensures Split(Terminated([header] + rows), "\n") == [header] + rows + [""]
  {
    var lines := [header] + rows;
    var all := lines + [""];
    forall k | 0 <= k < |all| ensures '\n' !in all[k] {
      if 0 < k <= |rows| {
        assert all[k] == rows[k - 1];
      }
    }
    TerminatedJoin(lines);
    SplitJoin(all, "\n");
  }

  /** No row line holds a newline when no cell does. */
  lemma {:induction false} RowLinesAvoid<T>(items: seq<T>, columns: seq<Column<T>>, widths: seq<int>)
    requires |widths| == |columns|
    requires forall i, j :: 0 <= i < |items| && 0 <= j < |columns| ==> '\n' !in columns[j].extractor(items[i])
    ensures forall i :: 0 <= i < |items| ==> '\n' !in RowLines(items, columns, widths)[i]
  {
    forall i | 0 <= i < |items| ensures '\n' !in RowLines(items, columns, widths)[i] {
      RowLinesAt(items, columns, widths, i);
      RowAvoids(items[i], columns, widths);
    }
  }

  /** One row line holds no newline when none of its cells does. */
  lemma {:induction false} RowAvoids<T>(item: T, columns: seq<Column<T>>, widths: seq<int>)
    requires |widths| == |columns|
    requires forall j :: 0 <= j < |columns| ==> '\n' !in columns[j].extractor(item)
    ensures '\n' !in Line(Cells(item, columns), widths)
  {
    LineAvoids(Cells(item, columns), widths, '\n');
  }
}
