/**
  Every row of a table and every column's text is there, once and in order: the
  blocks of lines the rows become make up the table, and a composed row is as tall
  as its tallest cell.
 */
module Tables {
  import opened Receipts
  import opened Fonts
  import opened Wrap
  import opened ColumnLayout
  import opened TextLayout

  // ------------------------------------------------------------------ the height of a composed row

  lemma {:induction false} TallestHolds(cells: seq<seq<string>>, i: nat)
    requires i < |cells|
    ensures |cells[i]| <= Tallest(cells)
    decreases |cells|
  {
    if i < |cells| - 1 { TallestHolds(cells[..|cells| - 1], i); }
  }

  lemma {:induction false} TallestReached(cells: seq<seq<string>>) returns (i: nat)
    requires cells != []
    ensures i < |cells| && |cells[i]| == Tallest(cells)
    decreases |cells|
  {
    i := |cells| - 1;
    if |cells| > 1 {
      var k := TallestReached(cells[..|cells| - 1]);
      if |cells[i]| <= Tallest(cells[..|cells| - 1]) { i := k; }
    }
  }

  /** `lines` is how many lines the tallest of the columns needs. */
  ghost predicate JustTallEnough(lines: nat, columns: seq<seq<string>>) {
    && (forall i | 0 <= i < |columns| :: |columns[i]| <= lines)
    && (columns != [] ==> exists i :: 0 <= i < |columns| && |columns[i]| == lines)
  }

  lemma TallestIsJustEnough(cells: seq<seq<string>>)
    requires cells != []
    ensures JustTallEnough(Tallest(cells), cells)
  {
    forall i | 0 <= i < |cells|
      ensures |cells[i]| <= Tallest(cells)
    {
      TallestHolds(cells, i);
    }
    var i := TallestReached(cells);
  }

  /** Columns side by side take as many lines as the longest needs, so none is cut short. */
  lemma ColumnsAllThere(columns: seq<Column>, width: int, f: Font)
    requires columns != [] && f.advance(' ') > 0 && TextColumns(columns)
    ensures var widths := WidthsOf(Weights(columns), width, f);
      && JustTallEnough(|ColumnsLinesOf(columns, width, f)|, ColumnCells(columns, widths, f))
      && forall i: nat | i < |columns| ::
           ColumnCells(columns, widths, f)[i] == ColumnText(columns[i].elements, widths[i], f)
  {
    var widths := WidthsOf(Weights(columns), width, f);
    TallestIsJustEnough(ColumnCells(columns, widths, f));
    forall i: nat | i < |columns|
      ensures ColumnCells(columns, widths, f)[i] == ColumnText(columns[i].elements, widths[i], f)
    {
      ColumnCellsAt(columns, widths, f, i);
    }
  }

  /** A column's lines hold the words of its text elements, in order. */
  function TextWords(es: seq<Element>): seq<string>
    requires OnlyText(es)
  {
    if es == [] then [] else TextWords(es[..|es| - 1]) + Fields(es[|es| - 1].content)
  }

  lemma {:induction false} ColumnKeepsWords(es: seq<Element>, width: int, f: Font)
    requires OnlyText(es)
    ensures FieldsOfAll(ColumnText(es, width, f)) == TextWords(es)
    decreases |es|
  {
    if es != [] {
      ColumnKeepsWords(es[..|es| - 1], width, f);
      TextKeepsWords(es[|es| - 1].content, width, f, 1);
      FieldsConcat(ColumnText(es[..|es| - 1], width, f), TextLines(es[|es| - 1].content, width, f, 1));
    }
  }

  // ------------------------------------------------------------------ the rows of a table

  function TableWidths(t: Element, width: int, f: Font): seq<int>
    requires t.Table? && TableRows(t)
  {
    EvenWidths(|t.headers|, width, f)
  }

  /** The number of lines of the rows before row `r`, the header being row 0. */
  function FirstLine(t: Element, width: int, f: Font, r: nat): nat
    requires t.Table? && TableRows(t) && f.advance(' ') > 0 && r <= |t.rows| + 1
  {
    if r == 0 then 0 else FirstLine(t, width, f, r - 1) + |RowLines(TableRow(t, r - 1), TableWidths(t, width, f), f)|
  }

  ghost predicate AllWide(rows: seq<seq<string>>, n: nat) {
    forall i | 0 <= i < |rows| :: |rows[i]| == n
  }

  lemma {:induction false} LinesBefore(rows: seq<seq<string>>, widths: seq<int>, f: Font, r: nat)
    requires f.advance(' ') > 0 && AllWide(rows, |widths|) && r <= |rows|
    ensures TableLinesWithin(rows[..r], widths, f) <= TableLinesWithin(rows, widths, f)
    decreases |rows|
  {
    if r == |rows| {
      assert rows[..r] == rows;
    } else {
      var init := rows[..|rows| - 1];
      LinesBefore(init, widths, f, r);
      assert init[..r] == rows[..r];
    }
  }

  lemma NextRow(rows: seq<seq<string>>, widths: seq<int>, f: Font, r: nat)
    requires f.advance(' ') > 0 && AllWide(rows, |widths|) && r < |rows|
    ensures TableLinesWithin(rows[..r + 1], widths, f)
         == TableLinesWithin(rows[..r], widths, f) + RowLines(rows[r], widths, f)
  {
    assert rows[..r + 1][..r] == rows[..r];
  }

  function Rows(t: Element): (rows: seq<seq<string>>)
    requires t.Table? && TableRows(t)
    ensures AllWide(rows, |t.headers|) && |rows| == |t.rows| + 1
    ensures forall r: nat | r < |rows| :: rows[r] == TableRow(t, r)
  {
    [t.headers] + t.rows
  }

  lemma {:induction false} StartIsLength(t: Element, width: int, f: Font, r: nat)
    requires t.Table? && TableRows(t) && f.advance(' ') > 0 && r <= |t.rows| + 1
    ensures FirstLine(t, width, f, r) == |TableLinesWithin(Rows(t)[..r], TableWidths(t, width, f), f)|
    decreases r
  {
    if r > 0 {
      StartIsLength(t, width, f, r - 1);
      NextRow(Rows(t), TableWidths(t, width, f), f, r - 1);
    }
  }

  /** The rows' blocks follow each other from the first line to the last. */
  lemma TableStartsAndEnds(t: Element, width: int, f: Font)
    requires t.Table? && TableRows(t) && f.advance(' ') > 0 && width > 0
    ensures FirstLine(t, width, f, 0) == 0
    ensures FirstLine(t, width, f, |t.rows| + 1) == |TableLinesOf(t, width, f)|
  {
    StartIsLength(t, width, f, |t.rows| + 1);
    assert Rows(t)[..|t.rows| + 1] == Rows(t);
  }

  /** The lines from `start` on begin with `block`. */
  ghost predicate BlockAt(lines: seq<string>, start: nat, block: seq<string>) {
    start + |block| <= |lines| && lines[start..start + |block|] == block
  }

  lemma BlockOfPrefix(lines: seq<string>, before: seq<string>, block: seq<string>)
    requires before + block <= lines
    ensures BlockAt(lines, |before|, block)
  {
    assert lines[..|before + block|] == before + block;
  }

  /**
    Row `r`, the header being row 0, is there whole: its block begins where the row
    before ends, is as tall as its tallest cell, and holds that row's composed lines.
   */
  lemma TableRowIsThere(t: Element, width: int, f: Font, r: nat)
    requires t.Table? && TableRows(t) && f.advance(' ') > 0 && width > 0 && r <= |t.rows|
    ensures var widths := TableWidths(t, width, f);
      var row := TableRow(t, r);
      && BlockAt(TableLinesOf(t, width, f), FirstLine(t, width, f, r), RowLines(row, widths, f))
      && FirstLine(t, width, f, r + 1) == FirstLine(t, width, f, r) + |RowLines(row, widths, f)|
      && JustTallEnough(|RowLines(row, widths, f)|, WrapCells(row, widths, f))
  {
    var widths, rows := TableWidths(t, width, f), Rows(t);
    StartIsLength(t, width, f, r);
    LinesBefore(rows, widths, f, r + 1);
    NextRow(rows, widths, f, r);
    BlockOfPrefix(TableLinesOf(t, width, f), TableLinesWithin(rows[..r], widths, f), RowLines(TableRow(t, r), widths, f));
    TallestIsJustEnough(WrapCells(TableRow(t, r), widths, f));
  }

  /** Under a fixed advance, and when words fit, every line of that block slices back to the row's cells. */
  lemma TableRowReadsBack(t: Element, width: int, f: Font, cell: nat, r: nat, l: nat)
    requires t.Table? && TableRows(t) && f.Fixed(cell) && width > 0 && r <= |t.rows|
    requires RowFits(TableRow(t, r), TableWidths(t, width, f), f)
    requires l < |RowLines(TableRow(t, r), TableWidths(t, width, f), f)|
    ensures RowSlicesBack(TableRow(t, r), TableWidths(t, width, f), f, cell, l)
    ensures FirstLine(t, width, f, r) + l < |TableLinesOf(t, width, f)|
    ensures TableLinesOf(t, width, f)[FirstLine(t, width, f, r) + l]
         == RowLines(TableRow(t, r), TableWidths(t, width, f), f)[l]
  {
    TableRowIsThere(t, width, f, r);
    RowSlices(TableRow(t, r), TableWidths(t, width, f), f, cell, l);
    var lines, start := TableLinesOf(t, width, f), FirstLine(t, width, f, r);
    var block := RowLines(TableRow(t, r), TableWidths(t, width, f), f);
    assert lines[start..start + |block|][l] == block[l];
  }

  // ------------------------------------------------------------------ without a page width

  /** The line is the cells with one space between any two. */
  predicate HoldsCells(line: string, cells: seq<string>) {
    if cells == [] then line == ""
    else if |cells| == 1 then line == cells[0]
    else cells[0] + " " <= line && HoldsCells(line[|cells[0]| + 1..], cells[1..])
  }

  lemma {:induction false} JoinHoldsCells(cells: seq<string>)
    ensures HoldsCells(Join(cells), cells)
    decreases |cells|
  {
    if |cells| > 1 {
      assert cells == [cells[0]] + cells[1..];
      JoinConcat([cells[0]], cells[1..]);
      JoinHoldsCells(cells[1..]);
      assert Join(cells)[|cells[0]| + 1..] == Join(cells[1..]);
    }
  }

  lemma {:induction false} UnboundedAt(rows: seq<seq<string>>, r: nat)
    requires r < |rows|
    ensures |TableLinesUnbounded(rows)| == |rows| && TableLinesUnbounded(rows)[r] == Join(rows[r])
    decreases |rows|
  {
    var n := |rows| - 1;
    if n > 0 { UnboundedAt(rows[..n], if r < n then r else 0); }
  }

  /** Without a page width a table has one line per row, the header first, each holding its row's cells in order. */
  lemma UnboundedTable(t: Element, width: int, f: Font, r: nat)
    requires t.Table? && TableRows(t) && f.advance(' ') > 0 && width <= 0 && r <= |t.rows|
    ensures |TableLinesOf(t, width, f)| == |t.rows| + 1
    ensures HoldsCells(TableLinesOf(t, width, f)[r], TableRow(t, r))
  {
    UnboundedAt(Rows(t), r);
    JoinHoldsCells(TableRow(t, r));
  }
}
