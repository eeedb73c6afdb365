/**
  The text-shaped elements as lines: aligned text, tables, columns and lists.
 */
module TextLayout {
  import opened Receipts
  import opened Fonts
  import opened Wrap
  import opened ColumnLayout

  // ------------------------------------------------------------------ leading spaces

  lemma MeasureTimes(a: nat, b: nat, size: nat)
    ensures (a + b) * size == a * size + b * size
  {}

  lemma SpaceDots(f: Font, size: nat)
    requires f.advance(' ') > 0 && size >= 1
    ensures f.advance(' ') * size > 0
  {}

  /** As many spaces as fit in `room` dots at the given size. */
  function FittingSpaces(room: int, f: Font, size: nat): string
    requires f.advance(' ') > 0 && size >= 1
  {
    SpaceDots(f, size);
    Spaces(SpacesIn(room, f.advance(' ') * size))
  }

  ghost predicate FittedBy(room: int, f: Font, size: nat, s: string, n: nat)
    requires f.advance(' ') > 0 && size >= 1
  {
    SpaceDots(f, size);
    && s == Spaces(n)
    && SpacesIn(room, f.advance(' ') * size) == n + SpacesIn(room - f.Measure(s) * size, f.advance(' ') * size)
  }

  lemma FitStep(room: int, f: Font, size: nat, s: string, n: nat)
    requires f.advance(' ') > 0 && size >= 1 && FittedBy(room, f, size, s, n)
    ensures f.Measure(s + " ") * size > f.Measure(s) * size
    ensures f.Measure(s + " ") * size <= room ==> FittedBy(room, f, size, s + " ", n + 1)
    ensures f.Measure(s + " ") * size > room ==> s == FittingSpaces(room, f, size)
  {
    OneMore(f, s);
    SpaceDots(f, size);
    MeasureTimes(f.Measure(s), f.advance(' '), size);
  }

  method FitSpaces(room: int, f: Font, size: nat) returns (s: string)
    requires f.advance(' ') > 0 && size >= 1
    ensures s == FittingSpaces(room, f, size)
  {
    s := "";
    ghost var n: nat := 0;
    assert f.Measure(s) * size == 0;
    FitStep(room, f, size, s, n);
    while f.Measure(s + " ") * size <= room
      invariant FittedBy(room, f, size, s, n)
      decreases room - f.Measure(s) * size
    {
      FitStep(room, f, size, s, n);
      s := s + " ";
      n := n + 1;
    }
    FitStep(room, f, size, s, n);
  }

  // ------------------------------------------------------------------ aligned text

  function AlignRoom(content: string, align: string, width: int, f: Font, size: nat): int {
    var free := width - f.Measure(content) * size;
    if align == "center" then free / 2 else free
  }

  /** Centre and right alignment pad on the left; a line that is not narrower is unchanged. */
  function Aligned(content: string, align: string, width: int, f: Font, size: nat): string
    requires f.advance(' ') > 0 && size >= 1
  {
    if (align != "center" && align != "right") || width <= 0 || f.Measure(content) * size >= width then content
    else FittingSpaces(AlignRoom(content, align, width, f, size), f, size) + content
  }

  method AlignPad(content: string, align: string, width: int, f: Font, size: nat) returns (r: string)
    requires f.advance(' ') > 0 && size >= 1
    ensures r == Aligned(content, align, width, f, size)
  {
    if align != "center" && align != "right" {
      return content;
    }
    var contentWidth := f.Measure(content) * size;
    if width <= 0 || contentWidth >= width {
      return content;
    }
    var avail := width - contentWidth;
    if align == "center" {
      avail := avail / 2;
    }
    var prefix := FitSpaces(avail, f, size);
    r := prefix + content;
  }

  /**
    With `left` dots before it the content is as far right as whole spaces allow, or as
    near the middle: what is left on its right is not less, by less than two spaces.
   */
  predicate Placed(align: string, left: int, content: int, space: int, width: int) {
    var right := width - left - content;
    && (align == "right" ==> 0 <= right < space)
    && (align == "center" ==> 0 <= right - left < 2 * space)
  }

  /** The padded line stays within the width, and one more leading space would exceed the room. */
  lemma AlignedFits(content: string, align: string, width: int, f: Font, size: nat)
    requires f.advance(' ') > 0 && size >= 1 && width > 0 && f.Measure(content) * size < width
    requires align == "center" || align == "right"
    ensures f.Measure(Aligned(content, align, width, f, size)) * size <= width
    ensures exists spaces: nat ::
        && Aligned(content, align, width, f, size) == Spaces(spaces) + content
        && Placed(align, spaces * (f.advance(' ') * size), f.Measure(content) * size, f.advance(' ') * size, width)
  {
    SpaceDots(f, size);
    var dots := f.advance(' ') * size;
    var room := AlignRoom(content, align, width, f, size);
    var spaces := SpacesIn(room, dots);
    SpacesInMaximal(room, dots);
    f.MeasureConcat(Spaces(spaces), content);
    SpacesMeasure(f, spaces, size);
    MeasureTimes(f.Measure(Spaces(spaces)), f.Measure(content), size);
    assert Aligned(content, align, width, f, size) == Spaces(spaces) + content;
  }

  lemma SpacesStep(dots: nat, advance: nat, n: nat, size: nat)
    requires n > 0 && dots * size == (n - 1) * (advance * size)
    ensures (dots + advance) * size == n * (advance * size)
  {
    assert (dots + advance) * size == dots * size + advance * size;
    assert n * (advance * size) == (n - 1) * (advance * size) + advance * size;
  }

  lemma {:induction false} SpacesMeasure(f: Font, n: nat, size: nat)
    ensures f.Measure(Spaces(n)) * size == n * (f.advance(' ') * size)
  {
    if n > 0 {
      SpacesMeasure(f, n - 1, size);
      OneMore(f, Spaces(n - 1));
      SpacesStep(f.Measure(Spaces(n - 1)), f.advance(' '), n, size);
    }
  }

  // ------------------------------------------------------------------ tables

  /** With no page width, a row's cells are joined by a single space. */
  function TableLinesUnbounded(rows: seq<seq<string>>): seq<string> {
    if rows == [] then [] else TableLinesUnbounded(rows[..|rows| - 1]) + [Join(rows[|rows| - 1])]
  }

  function TableLinesWithin(rows: seq<seq<string>>, widths: seq<int>, f: Font): seq<string>
    requires f.advance(' ') > 0 && forall i | 0 <= i < |rows| :: |rows[i]| <= |widths|
  {
    if rows == [] then []
    else TableLinesWithin(rows[..|rows| - 1], widths, f) + RowLines(rows[|rows| - 1], widths, f)
  }

  ghost predicate TableRows(t: Element)
    requires t.Table?
  {
    t.headers != [] && forall i | 0 <= i < |t.rows| :: |t.rows[i]| == |t.headers|
  }

  method JoinRows(rows: seq<seq<string>>) returns (lines: seq<string>)
    ensures lines == TableLinesUnbounded(rows)
  {
    lines := [];
    for i := 0 to |rows|
      invariant lines == TableLinesUnbounded(rows[..i])
    {
      assert rows[..i + 1][..i] == rows[..i];
      lines := lines + [Join(rows[i])];
    }
    assert rows[..|rows|] == rows;
  }

  method WrapRows(rows: seq<seq<string>>, widths: seq<int>, f: Font) returns (lines: seq<string>)
    requires f.advance(' ') > 0 && forall i | 0 <= i < |rows| :: |rows[i]| <= |widths|
    ensures lines == TableLinesWithin(rows, widths, f)
  {
    lines := [];
    for i := 0 to |rows|
      invariant lines == TableLinesWithin(rows[..i], widths, f)
    {
      assert rows[..i + 1][..i] == rows[..i];
      var wrapped := TableRowLines(rows[i], widths, f);
      lines := lines + wrapped;
    }
    assert rows[..|rows|] == rows;
  }

  function TableLinesOf(t: Element, width: int, f: Font): seq<string>
    requires t.Table? && TableRows(t) && f.advance(' ') > 0
  {
    var rows := [t.headers] + t.rows;
    if width <= 0 then TableLinesUnbounded(rows)
    else
      assert forall i | 0 <= i < |rows| :: |rows[i]| == |t.headers|;
      TableLinesWithin(rows, EvenWidths(|t.headers|, width, f), f)
  }

  method TableLines(t: Element, width: int, f: Font) returns (lines: seq<string>)
    requires t.Table? && TableRows(t) && f.advance(' ') > 0
    ensures lines == TableLinesOf(t, width, f)
  {
    var rows := [t.headers] + t.rows;
    assert forall i | 0 <= i < |rows| :: |rows[i]| == |t.headers|;
    if width <= 0 {
      lines := JoinRows(rows);
    } else {
      var widths := TableColumnWidths(|t.headers|, width, f);
      lines := WrapRows(rows, widths, f);
    }
  }

  lemma {:induction false} RowsFitPage(rows: seq<seq<string>>, widths: seq<int>, width: int, f: Font, j: nat)
    requires f.advance(' ') > 0 && widths != []
    requires Sum(widths) == width - (|widths| - 1) * f.advance(' ')
    requires forall r | 0 <= r < |rows| :: |rows[r]| == |widths| && RowFits(rows[r], widths, f)
    requires j < |TableLinesWithin(rows, widths, f)|
    ensures f.Measure(TableLinesWithin(rows, widths, f)[j]) <= width
    decreases |rows|
  {
    var n := |rows| - 1;
    var before := TableLinesWithin(rows[..n], widths, f);
    if j < |before| {
      RowsFitPage(rows[..n], widths, width, f, j);
    } else {
      assert RowFits(rows[n], widths, f);
      RowLineFits(rows[n], widths, f, j - |before|);
    }
  }

  /**
    A whole table stays on the page: under any font with a positive space, on a page
    with at least a dot per column besides the gaps and with words that fit their
    columns, no composed line measures more than the printable width.
   */
  lemma TableFitsPage(t: Element, width: int, f: Font, j: nat)
    requires t.Table? && TableRows(t) && f.advance(' ') > 0
    requires PageHolds(|t.headers|, width, f.advance(' '))
    requires RowFits(t.headers, EvenWidths(|t.headers|, width, f), f)
    requires forall r | 0 <= r < |t.rows| :: RowFits(t.rows[r], EvenWidths(|t.headers|, width, f), f)
    requires width > 0 && j < |TableLinesOf(t, width, f)|
    ensures f.Measure(TableLinesOf(t, width, f)[j]) <= width
  {
    EvenWidthsFill(|t.headers|, width, f);
    var rows := [t.headers] + t.rows;
    var widths := EvenWidths(|t.headers|, width, f);
    forall r | 0 <= r < |rows|
      ensures |rows[r]| == |widths| && RowFits(rows[r], widths, f)
    {
      if r > 0 { assert rows[r] == t.rows[r - 1]; }
    }
    RowsFitPage(rows, widths, width, f, j);
  }

  function TableRow(t: Element, r: nat): seq<string>
    requires t.Table? && TableRows(t) && r <= |t.rows|
    ensures |TableRow(t, r)| == |t.headers|
  {
    if r == 0 then t.headers else t.rows[r - 1]
  }

  /** Row `r`'s line `l` slices back to its cells at every column. */
  ghost predicate RowSlicesBack(row: seq<string>, widths: seq<int>, f: Font, cell: nat, l: nat) {
    && cell > 0 && f.advance(' ') > 0 && |row| == |widths| && l < |RowLines(row, widths, f)|
    && forall i: nat | i < |row| :: SlicesBack(row, widths, f, cell, l, i)
  }

  lemma RowSlices(row: seq<string>, widths: seq<int>, f: Font, cell: nat, l: nat)
    requires f.Fixed(cell) && |row| == |widths| && RowFits(row, widths, f) && l < |RowLines(row, widths, f)|
    ensures RowSlicesBack(row, widths, f, cell, l)
  {
    forall i: nat | i < |row|
      ensures SlicesBack(row, widths, f, cell, l, i)
    {
      RowLineSlices(row, widths, f, cell, l, i);
    }
  }

  lemma {:induction false} LineOfRow(rows: seq<seq<string>>, widths: seq<int>, f: Font, j: nat) returns (r: nat, l: nat)
    requires f.advance(' ') > 0 && (forall i | 0 <= i < |rows| :: |rows[i]| <= |widths|)
    requires j < |TableLinesWithin(rows, widths, f)|
    ensures r < |rows| && l < |RowLines(rows[r], widths, f)|
    ensures TableLinesWithin(rows, widths, f)[j] == RowLines(rows[r], widths, f)[l]
    decreases |rows|
  {
    var n := |rows| - 1;
    var before := TableLinesWithin(rows[..n], widths, f);
    if j < |before| {
      r, l := LineOfRow(rows[..n], widths, f, j);
    } else {
      r, l := n, j - |before|;
    }
  }

  /**
    Every line of a table is a line of one of its rows, and cutting it at the
    columns' offsets, the same on every line, gives that row's cells back.
   */
  lemma TableSlicesBack(t: Element, width: int, f: Font, cell: nat, j: nat) returns (r: nat, l: nat)
    requires t.Table? && TableRows(t) && f.Fixed(cell) && width > 0
    requires RowFits(t.headers, EvenWidths(|t.headers|, width, f), f)
    requires forall r | 0 <= r < |t.rows| :: RowFits(t.rows[r], EvenWidths(|t.headers|, width, f), f)
    requires j < |TableLinesOf(t, width, f)|
    ensures r <= |t.rows|
    ensures var widths := EvenWidths(|t.headers|, width, f);
      && RowSlicesBack(TableRow(t, r), widths, f, cell, l)
      && TableLinesOf(t, width, f)[j] == RowLines(TableRow(t, r), widths, f)[l]
  {
    var rows := [t.headers] + t.rows;
    forall i | 0 <= i < |rows|
      ensures |rows[i]| == |t.headers|
    {
      if i > 0 { assert rows[i] == t.rows[i - 1]; }
    }
    r, l := LineOfRow(rows, EvenWidths(|t.headers|, width, f), f, j);
    assert rows[r] == TableRow(t, r);
    RowSlices(TableRow(t, r), EvenWidths(|t.headers|, width, f), f, cell, l);
  }

  // ------------------------------------------------------------------ columns

  /** Only text can be composed side by side. */
  predicate OnlyText(es: seq<Element>) {
    forall i | 0 <= i < |es| :: es[i].Text?
  }

  predicate TextColumns(columns: seq<Column>) {
    forall i | 0 <= i < |columns| :: OnlyText(columns[i].elements)
  }

  function ColumnText(es: seq<Element>, width: int, f: Font): seq<string>
    requires OnlyText(es)
  {
    if es == [] then []
    else ColumnText(es[..|es| - 1], width, f) + TextLines(es[|es| - 1].content, width, f, 1)
  }

  /** One more element, the way the loop over a column meets it. */
  lemma NextElement(es: seq<Element>, i: nat, width: int, f: Font)
    requires i < |es| && OnlyText(es[..i])
    ensures OnlyText(es[..i + 1]) <==> es[i].Text?
    ensures es[i].Text? ==>
      ColumnText(es[..i + 1], width, f) == ColumnText(es[..i], width, f) + TextLines(es[i].content, width, f, 1)
  {
    var next := es[..i + 1];
    assert next[..i] == es[..i] && next[i] == es[i];
    forall k | 0 <= k < i ensures next[k].Text? { assert es[..i][k].Text?; }
  }

  lemma PrefixOnlyText(es: seq<Element>, i: nat)
    requires i <= |es| && !OnlyText(es[..i])
    ensures !OnlyText(es)
  {}

  method ColumnLines(es: seq<Element>, width: int, f: Font) returns (r: Option<seq<string>>)
    ensures r.Some? <==> OnlyText(es)
    ensures r.Some? ==> r.value == ColumnText(es, width, f)
  {
    var lines: seq<string> := [];
    var i := 0;
    while i < |es|
      invariant 0 <= i <= |es| && OnlyText(es[..i])
      invariant lines == ColumnText(es[..i], width, f)
    {
      NextElement(es, i, width, f);
      if !es[i].Text? {
        PrefixOnlyText(es, i + 1);
        return None;
      }
      var wrapped := WrapText(es[i].content, width, f, 1);
      lines := lines + wrapped;
      i := i + 1;
    }
    assert es[..i] == es;
    r := Some(lines);
  }

  function ColumnCells(columns: seq<Column>, widths: seq<int>, f: Font): (cells: seq<seq<string>>)
    requires |columns| <= |widths| && TextColumns(columns)
    ensures |cells| == |columns|
  {
    if columns == [] then []
    else
      ColumnCells(columns[..|columns| - 1], widths, f)
      + [ColumnText(columns[|columns| - 1].elements, widths[|columns| - 1], f)]
  }

  lemma NextColumn(columns: seq<Column>, i: nat, widths: seq<int>, f: Font)
    requires i < |columns| <= |widths| && TextColumns(columns[..i])
    ensures TextColumns(columns[..i + 1]) <==> OnlyText(columns[i].elements)
    ensures OnlyText(columns[i].elements) ==>
      ColumnCells(columns[..i + 1], widths, f)
      == ColumnCells(columns[..i], widths, f) + [ColumnText(columns[i].elements, widths[i], f)]
  {
    var next := columns[..i + 1];
    assert next[..i] == columns[..i] && next[i] == columns[i];
    forall k | 0 <= k < i ensures OnlyText(next[k].elements) { assert OnlyText(columns[..i][k].elements); }
  }

  lemma PrefixTextColumns(columns: seq<Column>, i: nat)
    requires i <= |columns| && !TextColumns(columns[..i])
    ensures !TextColumns(columns)
  {
    var k :| 0 <= k < i && !OnlyText(columns[..i][k].elements);
    assert columns[..i][k] == columns[k];
  }

  function Weights(columns: seq<Column>): (ws: seq<int>)
    ensures |ws| == |columns|
  {
    seq(|columns|, i requires 0 <= i < |columns| => columns[i].weight)
  }

  method WrapColumns(columns: seq<Column>, widths: seq<int>, f: Font) returns (r: Option<seq<seq<string>>>)
    requires |columns| <= |widths|
    ensures r.Some? <==> TextColumns(columns)
    ensures r.Some? ==> r.value == ColumnCells(columns, widths, f)
  {
    var cells: seq<seq<string>> := [];
    var i := 0;
    while i < |columns|
      invariant 0 <= i <= |columns| && TextColumns(columns[..i])
      invariant cells == ColumnCells(columns[..i], widths, f)
    {
      NextColumn(columns, i, widths, f);
      var lines := ColumnLines(columns[i].elements, widths[i], f);
      if lines == None {
        PrefixTextColumns(columns, i + 1);
        return None;
      }
      cells := cells + [lines.value];
      i := i + 1;
    }
    assert columns[..i] == columns;
    r := Some(cells);
  }

  function ComposedRow(cells: seq<seq<string>>, widths: seq<int>, f: Font): (lines: seq<string>)
    requires |cells| <= |widths| && f.advance(' ') > 0
    ensures |lines| == Tallest(cells)
    ensures forall j | 0 <= j < |lines| :: lines[j] == RowText(cells, widths, f, j)
  {
    seq(Tallest(cells), j requires 0 <= j => RowText(cells, widths, f, j))
  }

  function ColumnsLinesOf(columns: seq<Column>, width: int, f: Font): seq<string>
    requires columns != [] && f.advance(' ') > 0 && TextColumns(columns)
  {
    var widths := WidthsOf(Weights(columns), width, f);
    ComposedRow(ColumnCells(columns, widths, f), widths, f)
  }

  /** None when a column holds anything but text. */
  method ColumnsLines(columns: seq<Column>, width: int, f: Font) returns (r: Option<seq<string>>)
    requires columns != [] && f.advance(' ') > 0
    ensures r.Some? <==> TextColumns(columns)
    ensures r.Some? ==> r.value == ColumnsLinesOf(columns, width, f)
  {
    var widths := ColumnWidths(Weights(columns), width, f);
    var cells := WrapColumns(columns, widths, f);
    if cells == None {
      return None;
    }
    var composed := ComposeRow(cells.value, widths, f);
    r := Some(composed);
  }

  /** The words of column `k` fit its width. */
  ghost predicate ColumnFits(columns: seq<Column>, widths: seq<int>, f: Font, k: nat)
    requires k < |columns| <= |widths| && OnlyText(columns[k].elements)
  {
    && widths[k] >= 1
    && forall i | 0 <= i < |columns[k].elements| :: WordsFit(columns[k].elements[i].content, widths[k], f)
  }

  lemma {:induction false} ColumnTextFits(es: seq<Element>, width: int, f: Font)
    requires OnlyText(es) && width > 0 && forall i | 0 <= i < |es| :: WordsFit(es[i].content, width, f)
    ensures forall j | 0 <= j < |ColumnText(es, width, f)| :: f.Measure(ColumnText(es, width, f)[j]) <= width
    decreases |es|
  {
    if es != [] {
      ColumnTextFits(es[..|es| - 1], width, f);
      WrappedTextFits(es[|es| - 1].content, width, f);
    }
  }

  lemma {:induction false} ColumnCellsAt(columns: seq<Column>, widths: seq<int>, f: Font, k: nat)
    requires k < |columns| <= |widths| && TextColumns(columns)
    ensures ColumnCells(columns, widths, f)[k] == ColumnText(columns[k].elements, widths[k], f)
    decreases |columns|
  {
    if k < |columns| - 1 { ColumnCellsAt(columns[..|columns| - 1], widths, f, k); }
  }

  ghost predicate AllColumnsFit(columns: seq<Column>, widths: seq<int>, f: Font) {
    && |columns| <= |widths| && TextColumns(columns)
    && forall k: nat | k < |columns| :: ColumnFits(columns, widths, f, k)
  }

  lemma ColumnCellsFit(columns: seq<Column>, widths: seq<int>, f: Font)
    requires AllColumnsFit(columns, widths, f)
    ensures CellsFit(ColumnCells(columns, widths, f), widths, f)
  {
    forall k: nat, j: nat | k < |columns|
      ensures CellFits(ColumnCells(columns, widths, f), widths, f, k, j)
    {
      assert ColumnFits(columns, widths, f, k);
      ColumnCellsAt(columns, widths, f, k);
      ColumnTextFits(columns[k].elements, widths[k], f);
    }
  }

  /** Line `j`, cut where column `i` is, is line `j` of the column's own text and its padding. */
  ghost predicate ColumnSlicesBack(columns: seq<Column>, widths: seq<int>, f: Font, cell: nat, j: nat, i: nat)
    requires cell > 0 && f.advance(' ') > 0 && i < |columns| <= |widths| && TextColumns(columns)
    requires j < |ComposedRow(ColumnCells(columns, widths, f), widths, f)|
  {
    var text := CellAt(ColumnText(columns[i].elements, widths[i], f), j);
    var runes := SpacesIn(widths[i], cell);
    && |text| <= runes
    && Slice(ComposedRow(ColumnCells(columns, widths, f), widths, f)[j], Offset(widths, cell, i), runes)
       == if i == |columns| - 1 then text else text + Spaces(runes - |text|)
  }

  lemma ComposedLineSlices(columns: seq<Column>, widths: seq<int>, f: Font, cell: nat, j: nat, i: nat)
    requires f.Fixed(cell) && i < |columns| == |widths| && AllColumnsFit(columns, widths, f)
    requires j < |ComposedRow(ColumnCells(columns, widths, f), widths, f)|
    ensures ColumnSlicesBack(columns, widths, f, cell, j, i)
  {
    ColumnCellsFit(columns, widths, f);
    ColumnCellsAt(columns, widths, f, i);
    SliceGivesCell(ColumnCells(columns, widths, f), widths, f, cell, j, i);
  }

  /**
    Weighted columns stay on a page that holds a dot for each, under any font with a
    positive space, when their words fit them.
   */
  lemma ColumnsFitPage(columns: seq<Column>, width: int, f: Font, j: nat)
    requires columns != [] && width > 0 && f.advance(' ') > 0 && PageHolds(|columns|, width, f.advance(' '))
    requires AllColumnsFit(columns, WidthsOf(Weights(columns), width, f), f)
    requires j < |ColumnsLinesOf(columns, width, f)|
    ensures f.Measure(ColumnsLinesOf(columns, width, f)[j]) <= width
  {
    var widths := WidthsOf(Weights(columns), width, f);
    WidthsFillPageIff(Weights(columns), width, f);
    ColumnCellsFit(columns, widths, f);
    LineFits(ColumnCells(columns, widths, f), widths, f, j);
  }

  /** Under a fixed advance, cutting a line at column `i`'s offset gives that column's own line back. */
  lemma ColumnsSliceBack(columns: seq<Column>, width: int, f: Font, cell: nat, j: nat, i: nat)
    requires columns != [] && width > 0 && f.Fixed(cell) && i < |columns|
    requires AllColumnsFit(columns, WidthsOf(Weights(columns), width, f), f)
    requires j < |ColumnsLinesOf(columns, width, f)|
    ensures ColumnSlicesBack(columns, WidthsOf(Weights(columns), width, f), f, cell, j, i)
  {
    ComposedLineSlices(columns, WidthsOf(Weights(columns), width, f), f, cell, j, i);
  }

  // ------------------------------------------------------------------ lists

  const LIST_INDENT_SPACES: nat := 2

  function Decimal(n: nat): string {
    if n < 10 then ["0123456789"[n]] else Decimal(n / 10) + ["0123456789"[n % 10]]
  }

  /** What a run of decimal digits stands for. */
  function Value(digits: string): nat
    requires forall i | 0 <= i < |digits| :: '0' <= digits[i] <= '9'
  {
    if digits == "" then 0 else 10 * Value(digits[..|digits| - 1]) + (digits[|digits| - 1] - '0') as nat
  }

  /** A numbered item's marker reads back as its number. */
  lemma {:induction false} DecimalReads(n: nat)
    ensures forall i | 0 <= i < |Decimal(n)| :: '0' <= Decimal(n)[i] <= '9'
    ensures Decimal(n) != "" && Value(Decimal(n)) == n
    ensures n >= 10 ==> Decimal(n)[0] != '0'
    decreases n
  {
    if n >= 10 {
      DecimalReads(n / 10);
      assert Decimal(n)[..|Decimal(n)| - 1] == Decimal(n / 10);
      if n / 10 < 10 { assert Decimal(n / 10) == ["0123456789"[n / 10]]; }
    } else {
      assert Decimal(n)[..0] == "";
    }
  }

  function ListMarker(kind: string, number: nat, item: ListItem): string {
    if kind == "number" then Decimal(number) + ". "
    else if kind == "checkbox" then (if item.checked then "[x] " else "[ ] ")
    else "- "
  }

  function ListPrefix(kind: string, number: nat, item: ListItem): string
    requires item.indent >= 0
  {
    Spaces(item.indent * LIST_INDENT_SPACES) + ListMarker(kind, number, item)
  }

  datatype Marker = Bullet | Number(n: nat) | Box(checked: bool) | Unknown

  /** What a reader takes a marker for. */
  function ReadMarker(s: string): Marker {
    if s == "- " then Bullet
    else if s == "[x] " then Box(true)
    else if s == "[ ] " then Box(false)
    else if |s| >= 2 && s[|s| - 2..] == ". " && (forall i | 0 <= i < |s| - 2 :: '0' <= s[i] <= '9') then Number(Value(s[..|s| - 2]))
    else Unknown
  }

  /** An item is indented by two spaces a level, and its marker reads as its kind, its number or its box. */
  lemma MarkerReads(kind: string, number: nat, item: ListItem)
    requires item.indent >= 0
    ensures var prefix := ListPrefix(kind, number, item);
      && 2 * item.indent < |prefix| && prefix[..2 * item.indent] == Spaces(2 * item.indent)
      && ReadMarker(prefix[2 * item.indent..])
         == if kind == "number" then Number(number) else if kind == "checkbox" then Box(item.checked) else Bullet
  {
    var marker := ListMarker(kind, number, item);
    assert ListPrefix(kind, number, item)[2 * item.indent..] == marker;
    if kind == "number" {
      DecimalReads(number);
      assert marker[..|marker| - 2] == Decimal(number) && marker[|marker| - 2..] == ". ";
    }
  }

  function ListContentWidth(prefix: string, width: int, f: Font): int {
    if width <= 0 then 0
    else if width - f.Measure(prefix) < 1 then 1
    else width - f.Measure(prefix)
  }

  function HangIndent(prefix: string, f: Font): string
    requires f.advance(' ') > 0
  {
    FittingSpaces(f.Measure(prefix), f, 1)
  }

  /** The first line carries the marker, the others hang under the content. */
  function Hung(lines: seq<string>, prefix: string, hang: string): (r: seq<string>)
    ensures |r| == |lines|
    ensures forall j | 0 <= j < |lines| :: r[j] == (if j == 0 then prefix else hang) + lines[j]
  {
    seq(|lines|, j requires 0 <= j < |lines| => (if j == 0 then prefix else hang) + lines[j])
  }

  function ItemLines(kind: string, number: nat, item: ListItem, width: int, f: Font): seq<string>
    requires item.indent >= 0 && f.advance(' ') > 0
  {
    var prefix := ListPrefix(kind, number, item);
    Hung(TextLines(item.content, ListContentWidth(prefix, width, f), f, 1), prefix, HangIndent(prefix, f))
  }

  function AllItemLines(kind: string, items: seq<ListItem>, width: int, f: Font): seq<string>
    requires f.advance(' ') > 0 && forall i | 0 <= i < |items| :: items[i].indent >= 0
  {
    if items == [] then []
    else AllItemLines(kind, items[..|items| - 1], width, f) + ItemLines(kind, |items|, items[|items| - 1], width, f)
  }

  method HangLines(wrapped: seq<string>, prefix: string, hang: string) returns (hung: seq<string>)
    ensures hung == Hung(wrapped, prefix, hang)
  {
    hung := [];
    for j := 0 to |wrapped|
      invariant |hung| == j
      invariant forall k | 0 <= k < j :: hung[k] == (if k == 0 then prefix else hang) + wrapped[k]
    {
      if j == 0 {
        hung := hung + [prefix + wrapped[j]];
      } else {
        hung := hung + [hang + wrapped[j]];
      }
    }
  }

  method ListLines(kind: string, items: seq<ListItem>, width: int, f: Font) returns (lines: seq<string>)
    requires f.advance(' ') > 0 && forall i | 0 <= i < |items| :: items[i].indent >= 0
    ensures lines == AllItemLines(kind, items, width, f)
  {
    lines := [];
    for i := 0 to |items|
      invariant lines == AllItemLines(kind, items[..i], width, f)
    {
      assert items[..i + 1][..i] == items[..i];
      var prefix := ListPrefix(kind, i + 1, items[i]);
      var contentWidth := 0;
      if width > 0 {
        contentWidth := width - f.Measure(prefix);
        if contentWidth < 1 {
          contentWidth := 1;
        }
      }
      var hang := FitSpaces(f.Measure(prefix), f, 1);
      var wrapped := WrapText(items[i].content, contentWidth, f, 1);
      var hung := HangLines(wrapped, prefix, hang);
      lines := lines + hung;
    }
    assert items[..|items|] == items;
  }

  /** Under a fixed advance a continuation starts exactly under the content, however wide the marker. */
  lemma HangAlignsContent(prefix: string, f: Font, cell: nat)
    requires f.Fixed(cell)
    ensures HangIndent(prefix, f) == Spaces(|prefix|)
  {
    f.FixedMeasure(cell, prefix);
    FilledRunes(|prefix|, |prefix| * cell, cell);
  }

  // ------------------------------------------------------------------ reading a list back

  /** The lines without what their first, and every other, line begins with. */
  function Bared(lines: seq<string>, prefix: nat, hang: nat): (r: seq<string>)
    ensures |r| == |lines|
  {
    seq(|lines|, j requires 0 <= j < |lines| =>
      var lead := if j == 0 then prefix else hang;
      if lead <= |lines[j]| then lines[j][lead..] else "")
  }

  lemma HungBares(lines: seq<string>, prefix: string, hang: string)
    ensures Bared(Hung(lines, prefix, hang), |prefix|, |hang|) == lines
  {
    var hung := Hung(lines, prefix, hang);
    forall j | 0 <= j < |lines|
      ensures Bared(hung, |prefix|, |hang|)[j] == lines[j]
    {
      var lead := if j == 0 then prefix else hang;
      assert hung[j] == lead + lines[j] && (lead + lines[j])[|lead|..] == lines[j];
    }
  }

  predicate Indented(items: seq<ListItem>) {
    forall i | 0 <= i < |items| :: items[i].indent >= 0
  }

  /** The line at which item `i` begins. */
  function ListStart(kind: string, items: seq<ListItem>, width: int, f: Font, i: nat): nat
    requires f.advance(' ') > 0 && Indented(items) && i <= |items|
  {
    |AllItemLines(kind, items[..i], width, f)|
  }

  lemma {:induction false} ItemsBefore(kind: string, items: seq<ListItem>, width: int, f: Font, i: nat)
    requires f.advance(' ') > 0 && Indented(items) && i <= |items|
    ensures AllItemLines(kind, items[..i], width, f) <= AllItemLines(kind, items, width, f)
    decreases |items|
  {
    if i == |items| {
      assert items[..i] == items;
    } else {
      var init := items[..|items| - 1];
      ItemsBefore(kind, init, width, f, i);
      assert init[..i] == items[..i];
    }
  }

  /** The lines of item `i`. */
  function ListBlock(kind: string, items: seq<ListItem>, width: int, f: Font, i: nat): (r: Option<seq<string>>)
    requires f.advance(' ') > 0 && Indented(items) && i < |items|
  {
    var from, to := ListStart(kind, items, width, f, i), ListStart(kind, items, width, f, i + 1);
    if from <= to <= |AllItemLines(kind, items, width, f)|
    then Some(AllItemLines(kind, items, width, f)[from..to]) else None
  }

  lemma BlockIsItem(kind: string, items: seq<ListItem>, width: int, f: Font, i: nat)
    requires f.advance(' ') > 0 && Indented(items) && i < |items|
    ensures ListBlock(kind, items, width, f, i) == Some(ItemLines(kind, i + 1, items[i], width, f))
  {
    ItemsBefore(kind, items, width, f, i + 1);
    NextItem(kind, items, width, f, i);
    MiddleOf(AllItemLines(kind, items, width, f), AllItemLines(kind, items[..i], width, f),
             ItemLines(kind, i + 1, items[i], width, f));
  }

  lemma NextItem(kind: string, items: seq<ListItem>, width: int, f: Font, i: nat)
    requires f.advance(' ') > 0 && Indented(items) && i < |items|
    ensures AllItemLines(kind, items[..i + 1], width, f)
         == AllItemLines(kind, items[..i], width, f) + ItemLines(kind, i + 1, items[i], width, f)
  {
    assert items[..i + 1][..i] == items[..i];
  }

  lemma MiddleOf<T>(all: seq<T>, a: seq<T>, b: seq<T>)
    requires a + b <= all
    ensures |a| <= |a + b| <= |all| && all[|a|..|a + b|] == b
  {
    assert all[..|a + b|] == a + b;
  }

  /** Without what `prefix` and `hang` put before them, the lines hold the words of `content` in order. */
  predicate HoldsWords(lines: seq<string>, prefix: string, hang: string, content: string) {
    && lines != [] && prefix <= lines[0]
    && FieldsOfAll(Bared(lines, |prefix|, |hang|)) == Fields(content)
  }

  lemma ItemReadsBack(kind: string, number: nat, item: ListItem, width: int, f: Font)
    requires f.advance(' ') > 0 && item.indent >= 0
    ensures var prefix := ListPrefix(kind, number, item);
      HoldsWords(ItemLines(kind, number, item, width, f), prefix, HangIndent(prefix, f), item.content)
  {
    var prefix := ListPrefix(kind, number, item);
    var room := ListContentWidth(prefix, width, f);
    var lines := TextLines(item.content, room, f, 1);
    HungBares(lines, prefix, HangIndent(prefix, f));
    TextKeepsWords(item.content, room, f, 1);
    TextHasLine(item.content, room, f);
  }

  /** The items' blocks follow each other from the first line to the last. */
  lemma ListStartsAndEnds(kind: string, items: seq<ListItem>, width: int, f: Font)
    requires f.advance(' ') > 0 && Indented(items)
    ensures ListStart(kind, items, width, f, 0) == 0
    ensures ListStart(kind, items, width, f, |items|) == |AllItemLines(kind, items, width, f)|
  {
    assert items[..|items|] == items;
  }

  /**
    Item `i`'s block begins with its marker, and without the marker and the hanging
    indent it holds the item's words in order.
   */
  lemma ListReadsBack(kind: string, items: seq<ListItem>, width: int, f: Font, i: nat)
    requires f.advance(' ') > 0 && Indented(items) && i < |items|
    ensures var prefix := ListPrefix(kind, i + 1, items[i]);
      var block := ListBlock(kind, items, width, f, i);
      block.Some? && HoldsWords(block.value, prefix, HangIndent(prefix, f), items[i].content)
  {
    BlockIsItem(kind, items, width, f, i);
    ItemReadsBack(kind, i + 1, items[i], width, f);
  }

  lemma TextHasLine(content: string, width: int, f: Font)
    ensures TextLines(content, width, f, 1) != []
  {
    if width > 0 {
      var m := Measurer(f, 1, width);
      var p := Paragraphs(content)[0];
      if Fields(p) != [] { WrapKeepsWords(m, p); }
      assert ParagraphLines(m, p) != [];
    }
  }

  // ------------------------------------------------------------------ a list on the page

  /** The marker of item `i` leaves a dot, and the item's words fit what it leaves. */
  ghost predicate ItemFits(kind: string, items: seq<ListItem>, width: int, f: Font, i: nat)
    requires i < |items| && items[i].indent >= 0
  {
    var prefix := ListPrefix(kind, i + 1, items[i]);
    f.Measure(prefix) < width && WordsFit(items[i].content, width - f.Measure(prefix), f)
  }

  lemma ItemLinesFit(kind: string, number: nat, item: ListItem, width: int, f: Font, l: nat)
    requires f.advance(' ') > 0 && item.indent >= 0 && f.Measure(ListPrefix(kind, number, item)) < width
    requires WordsFit(item.content, width - f.Measure(ListPrefix(kind, number, item)), f)
    requires l < |ItemLines(kind, number, item, width, f)|
    ensures f.Measure(ItemLines(kind, number, item, width, f)[l]) <= width
  {
    var prefix := ListPrefix(kind, number, item);
    var room := width - f.Measure(prefix);
    WrappedTextFits(item.content, room, f);
    FittingSpacesFit(f.Measure(prefix), f);
    assert f.Measure(HangIndent(prefix, f)) <= f.Measure(prefix);
    var line := TextLines(item.content, room, f, 1)[l];
    f.MeasureConcat(if l == 0 then prefix else HangIndent(prefix, f), line);
  }

  /** No line of a list measures more than the page when the markers leave a dot and the words fit beside them. */
  lemma {:induction false} ListFitsPage(kind: string, items: seq<ListItem>, width: int, f: Font, j: nat)
    requires f.advance(' ') > 0 && Indented(items) && j < |AllItemLines(kind, items, width, f)|
    requires forall i: nat | i < |items| :: ItemFits(kind, items, width, f, i)
    ensures f.Measure(AllItemLines(kind, items, width, f)[j]) <= width
    decreases |items|
  {
    var n := |items| - 1;
    var before := AllItemLines(kind, items[..n], width, f);
    if j < |before| {
      forall i: nat | i < n
        ensures ItemFits(kind, items[..n], width, f, i)
      {
        assert ItemFits(kind, items, width, f, i);
      }
      ListFitsPage(kind, items[..n], width, f, j);
    } else {
      assert ItemFits(kind, items, width, f, n);
      ItemLinesFit(kind, n + 1, items[n], width, f, j - |before|);
    }
  }
}
