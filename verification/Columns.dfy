/**
  Side-by-side layout: dividing the printable width among columns, padding cells
  with spaces, and composing rows; plus the space padding of aligned text and lists.
 */
module ColumnLayout {
  import opened Fonts
  import opened Wrap

  function ResolveSize(size: int): (n: nat)
    ensures n >= 1 && (n > 1 ==> n == size) && (size > 1 ==> n == size)
  {
    if size < 1 then 1 else size
  }

  function Sum(xs: seq<int>): int {
    if xs == [] then 0 else Sum(xs[..|xs| - 1]) + xs[|xs| - 1]
  }

  // ------------------------------------------------------------------ widths

  /** What the columns share: the width without the gaps, but at least a dot each. */
  function Budget(columns: nat, width: int, gap: nat): int {
    var budget := width - (columns - 1) * gap;
    if budget < columns then columns else budget
  }

  function TotalWeight(weights: seq<int>): nat {
    if weights == [] then 0 else TotalWeight(weights[..|weights| - 1]) + ResolveSize(weights[|weights| - 1])
  }

  /** A proportional share, rounded down. */
  function Share(budget: nat, weight: int, total: nat): nat
    requires total > 0
  {
    budget * ResolveSize(weight) / total
  }

  function Shares(weights: seq<int>, budget: nat, total: nat): (shares: seq<int>)
    requires total > 0
    ensures |shares| == |weights|
  {
    if weights == [] then []
    else Shares(weights[..|weights| - 1], budget, total) + [Share(budget, weights[|weights| - 1], total)]
  }

  lemma {:induction false} SharesAt(weights: seq<int>, budget: nat, total: nat, i: nat)
    requires total > 0 && i < |weights|
    ensures Shares(weights, budget, total)[i] == Share(budget, weights[i], total)
    decreases |weights|
  {
    if i < |weights| - 1 { SharesAt(weights[..|weights| - 1], budget, total, i); }
  }

  lemma {:induction false} TotalAtLeast(weights: seq<int>)
    ensures TotalWeight(weights) >= |weights|
  {
    if weights != [] { TotalAtLeast(weights[..|weights| - 1]); }
  }

  lemma ShareStep(budget: nat, a: int, b: nat, w: int, total: nat, n: nat)
    requires total > 0 && a * total <= budget * b <= a * total + n * (total - 1)
    ensures var share := Share(budget, w, total);
      (a + share) * total <= budget * (b + ResolveSize(w)) <= (a + share) * total + (n + 1) * (total - 1)
  {
    var r := ResolveSize(w);
    var share := budget * r / total;
    assert share * total <= budget * r <= share * total + (total - 1);
    assert (a + share) * total == a * total + share * total;
    assert budget * (b + r) == budget * b + budget * r;
    assert (n + 1) * (total - 1) == n * (total - 1) + (total - 1);
  }

  /** Rounding down loses less than one dot per column. */
  lemma {:induction false} SharesLoseLittle(weights: seq<int>, budget: nat, total: nat)
    requires total > 0
    ensures Sum(Shares(weights, budget, total)) * total <= budget * TotalWeight(weights)
         <= Sum(Shares(weights, budget, total)) * total + |weights| * (total - 1)
    decreases |weights|
  {
    if weights != [] {
      var init := weights[..|weights| - 1];
      SharesLoseLittle(init, budget, total);
      var shares := Shares(weights, budget, total);
      assert shares[..|shares| - 1] == Shares(init, budget, total);
      ShareStep(budget, Sum(Shares(init, budget, total)), TotalWeight(init), weights[|weights| - 1], total, |init|);
    }
  }

  lemma LostBound(budget: int, sum: int, total: nat, n: nat)
    requires total > 0 && n > 0 && sum * total <= budget * total <= sum * total + n * (total - 1)
    ensures 0 <= budget - sum <= n - 1
  {
    var lost := budget - sum;
    assert lost * total == budget * total - sum * total;
    assert n * (total - 1) == n * total - n;
    if lost >= n { Scale(n, lost, total); }
  }

  /** Over all columns the loss is at most a dot less than their number. */
  lemma RemainderBound(weights: seq<int>, budget: nat)
    requires weights != []
    ensures TotalWeight(weights) > 0
    ensures 0 <= budget - Sum(Shares(weights, budget, TotalWeight(weights))) <= |weights| - 1
  {
    TotalAtLeast(weights);
    var total := TotalWeight(weights);
    SharesLoseLittle(weights, budget, total);
    LostBound(budget, Sum(Shares(weights, budget, total)), total, |weights|);
  }

  lemma Scale(a: nat, b: nat, c: nat)
    requires a <= b
    ensures a * c <= b * c
  {}

  lemma SumAppend(xs: seq<int>, x: int)
    ensures Sum(xs + [x]) == Sum(xs) + x
  {
    assert (xs + [x])[..|xs|] == xs;
  }

  /** The shares, with what rounding left over given to the last column. */
  function WidthsOf(weights: seq<int>, width: int, f: Font): (widths: seq<int>)
    requires width > 0 ==> weights != []
    ensures |widths| == |weights|
  {
    if width <= 0 then seq(|weights|, _ => 0)
    else
      TotalAtLeast(weights);
      var budget := Budget(|weights|, width, f.advance(' '));
      WithRemainder(Shares(weights, budget, TotalWeight(weights)), budget)
  }

  function WithRemainder(shares: seq<int>, budget: nat): (widths: seq<int>)
    requires shares != []
    ensures |widths| == |shares|
  {
    shares[|shares| - 1 := shares[|shares| - 1] + (budget - Sum(shares))]
  }

  method ColumnWidths(weights: seq<int>, width: int, f: Font) returns (widths: seq<int>)
    requires width > 0 ==> weights != []
    ensures widths == WidthsOf(weights, width, f)
  {
    var n := |weights|;
    if width <= 0 {
      return seq(n, _ => 0);
    }
    SpaceMeasures(f);
    var gap := f.Measure(" ");
    var budget := width - (n - 1) * gap;
    if budget < n {
      budget := n;
    }
    var total := 0;
    for i := 0 to n
      invariant total == TotalWeight(weights[..i])
    {
      assert weights[..i + 1][..i] == weights[..i];
      total := total + ResolveSize(weights[i]);
    }
    assert weights[..n] == weights;
    TotalAtLeast(weights);
    widths := AssignShares(weights, budget, total);
  }

  /** The loop that assigns the shares and hands the last column what is left. */
  method AssignShares(weights: seq<int>, budget: nat, total: nat) returns (widths: seq<int>)
    requires weights != [] && total > 0
    ensures widths == WithRemainder(Shares(weights, budget, total), budget)
  {
    var given := 0;
    widths := [];
    for i := 0 to |weights|
      invariant widths == Shares(weights[..i], budget, total) && given == Sum(widths)
    {
      assert weights[..i + 1][..i] == weights[..i];
      var share := budget * ResolveSize(weights[i]) / total;
      SumAppend(widths, share);
      widths := widths + [share];
      given := given + share;
    }
    assert weights[..|weights|] == weights;
    widths := widths[|weights| - 1 := widths[|weights| - 1] + (budget - given)];
  }

  /**
    The column budgets for any weights: they use up the budget exactly, all but
    the last are their proportional share rounded down, and the last has its own
    plus what rounding left, which is less than the number of columns.
   */
  lemma WidthsAreProportional(weights: seq<int>, width: int, f: Font)
    requires width > 0 && weights != []
    ensures var widths := WidthsOf(weights, width, f);
      var budget := Budget(|weights|, width, f.advance(' '));
      var total, last := TotalWeight(weights), |weights| - 1;
      && total > 0 && Sum(widths) == budget
      && (forall i | 0 <= i < last :: widths[i] == Share(budget, weights[i], total))
      && 0 <= widths[last] - Share(budget, weights[last], total) <= last
  {
    var budget := Budget(|weights|, width, f.advance(' '));
    TotalAtLeast(weights);
    var total := TotalWeight(weights);
    var shares := Shares(weights, budget, total);
    forall k | 0 <= k < |weights|
      ensures shares[k] == Share(budget, weights[k], total)
    {
      SharesAt(weights, budget, total, k);
    }
    RemainderBound(weights, budget);
    SumLast(shares, budget - Sum(shares));
  }

  /** Whether the page leaves a dot for each column besides the gaps. */
  predicate PageHolds(columns: nat, width: int, gap: nat) {
    width - (columns - 1) * gap >= columns
  }

  /** Widths and gaps add up to the page exactly when it holds a dot for each column; else to more. */
  lemma WidthsFillPageIff(weights: seq<int>, width: int, f: Font)
    requires width > 0 && weights != []
    ensures var total := Sum(WidthsOf(weights, width, f)) + (|weights| - 1) * f.advance(' ');
      && (total == width <==> PageHolds(|weights|, width, f.advance(' ')))
      && (!PageHolds(|weights|, width, f.advance(' ')) ==> total > width)
  {
    WidthsAreProportional(weights, width, f);
  }

  lemma SumLast(xs: seq<int>, extra: int)
    requires xs != []
    ensures Sum(xs[|xs| - 1 := xs[|xs| - 1] + extra]) == Sum(xs) + extra
  {
    var ys := xs[|xs| - 1 := xs[|xs| - 1] + extra];
    assert ys[..|xs| - 1] == xs[..|xs| - 1];
  }

  lemma {:induction false} SumOfEqual(n: nat, base: int)
    ensures Sum(seq(n, _ => base)) == n * base
  {
    if n > 0 {
      assert seq(n, _ => base)[..n - 1] == seq(n - 1, _ => base);
      SumOfEqual(n - 1, base);
      assert n * base == (n - 1) * base + base;
    }
  }

  lemma QuotientPositive(a: nat, d: nat)
    requires a >= d > 0
    ensures a / d >= 1
  {}

  function EvenWidths(columns: nat, width: int, f: Font): (widths: seq<int>)
    requires columns > 0
    ensures |widths| == columns
  {
    var budget := Budget(columns, width, f.advance(' '));
    seq(columns, i => if i == columns - 1 then budget / columns + budget % columns else budget / columns)
  }

  method TableColumnWidths(columns: nat, width: int, f: Font) returns (widths: seq<int>)
    requires columns > 0
    ensures widths == EvenWidths(columns, width, f)
  {
    SpaceMeasures(f);
    var gap := f.Measure(" ");
    var budget := width - (columns - 1) * gap;
    if budget < columns {
      budget := columns;
    }
    var base := budget / columns;
    widths := [];
    for i := 0 to columns
      invariant widths == seq(i, _ => base)
    {
      widths := widths + [base];
    }
    widths := widths[columns - 1 := widths[columns - 1] + budget % columns];
  }

  lemma Division(a: nat, d: nat)
    requires d > 0
    ensures d * (a / d) + a % d == a
  {}

  lemma EvenWidthsAt(columns: nat, width: int, f: Font, i: nat)
    requires i < columns
    ensures var budget := Budget(columns, width, f.advance(' '));
      EvenWidths(columns, width, f)[i]
      == budget / columns + if i == columns - 1 then budget % columns else 0
  {}

  lemma EvenWidthsSum(columns: nat, width: int, f: Font)
    requires columns > 0
    ensures Sum(EvenWidths(columns, width, f)) == Budget(columns, width, f.advance(' '))
  {
    var budget := Budget(columns, width, f.advance(' '));
    var base, last := budget / columns, budget / columns + budget % columns;
    var front := seq(columns - 1, _ => base);
    assert EvenWidths(columns, width, f) == front + [last];
    SumOfEqual(columns - 1, base);
    SumAppend(front, last);
    LastTakesRest(budget, columns);
  }

  /** Even budgets use up the page, are at least a dot each, and differ only in the last. */
  lemma EvenWidthsFill(columns: nat, width: int, f: Font)
    requires columns > 0
    ensures var widths := EvenWidths(columns, width, f);
      var budget := Budget(columns, width, f.advance(' '));
      && Sum(widths) == budget
      && (forall i | 0 <= i < columns :: widths[i] >= 1)
      && (forall i | 0 <= i < columns - 1 :: widths[i] == budget / columns)
      && 0 <= widths[columns - 1] - budget / columns < columns
  {
    QuotientPositive(Budget(columns, width, f.advance(' ')), columns);
    EvenWidthsSum(columns, width, f);
    forall i: nat | i < columns
      ensures EvenWidths(columns, width, f)[i] >= 1
    {
      EvenWidthsAt(columns, width, f, i);
    }
  }

  /** The same for a table's even widths. */
  lemma EvenWidthsFillPageIff(columns: nat, width: int, f: Font)
    requires columns > 0
    ensures var total := Sum(EvenWidths(columns, width, f)) + (columns - 1) * f.advance(' ');
      && (total == width <==> PageHolds(columns, width, f.advance(' ')))
      && (!PageHolds(columns, width, f.advance(' ')) ==> total > width)
  {
    EvenWidthsFill(columns, width, f);
  }

  /** Two columns on a page of 10 dots with a space of 12: both divisions add up to 14. */
  lemma NarrowPageOverflows(f: Font)
    requires f.advance(' ') == 12
    ensures Sum(WidthsOf([1, 1], 10, f)) + 12 == 14 && Sum(EvenWidths(2, 10, f)) + 12 == 14
  {
    WidthsAreProportional([1, 1], 10, f);
    EvenWidthsFill(2, 10, f);
  }

  lemma LastTakesRest(budget: nat, columns: nat)
    requires columns > 0
    ensures (columns - 1) * (budget / columns) + (budget / columns + budget % columns) == budget
  {
    var base := budget / columns;
    Division(budget, columns);
    assert (columns - 1) * base + base == columns * base;
  }

  // ------------------------------------------------------------------ space padding

  function Spaces(n: nat): (s: string)
    ensures |s| == n && forall i | 0 <= i < n :: s[i] == ' '
  {
    if n == 0 then "" else Spaces(n - 1) + " "
  }

  /** How many spaces fit in `room` dots when each takes `space`. */
  function SpacesIn(room: int, space: nat): nat
    requires space > 0
    decreases if room < 0 then 0 else room
  {
    if room < space then 0 else 1 + SpacesIn(room - space, space)
  }

  /** Maximal: the spaces fit, one more would not. */
  lemma {:induction false} SpacesInMaximal(room: int, space: nat)
    requires space > 0 && room >= 0
    ensures SpacesIn(room, space) * space <= room < SpacesIn(room, space) * space + space
    decreases room
  {
    if room >= space {
      SpacesInMaximal(room - space, space);
      assert (1 + SpacesIn(room - space, space)) * space == space + SpacesIn(room - space, space) * space;
    }
  }

  lemma SpaceMeasures(f: Font)
    ensures f.Measure(" ") == f.advance(' ')
  {
    assert f.Measure("") == 0;
  }

  lemma OneMore(f: Font, s: string)
    ensures f.Measure(s + " ") == f.Measure(s) + f.advance(' ')
  {
    f.MeasureConcat(s, " ");
    SpaceMeasures(f);
  }

  /** Right-pads `s` with as many spaces as fit; a wider `s` is unchanged. */
  function Padded(s: string, width: int, f: Font): string
    requires f.advance(' ') > 0
  {
    s + Spaces(SpacesIn(width - f.Measure(s), f.advance(' ')))
  }

  /** `n` spaces have been added, and what still fits completes the padding. */
  ghost predicate PaddedBy(s: string, width: int, f: Font, r: string, n: nat)
    requires f.advance(' ') > 0
  {
    && r == s + Spaces(n)
    && SpacesIn(width - f.Measure(s), f.advance(' ')) == n + SpacesIn(width - f.Measure(r), f.advance(' '))
  }

  lemma PadStep(s: string, width: int, f: Font, r: string, n: nat)
    requires f.advance(' ') > 0 && PaddedBy(s, width, f, r, n)
    ensures f.Measure(r + " ") <= width ==> PaddedBy(s, width, f, r + " ", n + 1) && f.Measure(r + " ") > f.Measure(r)
    ensures f.Measure(r + " ") > width ==> r == Padded(s, width, f)
  {
    OneMore(f, r);
    assert s + Spaces(n) + " " == s + Spaces(n + 1);
  }

  method PadToWidth(s: string, width: int, f: Font) returns (r: string)
    requires f.advance(' ') > 0
    ensures r == Padded(s, width, f)
  {
    r := s;
    ghost var n: nat := 0;
    assert s + Spaces(0) == s;
    PadStep(s, width, f, r, n);
    while f.Measure(r + " ") <= width
      invariant PaddedBy(s, width, f, r, n)
      decreases width - f.Measure(r)
    {
      PadStep(s, width, f, r, n);
      r := r + " ";
      n := n + 1;
    }
    PadStep(s, width, f, r, n);
  }

  /** Under a fixed advance, text and padding together fill the width with a fixed number of runes. */
  lemma {:induction false} FilledRunes(length: nat, width: int, cell: nat)
    requires cell > 0 && length * cell <= width
    ensures length + SpacesIn(width - length * cell, cell) == SpacesIn(width, cell)
    decreases length
  {
    if length > 0 {
      assert length * cell == (length - 1) * cell + cell;
      FilledRunes(length - 1, width, cell);
    }
  }

  lemma PaddedLength(s: string, width: int, f: Font, cell: nat)
    requires f.Fixed(cell) && |s| * cell <= width
    ensures |Padded(s, width, f)| == SpacesIn(width, cell)
    ensures Padded(s, width, f) == s + Spaces(SpacesIn(width, cell) - |s|)
  {
    f.FixedMeasure(cell, s);
    FilledRunes(|s|, width, cell);
  }

  // ------------------------------------------------------------------ composing rows

  function CellAt(column: seq<string>, j: nat): string {
    if j < |column| then column[j] else ""
  }

  /** Column `i`'s part of line `j`: padded and followed by the gap unless it is last. */
  function Piece(cells: seq<seq<string>>, widths: seq<int>, f: Font, j: nat, i: nat): string
    requires i < |cells| <= |widths| && f.advance(' ') > 0
  {
    if i == |cells| - 1 then CellAt(cells[i], j)
    else Padded(CellAt(cells[i], j), widths[i], f) + " "
  }

  function Pieces(cells: seq<seq<string>>, widths: seq<int>, f: Font, j: nat): (pieces: seq<string>)
    requires |cells| <= |widths| && f.advance(' ') > 0
    ensures |pieces| == |cells|
    ensures forall i | 0 <= i < |cells| :: pieces[i] == Piece(cells, widths, f, j, i)
  {
    seq(|cells|, i requires 0 <= i < |cells| => Piece(cells, widths, f, j, i))
  }

  function Concat(pieces: seq<string>): string {
    if pieces == [] then "" else Concat(pieces[..|pieces| - 1]) + pieces[|pieces| - 1]
  }

  /** Line `j`: every column's part, side by side. */
  function RowText(cells: seq<seq<string>>, widths: seq<int>, f: Font, j: nat): string
    requires |cells| <= |widths| && f.advance(' ') > 0
  {
    Concat(Pieces(cells, widths, f, j))
  }

  function Tallest(cells: seq<seq<string>>): nat {
    if cells == [] then 0
    else
      var rest := Tallest(cells[..|cells| - 1]);
      if |cells[|cells| - 1]| > rest then |cells[|cells| - 1]| else rest
  }

  method TallestOf(cells: seq<seq<string>>) returns (height: nat)
    ensures height == Tallest(cells)
  {
    height := 0;
    for i := 0 to |cells|
      invariant height == Tallest(cells[..i])
    {
      assert cells[..i + 1][..i] == cells[..i];
      if |cells[i]| > height {
        height := |cells[i]|;
      }
    }
    assert cells[..|cells|] == cells;
  }

  /** Every line has its first `i` columns. */
  ghost predicate ComposedTo(cells: seq<seq<string>>, widths: seq<int>, f: Font, lines: seq<string>, i: nat, from: nat, to: nat)
    requires i <= |cells| <= |widths| && f.advance(' ') > 0 && to <= |lines|
  {
    forall j | from <= j < to :: lines[j] == Concat(Pieces(cells, widths, f, j)[..i])
  }

  lemma ColumnAdds(cells: seq<seq<string>>, widths: seq<int>, f: Font, j: nat, i: nat)
    requires i < |cells| <= |widths| && f.advance(' ') > 0
    ensures Concat(Pieces(cells, widths, f, j)[..i + 1])
         == Concat(Pieces(cells, widths, f, j)[..i]) + Piece(cells, widths, f, j, i)
  {
    var pieces := Pieces(cells, widths, f, j);
    assert pieces[..i + 1][..i] == pieces[..i];
  }

  method AddColumn(cells: seq<seq<string>>, widths: seq<int>, f: Font, lines: seq<string>, i: nat)
    returns (longer: seq<string>)
    requires i < |cells| <= |widths| && f.advance(' ') > 0
    requires ComposedTo(cells, widths, f, lines, i, 0, |lines|)
    ensures |longer| == |lines| && ComposedTo(cells, widths, f, longer, i + 1, 0, |lines|)
  {
    longer := lines;
    for j := 0 to |lines|
      invariant |longer| == |lines|
      invariant ComposedTo(cells, widths, f, longer, i + 1, 0, j)
      invariant ComposedTo(cells, widths, f, longer, i, j, |lines|)
    {
      var cell := CellAt(cells[i], j);
      if i != |cells| - 1 {
        var padded := PadToWidth(cell, widths[i], f);
        cell := padded + " ";
      }
      ColumnAdds(cells, widths, f, j, i);
      longer := longer[j := longer[j] + cell];
    }
  }

  method ComposeRow(cells: seq<seq<string>>, widths: seq<int>, f: Font) returns (lines: seq<string>)
    requires |cells| <= |widths| && f.advance(' ') > 0
    ensures |lines| == Tallest(cells)
    ensures forall j | 0 <= j < |lines| :: lines[j] == RowText(cells, widths, f, j)
  {
    var height := TallestOf(cells);
    lines := seq(height, _ => "");
    for i := 0 to |cells|
      invariant |lines| == height && ComposedTo(cells, widths, f, lines, i, 0, height)
    {
      lines := AddColumn(cells, widths, f, lines, i);
    }
    forall j | 0 <= j < height
      ensures lines[j] == RowText(cells, widths, f, j)
    {
      var pieces := Pieces(cells, widths, f, j);
      assert pieces[..|cells|] == pieces;
    }
  }

  function WrapCells(row: seq<string>, widths: seq<int>, f: Font): (cells: seq<seq<string>>)
    requires |row| <= |widths|
    ensures |cells| == |row|
  {
    if row == [] then []
    else WrapCells(row[..|row| - 1], widths, f) + [TextLines(row[|row| - 1], widths[|row| - 1], f, 1)]
  }

  method TableRowLines(row: seq<string>, widths: seq<int>, f: Font) returns (lines: seq<string>)
    requires |row| <= |widths| && f.advance(' ') > 0
    ensures lines == RowLines(row, widths, f)
  {
    var cells := [];
    for i := 0 to |row|
      invariant cells == WrapCells(row[..i], widths, f)
    {
      assert row[..i + 1][..i] == row[..i];
      var wrapped := WrapText(row[i], widths[i], f, 1);
      cells := cells + [wrapped];
    }
    assert row[..|row|] == row;
    lines := ComposeRow(cells, widths, f);
  }

  function RowLines(row: seq<string>, widths: seq<int>, f: Font): seq<string>
    requires |row| <= |widths| && f.advance(' ') > 0
  {
    var cells := WrapCells(row, widths, f);
    seq(Tallest(cells), j requires 0 <= j => RowText(cells, widths, f, j))
  }

  // ------------------------------------------------------------------ the composed lines

  /** The rune offset at which column `i` starts: each earlier column and its gap. */
  function Offset(widths: seq<int>, cell: nat, i: nat): int
    requires i <= |widths| && cell > 0
  {
    if i == 0 then 0 else Offset(widths, cell, i - 1) + SpacesIn(widths[i - 1], cell) + 1
  }

  /** Line `j` of column `i` fits it. */
  ghost predicate CellFits(cells: seq<seq<string>>, widths: seq<int>, f: Font, i: nat, j: nat)
    requires i < |cells| <= |widths|
  {
    f.Measure(CellAt(cells[i], j)) <= widths[i]
  }

  /** Every line of every column does. */
  ghost predicate CellsFit(cells: seq<seq<string>>, widths: seq<int>, f: Font)
    requires |cells| <= |widths|
  {
    forall i: nat, j: nat | i < |cells| :: CellFits(cells, widths, f, i, j)
  }

  /** Fitting in runes is fitting in dots. */
  lemma RunesFit(runes: nat, width: int, cell: nat)
    requires cell > 0 && width >= 0
    ensures runes <= SpacesIn(width, cell) <==> runes * cell <= width
  {
    SpacesInMaximal(width, cell);
    var fit := SpacesIn(width, cell);
    assert fit * cell + cell == (fit + 1) * cell;
    if runes <= fit { Scale(runes, fit, cell); } else { Scale(fit + 1, runes, cell); }
  }

  lemma {:induction false} ConcatSplit(a: seq<string>, b: seq<string>)
    ensures Concat(a + b) == Concat(a) + Concat(b)
    decreases |b|
  {
    if b == [] {
      assert a + b == a;
    } else {
      assert (a + b)[..|a + b| - 1] == a + b[..|b| - 1];
      ConcatSplit(a, b[..|b| - 1]);
      assert Concat(a) + Concat(b) == Concat(a) + Concat(b[..|b| - 1]) + b[|b| - 1];
    }
  }

  /** Part `k` of a line fills its column and the gap. */
  ghost predicate PieceFilled(pieces: seq<string>, widths: seq<int>, cell: nat, k: nat)
    requires cell > 0 && k < |pieces| <= |widths|
  {
    |pieces[k]| == SpacesIn(widths[k], cell) + 1
  }

  /** All parts but the last do. */
  ghost predicate Filled(pieces: seq<string>, widths: seq<int>, cell: nat)
    requires cell > 0 && |pieces| <= |widths|
  {
    forall k: nat | k < |pieces| - 1 :: PieceFilled(pieces, widths, cell, k)
  }

  /** On every line column `i` starts at the same offset. */
  lemma {:induction false} ColumnStart(pieces: seq<string>, widths: seq<int>, cell: nat, i: nat)
    requires cell > 0 && i < |pieces| <= |widths| && Filled(pieces, widths, cell)
    ensures |Concat(pieces[..i])| == Offset(widths, cell, i)
    decreases i
  {
    if i > 0 {
      assert pieces[..i][..i - 1] == pieces[..i - 1];
      assert PieceFilled(pieces, widths, cell, i - 1);
      ColumnStart(pieces, widths, cell, i - 1);
    }
  }

  /** The text of column `i` on a line: from its start up to its width in runes. */
  function Slice(line: string, from: int, length: int): string {
    if from < 0 || length < 0 || from > |line| then ""
    else if from + length <= |line| then line[from..from + length]
    else line[from..]
  }

  lemma PieceAt(pieces: seq<string>, i: nat) returns (rest: string)
    requires i < |pieces|
    ensures Concat(pieces) == Concat(pieces[..i]) + pieces[i] + rest
    ensures i == |pieces| - 1 ==> rest == ""
  {
    var a, b := pieces[..i + 1], pieces[i + 1..];
    assert pieces == a + b;
    ConcatSplit(a, b);
    assert a[..i] == pieces[..i] && a[i] == pieces[i];
    rest := Concat(b);
  }

  lemma PieceLengths(cells: seq<seq<string>>, widths: seq<int>, f: Font, cell: nat, j: nat, i: nat)
    requires f.Fixed(cell) && i < |cells| <= |widths| && CellsFit(cells, widths, f)
    ensures i < |cells| - 1 ==>
              && |Piece(cells, widths, f, j, i)| == SpacesIn(widths[i], cell) + 1
              && |CellAt(cells[i], j)| <= SpacesIn(widths[i], cell)
              && Piece(cells, widths, f, j, i)
                 == CellAt(cells[i], j) + Spaces(SpacesIn(widths[i], cell) - |CellAt(cells[i], j)|) + " "
    ensures |CellAt(cells[i], j)| <= SpacesIn(widths[i], cell)
  {
    assert CellFits(cells, widths, f, i, j);
    f.FixedMeasure(cell, CellAt(cells[i], j));
    RunesFit(|CellAt(cells[i], j)|, widths[i], cell);
    PaddedLength(CellAt(cells[i], j), widths[i], f, cell);
  }

  lemma PiecesFilled(cells: seq<seq<string>>, widths: seq<int>, f: Font, cell: nat, j: nat)
    requires f.Fixed(cell) && |cells| <= |widths| && CellsFit(cells, widths, f)
    ensures Filled(Pieces(cells, widths, f, j), widths, cell)
  {
    var pieces := Pieces(cells, widths, f, j);
    forall k: nat | k < |cells| - 1
      ensures PieceFilled(pieces, widths, cell, k)
    {
      PieceLengths(cells, widths, f, cell, j, k);
    }
  }

  /** Slicing line `j` at column `i` gives the cell's own line back, up to its padding. */
  lemma SliceGivesCell(cells: seq<seq<string>>, widths: seq<int>, f: Font, cell: nat, j: nat, i: nat)
    requires f.Fixed(cell) && i < |cells| <= |widths| && CellsFit(cells, widths, f)
    ensures var text := CellAt(cells[i], j);
      && |text| <= SpacesIn(widths[i], cell)
      && Slice(RowText(cells, widths, f, j), Offset(widths, cell, i), SpacesIn(widths[i], cell))
         == if i == |cells| - 1 then text else text + Spaces(SpacesIn(widths[i], cell) - |text|)
  {
    var pieces := Pieces(cells, widths, f, j);
    PiecesFilled(cells, widths, f, cell, j);
    ColumnStart(pieces, widths, cell, i);
    PieceLengths(cells, widths, f, cell, j, i);
    SlicePiece(pieces, CellAt(cells[i], j), SpacesIn(widths[i], cell), i);
  }

  lemma SlicePiece(pieces: seq<string>, text: string, runes: nat, i: nat)
    requires i < |pieces| && |text| <= runes
    requires pieces[i] == if i == |pieces| - 1 then text else text + Spaces(runes - |text|) + " "
    ensures Slice(Concat(pieces), |Concat(pieces[..i])|, runes)
         == if i == |pieces| - 1 then text else text + Spaces(runes - |text|)
  {
    var rest := PieceAt(pieces, i);
    var start := Concat(pieces[..i]);
    SliceMiddle(start, pieces[i], rest, text, runes, i == |pieces| - 1);
  }

  lemma SliceMiddle(start: string, piece: string, rest: string, text: string, runes: nat, last: bool)
    requires |text| <= runes
    requires if last then rest == "" && piece == text else piece == text + Spaces(runes - |text|) + " "
    ensures Slice(start + piece + rest, |start|, runes) == if last then text else text + Spaces(runes - |text|)
  {
    var line := start + piece + rest;
    if last {
      assert line[|start|..] == text;
    } else {
      assert line[|start|..|start| + runes] == text + Spaces(runes - |text|);
    }
  }

  // ------------------------------------------------------------------ the page bound

  /** The spaces that fit take no more dots than there is room, under any font. */
  lemma {:induction false} FittingSpacesFit(room: int, f: Font)
    requires f.advance(' ') > 0 && room >= 0
    ensures f.Measure(Spaces(SpacesIn(room, f.advance(' ')))) <= room
    decreases room
  {
    if room >= f.advance(' ') {
      FittingSpacesFit(room - f.advance(' '), f);
      OneMore(f, Spaces(SpacesIn(room - f.advance(' '), f.advance(' '))));
    }
  }

  lemma PaddedFits(s: string, width: int, f: Font)
    requires f.advance(' ') > 0 && f.Measure(s) <= width
    ensures f.Measure(Padded(s, width, f)) <= width
  {
    var room := width - f.Measure(s);
    FittingSpacesFit(room, f);
    f.MeasureConcat(s, Spaces(SpacesIn(room, f.advance(' '))));
  }

  /** Part `k` measures at most its column and the gap. */
  ghost predicate PieceWithin(pieces: seq<string>, widths: seq<int>, f: Font, k: nat)
    requires k < |pieces| <= |widths|
  {
    f.Measure(pieces[k]) <= widths[k] + f.advance(' ')
  }

  lemma AddPiece(pieces: seq<string>, widths: seq<int>, f: Font, i: nat, before: nat)
    requires i < |pieces| <= |widths| && PieceWithin(pieces, widths, f, i)
    requires before == f.Measure(Concat(pieces[..i]))
    ensures f.Measure(Concat(pieces[..i + 1])) <= before + widths[i] + f.advance(' ')
    ensures Sum(widths[..i + 1]) == Sum(widths[..i]) + widths[i]
  {
    assert pieces[..i + 1][..i] == pieces[..i] && widths[..i + 1][..i] == widths[..i];
    f.MeasureConcat(Concat(pieces[..i]), pieces[i]);
  }

  lemma {:induction false} PiecesWithin(pieces: seq<string>, widths: seq<int>, f: Font, i: nat)
    requires i <= |pieces| <= |widths| && forall k: nat | k < i :: PieceWithin(pieces, widths, f, k)
    ensures f.Measure(Concat(pieces[..i])) <= Sum(widths[..i]) + i * f.advance(' ')
    decreases i
  {
    if i > 0 {
      PiecesWithin(pieces, widths, f, i - 1);
      AddPiece(pieces, widths, f, i - 1, f.Measure(Concat(pieces[..i - 1])));
      GapMore(i, f.advance(' '));
    }
  }

  lemma GapMore(i: nat, gap: nat)
    requires i > 0
    ensures i * gap == (i - 1) * gap + gap
  {}

  lemma PieceFits(cells: seq<seq<string>>, widths: seq<int>, f: Font, j: nat, k: nat)
    requires f.advance(' ') > 0 && k < |cells| - 1 && |cells| <= |widths| && CellsFit(cells, widths, f)
    ensures PieceWithin(Pieces(cells, widths, f, j), widths, f, k)
  {
    assert CellFits(cells, widths, f, k, j);
    PaddedFits(CellAt(cells[k], j), widths[k], f);
    OneMore(f, Padded(CellAt(cells[k], j), widths[k], f));
  }

  /** Under any font a composed line never measures more than the columns and the gaps between them. */
  lemma LineFits(cells: seq<seq<string>>, widths: seq<int>, f: Font, j: nat)
    requires f.advance(' ') > 0 && cells != [] && |cells| == |widths| && CellsFit(cells, widths, f)
    ensures f.Measure(RowText(cells, widths, f, j)) <= Sum(widths) + (|cells| - 1) * f.advance(' ')
  {
    var n := |cells| - 1;
    var pieces := Pieces(cells, widths, f, j);
    forall k: nat | k < n
      ensures PieceWithin(pieces, widths, f, k)
    {
      PieceFits(cells, widths, f, j, k);
    }
    PiecesWithin(pieces, widths, f, n);
    assert CellFits(cells, widths, f, n, j);
    f.MeasureConcat(Concat(pieces[..n]), pieces[n]);
    assert widths[..n] == widths[..|widths| - 1];
  }

  // ------------------------------------------------------------------ wrapped cells fit

  /** Every word of the text, taken paragraph by paragraph, fits the width. */
  ghost predicate WordsFit(content: string, width: int, f: Font) {
    forall i, k | 0 <= i < |Paragraphs(content)| && 0 <= k < |Fields(Paragraphs(content)[i])| ::
      f.Measure(Fields(Paragraphs(content)[i])[k]) <= width
  }

  /** The same at a given size. */
  ghost predicate WordsFitAt(content: string, width: int, f: Font, size: nat) {
    forall i | 0 <= i < |Paragraphs(content)| :: ParagraphWordsFit(Measurer(f, size, width), Paragraphs(content)[i])
  }

  ghost predicate ParagraphWordsFit(m: Measurer, p: string) {
    forall k | 0 <= k < |Fields(p)| :: m.font.Measure(Fields(p)[k]) * m.size <= m.width
  }

  lemma {:induction false} BreakingFits(m: Measurer, groups: seq<seq<string>>, words: seq<string>, i: nat)
    requires IsBreaking(m, groups, words) && i < |groups|
    requires forall k | 0 <= k < |words| :: m.font.Measure(words[k]) * m.size <= m.width
    ensures m.font.Measure(Lines(groups)[i]) * m.size <= m.width
    decreases i
  {
    var rest := Flatten(groups[1..]);
    if i == 0 {
      assert m.Allows(groups[0]);
      assert groups[0][0] == words[0];
    } else {
      assert forall k | 0 <= k < |rest| :: rest[k] == words[|groups[0]| + k];
      BreakingFits(m, groups[1..], rest, i - 1);
    }
  }

  lemma ParagraphFits(m: Measurer, p: string)
    requires m.width >= 0 && ParagraphWordsFit(m, p)
    ensures forall i | 0 <= i < |ParagraphLines(m, p)| :: m.font.Measure(ParagraphLines(m, p)[i]) * m.size <= m.width
  {
    if Fields(p) == [] {
      assert ParagraphLines(m, p) == [""];
      assert m.font.Measure("") == 0;
    } else {
      WrapKeepsWords(m, p);
      forall i | 0 <= i < |ParagraphLines(m, p)|
        ensures m.font.Measure(ParagraphLines(m, p)[i]) * m.size <= m.width
      {
        BreakingFits(m, ParagraphGroups(m, p), Fields(p), i);
      }
    }
  }

  lemma {:induction false} AllFit(m: Measurer, ps: seq<string>)
    requires m.width >= 0 && forall i | 0 <= i < |ps| :: ParagraphWordsFit(m, ps[i])
    ensures forall i | 0 <= i < |WrapAll(m, ps)| :: m.font.Measure(WrapAll(m, ps)[i]) * m.size <= m.width
    decreases |ps|
  {
    if ps != [] {
      ParagraphFits(m, ps[0]);
      AllFit(m, ps[1..]);
    }
  }

  /** A text whose words fit is wrapped to lines that fit, at any size. */
  lemma WrappedTextFitsAt(content: string, width: int, f: Font, size: nat)
    requires width > 0 && WordsFitAt(content, width, f, size)
    ensures forall i | 0 <= i < |TextLines(content, width, f, size)| ::
              f.Measure(TextLines(content, width, f, size)[i]) * size <= width
  {
    AllFit(Measurer(f, size, width), Paragraphs(content));
  }

  lemma WrappedTextFits(content: string, width: int, f: Font)
    requires width > 0 && WordsFit(content, width, f)
    ensures forall i | 0 <= i < |TextLines(content, width, f, 1)| :: f.Measure(TextLines(content, width, f, 1)[i]) <= width
  {
    WrappedTextFitsAt(content, width, f, 1);
  }

  lemma {:induction false} WrapCellsAt(row: seq<string>, widths: seq<int>, f: Font, i: nat)
    requires i < |row| <= |widths|
    ensures WrapCells(row, widths, f)[i] == TextLines(row[i], widths[i], f, 1)
    decreases |row|
  {
    if i < |row| - 1 { WrapCellsAt(row[..|row| - 1], widths, f, i); }
  }

  /** The words of cell `k` fit its column. */
  ghost predicate CellWordsFit(row: seq<string>, widths: seq<int>, f: Font, k: nat)
    requires k < |row| <= |widths|
  {
    widths[k] >= 1 && WordsFit(row[k], widths[k], f)
  }

  /** Every cell's words fit the column they are in. */
  ghost predicate RowFits(row: seq<string>, widths: seq<int>, f: Font) {
    |row| <= |widths| && forall k: nat | k < |row| :: CellWordsFit(row, widths, f, k)
  }

  lemma WrappedCellsFit(row: seq<string>, widths: seq<int>, f: Font)
    requires RowFits(row, widths, f)
    ensures CellsFit(WrapCells(row, widths, f), widths, f)
  {
    var cells := WrapCells(row, widths, f);
    forall k: nat, l: nat | k < |row|
      ensures CellFits(cells, widths, f, k, l)
    {
      assert CellWordsFit(row, widths, f, k);
      WrapCellsAt(row, widths, f, k);
      WrappedTextFits(row[k], widths[k], f);
    }
  }

  /** Each line of a wrapped row stays within the columns and their gaps. */
  lemma RowLineFits(row: seq<string>, widths: seq<int>, f: Font, j: nat)
    requires f.advance(' ') > 0 && row != [] && |row| == |widths| && RowFits(row, widths, f)
    requires j < |RowLines(row, widths, f)|
    ensures f.Measure(RowLines(row, widths, f)[j]) <= Sum(widths) + (|row| - 1) * f.advance(' ')
  {
    WrappedCellsFit(row, widths, f);
    LineFits(WrapCells(row, widths, f), widths, f, j);
  }

  /** Line `j`, cut where column `i` is, is line `j` of the cell's own wrapped text and its padding. */
  ghost predicate SlicesBack(row: seq<string>, widths: seq<int>, f: Font, cell: nat, j: nat, i: nat)
    requires cell > 0 && f.advance(' ') > 0 && i < |row| <= |widths| && j < |RowLines(row, widths, f)|
  {
    var text := CellAt(TextLines(row[i], widths[i], f, 1), j);
    var runes := SpacesIn(widths[i], cell);
    && |text| <= runes
    && Slice(RowLines(row, widths, f)[j], Offset(widths, cell, i), runes)
       == if i == |row| - 1 then text else text + Spaces(runes - |text|)
  }

  lemma RowLineSlices(row: seq<string>, widths: seq<int>, f: Font, cell: nat, j: nat, i: nat)
    requires f.Fixed(cell) && i < |row| == |widths| && RowFits(row, widths, f)
    requires j < |RowLines(row, widths, f)|
    ensures SlicesBack(row, widths, f, cell, j, i)
  {
    WrappedCellsFit(row, widths, f);
    WrapCellsAt(row, widths, f, i);
    SliceGivesCell(WrapCells(row, widths, f), widths, f, cell, j, i);
  }

  /**
    A table row under a fixed-advance font, when the page is wide enough for a dot
    per column and every word fits its column: each line stays within the page,
    every column starts at the same rune on every line, and slicing there gives
    back the cell's own wrapped text.
   */
  lemma TableRowAligned(row: seq<string>, widths: seq<int>, width: int, f: Font, cell: nat, j: nat, i: nat)
    requires f.Fixed(cell) && i < |row| == |widths| && RowFits(row, widths, f)
    requires Sum(widths) == width - (|row| - 1) * cell
    requires j < |RowLines(row, widths, f)|
    ensures f.Measure(RowLines(row, widths, f)[j]) <= width
    ensures SlicesBack(row, widths, f, cell, j, i)
  {
    RowLineFits(row, widths, f, j);
    RowLineSlices(row, widths, f, cell, j, i);
  }
}
