/**
  What the table codec makes of text that people and spreadsheets write: blanks
  around the fields, lines ended by CR LF, blank lines, quotes inside a field. A cell
  is read as its text, whatever pads it.
 */
module CsvReading {
  import opened Csv

  /** A cell as written: what stands before its text, the text, plain or quoted, and what stands after. */
  datatype Cell = Cell(before: Str, text: Str, after: Str, quoted: bool)

  /** Blanks, carriage returns among them, but no newline. */
  predicate Padding(s: Str) {
    forall i | 0 <= i < |s| :: IsBlank(s[i]) && s[i] != LF
  }

  predicate Stray(s: Str) {
    forall i | 0 <= i < |s| :: s[i] == CR
  }

  /** Text that needs no quotes: tight, and without separators; it may hold a quote, but not begin with one. */
  predicate Plain(f: Str) {
    Tight(f) && COMMA !in f && LF !in f && CR !in f && (f != [] ==> f[0] != QUOTE)
  }

  /** A quoted cell may be padded before its quotes; after them only carriage returns are ignored. */
  predicate Readable(c: Cell) {
    && Padding(c.before)
    && if c.quoted then Stray(c.after) else Padding(c.after) && Plain(c.text)
  }

  function WriteCell(c: Cell): Str {
    c.before + ((if c.quoted then [QUOTE] + Doubled(c.text) + [QUOTE] else c.text) + c.after)
  }

  function WriteCells(cells: seq<Cell>): Str {
    if cells == [] then []
    else if |cells| == 1 then WriteCell(cells[0])
    else WriteCell(cells[0]) + ([COMMA] + WriteCells(cells[1..]))
  }

  function WriteLines(lines: seq<seq<Cell>>): Str {
    if lines == [] then []
    else if |lines| == 1 then WriteCells(lines[0])
    else WriteCells(lines[0]) + ([LF] + WriteLines(lines[1..]))
  }

  function Texts(cells: seq<Cell>): (texts: seq<Str>)
    ensures |texts| == |cells| && forall i | 0 <= i < |cells| :: texts[i] == cells[i].text
  {
    seq(|cells|, i requires 0 <= i < |cells| => cells[i].text)
  }

  /** One cell without quotes or text: the line is blank, and dropped. */
  predicate BlankLine(cells: seq<Cell>) {
    |cells| == 1 && !cells[0].quoted && cells[0].text == []
  }

  function RowOf(cells: seq<Cell>): seq<seq<Str>> {
    if BlankLine(cells) then [] else [Texts(cells)]
  }

  function RowsOf(lines: seq<seq<Cell>>): seq<seq<Str>> {
    if lines == [] then [] else RowOf(lines[0]) + RowsOf(lines[1..])
  }

  // ------------------------------------------------------------------ trimming

  lemma TrimEmptyIff(s: Str)
    ensures Trim(s) == [] <==> Blank(s)
  {
    var before := TrimStartCuts(s);
    var after := TrimEndCuts(TrimStart(s));
    TrimCutsBlanks(s);
    assert s == before + Trim(s) + after;
    if Trim(s) != [] {
      assert s[|before|] == Trim(s)[0];
    }
  }

  lemma {:induction false} TrimStartPadded(a: Str, s: Str)
    requires Blank(a) && (s == [] || !IsBlank(s[0]))
    ensures TrimStart(a + s) == s
    decreases |a|
  {
    if a == [] {
      assert a + s == s;
    } else {
      assert (a + s)[1..] == a[1..] + s;
      TrimStartPadded(a[1..], s);
    }
  }

  lemma {:induction false} TrimEndPadded(s: Str, b: Str)
    requires Blank(b) && (s == [] || !IsBlank(s[|s| - 1]))
    ensures TrimEnd(s + b) == s
    decreases |b|
  {
    if b == [] {
      assert s + b == s;
    } else {
      assert (s + b)[..|s + b| - 1] == s + b[..|b| - 1];
      TrimEndPadded(s, b[..|b| - 1]);
    }
  }

  /** Trimming a tight text out of blanks gives it back. */
  lemma TrimPadded(a: Str, t: Str, b: Str)
    requires Blank(a) && Blank(b) && Tight(t)
    ensures Trim(a + t + b) == t
  {
    if t == [] {
      assert a + t + b == a + b;
      TrimEmptyIff(a + b);
    } else {
      assert a + t + b == a + (t + b);
      TrimStartPadded(a, t + b);
      TrimEndPadded(t, b);
    }
  }

  // ------------------------------------------------------------------ scanning one cell

  /** The characters of the padding that the scanner keeps for now. */
  function Kept(pad: Str): Str {
    if pad == [] then [] else (if pad[0] == CR then [] else [pad[0]]) + Kept(pad[1..])
  }

  lemma {:induction false} KeptIsBlank(pad: Str)
    requires Padding(pad)
    ensures Blank(Kept(pad))
  {
    if pad != [] { KeptIsBlank(pad[1..]); }
  }

  lemma {:induction false} StrayIsDropped(pad: Str)
    requires Stray(pad)
    ensures Kept(pad) == []
  {
    if pad != [] { StrayIsDropped(pad[1..]); }
  }

  lemma ScanBlank(s: Scanner, c: CodeUnit, rest: Str)
    requires !s.quoted && IsBlank(c) && c != LF
    ensures Scan(s, [c] + rest) == Scan(s.(field := s.field + if c == CR then [] else [c]), rest)
  {
    assert ([c] + rest)[1..] == rest && s.field + [] == s.field;
  }

  lemma {:induction false} ScanPadding(s: Scanner, pad: Str, rest: Str)
    requires !s.quoted && Padding(pad)
    ensures Scan(s, pad + rest) == Scan(s.(field := s.field + Kept(pad)), rest)
    decreases |pad|
  {
    if pad == [] {
      assert pad + rest == rest && s.field + [] == s.field;
    } else {
      var kept: Str := if pad[0] == CR then [] else [pad[0]];
      assert pad + rest == [pad[0]] + (pad[1..] + rest);
      ScanBlank(s, pad[0], pad[1..] + rest);
      ScanPadding(s.(field := s.field + kept), pad[1..], rest);
      assert s.field + kept + Kept(pad[1..]) == s.field + Kept(pad);
    }
  }

  lemma NotBlankAfter(field: Str, c: CodeUnit)
    requires !IsBlank(c) || Trim(field) != []
    ensures Trim(field + [c]) != []
  {
    TrimEmptyIff(field);
    TrimEmptyIff(field + [c]);
    if !IsBlank(c) {
      assert (field + [c])[|field|] == c;
    } else {
      var i :| 0 <= i < |field| && !IsBlank(field[i]);
      assert (field + [c])[i] == field[i];
    }
  }

  /** A plain text's characters are collected, its quotes included. */
  lemma {:induction false} ScanText(s: Scanner, f: Str, rest: Str)
    requires !s.quoted && COMMA !in f && LF !in f && CR !in f
    requires f != [] ==> Trim(s.field) != [] || (f[0] != QUOTE && !IsBlank(f[0]))
    ensures Scan(s, f + rest) == Scan(s.(field := s.field + f), rest)
    decreases |f|
  {
    if f == [] {
      assert f + rest == rest && s.field + f == s.field;
    } else {
      assert (f + rest)[1..] == f[1..] + rest;
      var t := s.(field := s.field + [f[0]]);
      NotBlankAfter(s.field, f[0]);
      ScanText(t, f[1..], rest);
      assert t.field + f[1..] == s.field + f;
    }
  }

  /** The scanner when cell `c` has been read and waits to be pushed. */
  function Read(s: Scanner, c: Cell): Scanner {
    if c.quoted then s.(field := c.text, quotedField := true)
    else s.(field := Kept(c.before) + c.text + Kept(c.after))
  }

  lemma ScanQuotedCell(s: Scanner, c: Cell, rest: Str)
    requires AtField(s) && Readable(c) && c.quoted && FieldEnds(rest)
    ensures Scan(s, WriteCell(c) + rest) == Scan(Read(s, c), rest)
  {
    var text := Doubled(c.text) + [QUOTE] + (c.after + rest);
    assert WriteCell(c) + rest == c.before + ([QUOTE] + text);
    ScanPadding(s, c.before, [QUOTE] + text);
    KeptIsBlank(c.before);
    TrimEmptyIff(Kept(c.before));
    var padded := s.(field := Kept(c.before));
    assert s.field + Kept(c.before) == Kept(c.before);
    assert ([QUOTE] + text)[1..] == text;
    ScanQuoted(padded.(quoted := true, quotedField := true, field := []), c.text, c.after + rest);
    assert [] + c.text == c.text;
    ScanPadding(Read(s, c), c.after, rest);
    StrayIsDropped(c.after);
    assert c.text + [] == c.text;
  }

  lemma ScanPlainCell(s: Scanner, c: Cell, rest: Str)
    requires AtField(s) && Readable(c) && !c.quoted
    ensures Scan(s, WriteCell(c) + rest) == Scan(Read(s, c), rest)
  {
    assert WriteCell(c) + rest == c.before + (c.text + (c.after + rest));
    ScanPadding(s, c.before, c.text + (c.after + rest));
    var padded := s.(field := Kept(c.before));
    assert s.field + Kept(c.before) == Kept(c.before);
    ScanText(padded, c.text, c.after + rest);
    ScanPadding(padded.(field := Kept(c.before) + c.text), c.after, rest);
  }

  /** Pushing a cell that was read stores its text. */
  lemma PushedCell(s: Scanner, c: Cell)
    requires AtField(s) && Readable(c)
    ensures PushField(Read(s, c))
         == Scanner(s.rows, s.row + [c.text], [], false, false, s.rowIsBlank && !c.quoted && c.text == [])
  {
    if !c.quoted {
      KeptIsBlank(c.before);
      KeptIsBlank(c.after);
      TrimPadded(Kept(c.before), c.text, Kept(c.after));
    }
  }

  lemma ScanCell(s: Scanner, c: Cell, rest: Str)
    requires AtField(s) && Readable(c) && FieldEnds(rest)
    ensures Scan(s, WriteCell(c) + rest) == Scan(Read(s, c), rest)
  {
    if c.quoted { ScanQuotedCell(s, c, rest); } else { ScanPlainCell(s, c, rest); }
  }

  // ------------------------------------------------------------------ scanning lines

  predicate AllReadable(cells: seq<Cell>) {
    cells != [] && forall i | 0 <= i < |cells| :: Readable(cells[i])
  }

  /** The scanner when the line's last cell has been read. */
  function AtLineEnd(s: Scanner, cells: seq<Cell>): Scanner
    requires cells != []
    decreases |cells|
  {
    if |cells| == 1 then Read(s, cells[0]) else AtLineEnd(PushField(Read(s, cells[0])), cells[1..])
  }

  lemma ScanFirstCell(s: Scanner, cells: seq<Cell>, rest: Str)
    requires AtField(s) && |cells| > 1 && Readable(cells[0])
    ensures Scan(s, WriteCells(cells) + rest) == Scan(PushField(Read(s, cells[0])), WriteCells(cells[1..]) + rest)
  {
    var more := WriteCells(cells[1..]) + rest;
    assert WriteCells(cells) + rest == WriteCell(cells[0]) + ([COMMA] + more);
    ScanCell(s, cells[0], [COMMA] + more);
    AfterComma(Read(s, cells[0]), more);
  }

  lemma {:induction false} ScanCells(s: Scanner, cells: seq<Cell>, rest: Str)
    requires AtField(s) && AllReadable(cells) && (rest == [] || rest[0] == LF)
    ensures Scan(s, WriteCells(cells) + rest) == Scan(AtLineEnd(s, cells), rest)
    decreases |cells|
  {
    if |cells| == 1 {
      ScanCell(s, cells[0], rest);
    } else {
      ScanFirstCell(s, cells, rest);
      PushedCell(s, cells[0]);
      ScanCells(PushField(Read(s, cells[0])), cells[1..], rest);
    }
  }

  lemma OneCellPushes(s: Scanner, c: Cell)
    requires AtField(s) && Readable(c) && (s.row == [] ==> s.rowIsBlank)
    ensures !Read(s, c).quoted
    ensures PushRow(Read(s, c))
         == AtLine(s.rows + if s.row == [] && !c.quoted && c.text == [] then [] else [s.row + [c.text]])
  {
    PushedCell(s, c);
  }

  lemma OneMoreText(row: seq<Str>, cells: seq<Cell>)
    requires cells != []
    ensures row + [cells[0].text] + Texts(cells[1..]) == row + Texts(cells)
  {}

  /** A line's cells become one row, or none when the line is blank. */
  lemma {:induction false} LinePushes(s: Scanner, cells: seq<Cell>)
    requires AtField(s) && AllReadable(cells) && (s.row == [] ==> s.rowIsBlank)
    ensures !AtLineEnd(s, cells).quoted
    ensures PushRow(AtLineEnd(s, cells))
         == AtLine(s.rows + if s.row == [] && BlankLine(cells) then [] else [s.row + Texts(cells)])
    decreases |cells|
  {
    if |cells| == 1 {
      OneCellPushes(s, cells[0]);
      assert cells == [cells[0]] && Texts(cells) == [cells[0].text];
    } else {
      PushedCell(s, cells[0]);
      LinePushes(PushField(Read(s, cells[0])), cells[1..]);
      OneMoreText(s.row, cells);
    }
  }

  lemma LineIsRow(rows: seq<seq<Str>>, cells: seq<Cell>)
    requires AllReadable(cells)
    ensures !AtLineEnd(AtLine(rows), cells).quoted
    ensures PushRow(AtLineEnd(AtLine(rows), cells)) == AtLine(rows + RowOf(cells))
  {
    LinePushes(AtLine(rows), cells);
    assert [] + Texts(cells) == Texts(cells);
  }

  lemma FirstLineRead(rows: seq<seq<Str>>, cells: seq<Cell>, more: Str)
    requires AllReadable(cells)
    ensures Scan(AtLine(rows), WriteCells(cells) + ([LF] + more)) == Scan(AtLine(rows + RowOf(cells)), more)
  {
    ScanCells(AtLine(rows), cells, [LF] + more);
    LineIsRow(rows, cells);
    AfterNewline(AtLineEnd(AtLine(rows), cells), more);
  }

  lemma LastLineRead(rows: seq<seq<Str>>, cells: seq<Cell>)
    requires AllReadable(cells)
    ensures PushRow(Scan(AtLine(rows), WriteCells(cells))).rows == rows + RowOf(cells)
  {
    assert WriteCells(cells) + [] == WriteCells(cells);
    ScanCells(AtLine(rows), cells, []);
    LineIsRow(rows, cells);
  }

  predicate ReadableLines(lines: seq<seq<Cell>>) {
    forall i | 0 <= i < |lines| :: AllReadable(lines[i])
  }

  lemma {:induction false} ScanLines(read: seq<seq<Str>>, lines: seq<seq<Cell>>)
    requires lines != [] && ReadableLines(lines)
    ensures PushRow(Scan(AtLine(read), WriteLines(lines))).rows == read + RowsOf(lines)
    decreases |lines|
  {
    if |lines| == 1 {
      LastLineRead(read, lines[0]);
      assert RowsOf(lines[1..]) == [] && RowOf(lines[0]) + [] == RowOf(lines[0]);
    } else {
      FirstLineRead(read, lines[0], WriteLines(lines[1..]));
      ScanLines(read + RowOf(lines[0]), lines[1..]);
      Associate(read, RowOf(lines[0]), RowsOf(lines[1..]));
    }
  }

  /**
    Lines of padded cells, plain or quoted, ended by LF or CR LF: each line that is
    not blank becomes the row of its cells' texts, in order, and nothing else does.
   */
  lemma PaddedLinesRead(lines: seq<seq<Cell>>)
    requires ReadableLines(lines)
    ensures Parse(WriteLines(lines)) == RowsOf(lines)
  {
    if lines != [] {
      ScanLines([], lines);
      assert [] + RowsOf(lines) == RowsOf(lines);
    } else {
      assert PushRow(START).rows == [];
    }
  }

  lemma OneCellRead(c: Cell)
    requires Readable(c)
    ensures Parse(WriteCell(c)) == if !c.quoted && c.text == [] then [] else [[c.text]]
  {
    LastLineRead([], [c]);
    assert Texts([c]) == [c.text];
  }

  /** A single unquoted field is trimmed, and dropped with its line when it is blank. */
  lemma PlainTextRead(text: Str)
    requires QUOTE !in text && COMMA !in text && LF !in text && CR !in text
    ensures Parse(text) == if Blank(text) then [] else [[Trim(text)]]
  {
    TrimEmptyIff(text);
    var c := CellOf(text);
    OneCellRead(c);
  }

  /** Such a text is one padded cell. */
  lemma CellOf(text: Str) returns (c: Cell)
    requires QUOTE !in text && COMMA !in text && LF !in text && CR !in text
    ensures Readable(c) && !c.quoted && c.text == Trim(text) && WriteCell(c) == text
  {
    TrimCutsBlanks(text);
    var before, after :| text == before + Trim(text) + after && Blank(before) && Blank(after);
    PadsOf(text, before, Trim(text), after);
    MiddleOf(text, before, Trim(text), after);
    c := Cell(before, Trim(text), after, false);
    assert text == before + (Trim(text) + after);
  }

  lemma MiddleOf(text: Str, before: Str, middle: Str, after: Str)
    requires text == before + middle + after
    ensures forall c | c in middle :: c in text
  {
    forall c | c in middle
      ensures c in text
    {
      var i :| 0 <= i < |middle| && middle[i] == c;
      assert text[|before| + i] == c;
    }
  }

  lemma PadsOf(text: Str, before: Str, middle: Str, after: Str)
    requires text == before + middle + after && Blank(before) && Blank(after) && LF !in text
    ensures Padding(before) && Padding(after)
  {
    assert forall i | 0 <= i < |before| :: text[i] == before[i];
    assert forall i | 0 <= i < |after| :: text[|before| + |middle| + i] == after[i];
  }

  /** A blank after a closing quote is not padding: it becomes part of the field. */
  lemma BlankAfterQuoteStays(f: Str, blank: CodeUnit)
    requires IsBlank(blank) && blank != CR && blank != LF
    ensures Parse([QUOTE] + (Doubled(f) + [QUOTE] + [blank])) == [[f + [blank]]]
  {
    var text := Doubled(f) + [QUOTE] + [blank];
    assert ([QUOTE] + text)[1..] == text && Trim([]) == [];
    ScanQuoted(START.(quoted := true, quotedField := true), f, [blank]);
    assert [] + f == f;
    var closed := START.(quotedField := true, field := f);
    ScanBlank(closed, blank, []);
    assert [blank] + [] == [blank];
    var end := closed.(field := f + [blank]);
    assert Scan(START, [QUOTE] + text) == Scan(closed, [blank]) == end;
    assert PushField(end).row == [f + [blank]];
  }
}
