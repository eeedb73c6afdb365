/**
  The table codec of the receipt builder: a CSV scanner with six pieces of state
  (RFC 4180, section 2, with trimming of unquoted fields and dropping of blank
  lines) and the formatter it undoes. Text is UTF-16 code units.
 */
module Csv {

  type CodeUnit = u: int | 0 <= u < 0x1_0000
  type Str = seq<CodeUnit>

  const QUOTE: CodeUnit := 0x22
  const COMMA: CodeUnit := 0x2C
  const LF: CodeUnit := 0x0A
  const CR: CodeUnit := 0x0D

  /** What String.prototype.trim removes. */
  predicate IsBlank(c: CodeUnit) {
    || 0x09 <= c <= 0x0D || c == 0x20 || c == 0xA0 || c == 0x1680 || 0x2000 <= c <= 0x200A
    || c == 0x2028 || c == 0x2029 || c == 0x202F || c == 0x205F || c == 0x3000 || c == 0xFEFF
  }

  function TrimStart(s: Str): Str {
    if s != [] && IsBlank(s[0]) then TrimStart(s[1..]) else s
  }

  function TrimEnd(s: Str): Str {
    if s != [] && IsBlank(s[|s| - 1]) then TrimEnd(s[..|s| - 1]) else s
  }

  function Trim(s: Str): Str {
    TrimEnd(TrimStart(s))
  }

  predicate Blank(s: Str) {
    forall i | 0 <= i < |s| :: IsBlank(s[i])
  }

  predicate Tight(s: Str) {
    s != [] ==> !IsBlank(s[0]) && !IsBlank(s[|s| - 1])
  }

  lemma {:induction false} TrimStartCuts(s: Str) returns (cut: Str)
    ensures s == cut + TrimStart(s) && Blank(cut)
    ensures TrimStart(s) != [] ==> !IsBlank(TrimStart(s)[0])
  {
    if s != [] && IsBlank(s[0]) {
      var rest := TrimStartCuts(s[1..]);
      cut := [s[0]] + rest;
      assert s == [s[0]] + s[1..];
    } else {
      cut := [];
    }
  }

  lemma {:induction false} TrimEndCuts(s: Str) returns (cut: Str)
    ensures s == TrimEnd(s) + cut && Blank(cut)
    ensures TrimEnd(s) != [] ==> !IsBlank(TrimEnd(s)[|TrimEnd(s)| - 1])
    decreases |s|
  {
    if s != [] && IsBlank(s[|s| - 1]) {
      var rest := TrimEndCuts(s[..|s| - 1]);
      cut := rest + [s[|s| - 1]];
      assert s == s[..|s| - 1] + [s[|s| - 1]];
    } else {
      cut := [];
    }
  }

  /** Trimming cuts blanks, and only blanks, off both ends. */
  lemma TrimCutsBlanks(s: Str)
    ensures exists before, after :: s == before + Trim(s) + after && Blank(before) && Blank(after)
    ensures Tight(Trim(s))
  {
    var before := TrimStartCuts(s);
    var after := TrimEndCuts(TrimStart(s));
    assert s == before + Trim(s) + after;
    if Trim(s) != [] { assert Trim(s)[0] == TrimStart(s)[0]; }
  }

  // ------------------------------------------------------------------ scanning

  /** The scanner's variables. */
  datatype Scanner = Scanner(
    rows: seq<seq<Str>>,
    row: seq<Str>,
    field: Str,
    quoted: bool,
    quotedField: bool,
    rowIsBlank: bool)

  const START := Scanner([], [], [], false, false, true)

  function PushField(s: Scanner): Scanner {
    var value := if s.quotedField then s.field else Trim(s.field);
    s.(row := s.row + [value],
       rowIsBlank := s.rowIsBlank && !s.quotedField && value == [],
       field := [],
       quotedField := false)
  }

  function PushRow(s: Scanner): Scanner {
    var t := PushField(s);
    t.(rows := if !t.rowIsBlank || s.row != [] then t.rows + [t.row] else t.rows, row := [], rowIsBlank := true)
  }

  /** Scans the rest of the text. */
  function Scan(s: Scanner, src: Str): Scanner
    decreases |src|
  {
    if src == [] then s
    else
      var ch := src[0];
      if s.quoted then
        if ch != QUOTE then Scan(s.(field := s.field + [ch]), src[1..])
        else if |src| > 1 && src[1] == QUOTE then Scan(s.(field := s.field + [QUOTE]), src[2..])
        else Scan(s.(quoted := false), src[1..])
      else if ch == QUOTE && Trim(s.field) == [] then
        Scan(s.(quoted := true, quotedField := true, field := []), src[1..])
      else if ch == COMMA then Scan(PushField(s), src[1..])
      else if ch == LF then Scan(PushRow(s), src[1..])
      else if ch != CR then Scan(s.(field := s.field + [ch]), src[1..])
      else Scan(s, src[1..])
  }

  function Parse(text: Str): seq<seq<Str>> {
    PushRow(Scan(START, text)).rows
  }

  method ParseCsv(src: Str) returns (rows: seq<seq<Str>>)
    ensures rows == Parse(src)
  {
    rows := [];
    var row: seq<Str>, field: Str := [], [];
    var quoted, quotedField, rowIsBlank := false, false, true;
    var i := 0;
    while i < |src|
      invariant 0 <= i <= |src|
      invariant Scan(Scanner(rows, row, field, quoted, quotedField, rowIsBlank), src[i..]) == Scan(START, src)
    {
      var ch := src[i];
      ghost var s := Scanner(rows, row, field, quoted, quotedField, rowIsBlank);
      assert src[i..][0] == ch && src[i..][1..] == src[i + 1..];
      if quoted {
        if ch != QUOTE {
          field := field + [ch];
        } else if i + 1 < |src| && src[i + 1] == QUOTE {
          assert src[i..][2..] == src[i + 2..];
          field := field + [QUOTE];
          i := i + 1;
        } else {
          quoted := false;
        }
        i := i + 1;
        continue;
      }
      if ch == QUOTE && Trim(field) == [] {
        quoted, quotedField, field := true, true, [];
      } else if ch == COMMA {
        row, field, quotedField, rowIsBlank := StoreField(row, field, quotedField, rowIsBlank, s);
      } else if ch == LF {
        rows := StoreRow(rows, row, field, quotedField, rowIsBlank, s);
        row, field, quotedField, rowIsBlank := [], [], false, true;
      } else if ch != CR {
        field := field + [ch];
      }
      i := i + 1;
    }
    rows := StoreRow(rows, row, field, quotedField, rowIsBlank,
                     Scanner(rows, row, field, quoted, quotedField, rowIsBlank));
  }

  /** The scanner `s` with its row variables as given. */
  ghost predicate Reads(s: Scanner, row: seq<Str>, field: Str, quotedField: bool, rowIsBlank: bool) {
    s.row == row && s.field == field && s.quotedField == quotedField && s.rowIsBlank == rowIsBlank
  }

  method StoreField(row: seq<Str>, field: Str, quotedField: bool, rowIsBlank: bool, ghost s: Scanner)
    returns (row': seq<Str>, field': Str, quotedField': bool, rowIsBlank': bool)
    requires Reads(s, row, field, quotedField, rowIsBlank)
    ensures Reads(PushField(s), row', field', quotedField', rowIsBlank')
  {
    var value := if quotedField then field else Trim(field);
    rowIsBlank' := rowIsBlank;
    if quotedField || value != [] {
      rowIsBlank' := false;
    }
    row', field', quotedField' := row + [value], [], false;
  }

  method StoreRow(rows: seq<seq<Str>>, row: seq<Str>, field: Str, quotedField: bool, rowIsBlank: bool, ghost s: Scanner)
    returns (rows': seq<seq<Str>>)
    requires s.rows == rows && Reads(s, row, field, quotedField, rowIsBlank)
    ensures rows' == PushRow(s).rows
  {
    var sawSeparator := |row| > 0;
    var row', field', quotedField', rowIsBlank' := StoreField(row, field, quotedField, rowIsBlank, s);
    rows' := rows;
    if !rowIsBlank' || sawSeparator {
      rows' := rows' + [row'];
    }
  }

  // ------------------------------------------------------------------ formatting

  predicate NeedsQuotes(f: Str) {
    f == [] || f != Trim(f) || QUOTE in f || COMMA in f || LF in f || CR in f
  }

  function Doubled(f: Str): Str {
    if f == [] then [] else (if f[0] == QUOTE then [QUOTE, QUOTE] else [f[0]]) + Doubled(f[1..])
  }

  function FormatField(f: Str): Str {
    if NeedsQuotes(f) then [QUOTE] + Doubled(f) + [QUOTE] else f
  }

  function FormatLine(fields: seq<Str>): Str {
    if fields == [] then []
    else if |fields| == 1 then FormatField(fields[0])
    else FormatField(fields[0]) + [COMMA] + FormatLine(fields[1..])
  }

  function FormatRows(rows: seq<seq<Str>>): Str {
    if rows == [] then []
    else if |rows| == 1 then FormatLine(rows[0])
    else FormatLine(rows[0]) + ([LF] + FormatRows(rows[1..]))
  }

  // ------------------------------------------------------------------ round trip

  /** What may follow a formatted field. */
  predicate FieldEnds(rest: Str) {
    rest == [] || rest[0] == COMMA || rest[0] == LF
  }

  lemma {:induction false} ScanQuoted(s: Scanner, f: Str, rest: Str)
    requires s.quoted && (rest == [] || rest[0] != QUOTE)
    ensures Scan(s, Doubled(f) + [QUOTE] + rest) == Scan(s.(field := s.field + f, quoted := false), rest)
    decreases |f|
  {
    var src := Doubled(f) + [QUOTE] + rest;
    if f == [] {
      assert src == [QUOTE] + rest && src[1..] == rest;
      assert s.field + f == s.field;
    } else {
      var more := Doubled(f[1..]) + [QUOTE] + rest;
      var t := s.(field := s.field + [f[0]]);
      if f[0] == QUOTE {
        assert src == [QUOTE, QUOTE] + more && src[2..] == more;
      } else {
        assert src == [f[0]] + more && src[1..] == more;
      }
      ScanQuoted(t, f[1..], rest);
      assert t.field + f[1..] == s.field + f;
    }
  }

  lemma {:induction false} ScanPlain(s: Scanner, f: Str, rest: Str)
    requires !s.quoted && QUOTE !in f && COMMA !in f && LF !in f && CR !in f
    ensures Scan(s, f + rest) == Scan(s.(field := s.field + f), rest)
    decreases |f|
  {
    if f == [] {
      assert f + rest == rest && s.field + f == s.field;
    } else {
      assert (f + rest)[1..] == f[1..] + rest;
      var t := s.(field := s.field + [f[0]]);
      ScanPlain(t, f[1..], rest);
      assert t.field + f[1..] == s.field + f;
    }
  }

  /** The scanner is between fields. */
  predicate AtField(s: Scanner) {
    s.field == [] && !s.quoted && !s.quotedField
  }

  /** A formatted field is read back whole, waiting to be pushed. */
  lemma ScanField(s: Scanner, f: Str, rest: Str)
    requires AtField(s) && FieldEnds(rest)
    ensures Scan(s, FormatField(f) + rest) == Scan(s.(field := f, quotedField := NeedsQuotes(f)), rest)
  {
    assert [] + f == f;
    if NeedsQuotes(f) {
      var src := FormatField(f) + rest;
      assert src[1..] == Doubled(f) + [QUOTE] + rest;
      ScanQuoted(s.(quoted := true, quotedField := true), f, rest);
    } else {
      ScanPlain(s, f, rest);
    }
  }

  lemma PushedField(s: Scanner, f: Str)
    requires AtField(s)
    ensures var t := PushField(s.(field := f, quotedField := NeedsQuotes(f)));
      AtField(t) && t.rows == s.rows && t.row == s.row + [f] && !t.rowIsBlank
  {}

  /** The field read and waiting to be pushed. */
  function Pending(s: Scanner, f: Str): Scanner {
    s.(field := f, quotedField := NeedsQuotes(f))
  }

  /** The scanner when a line's last field has been read. */
  function LineEnd(s: Scanner, fields: seq<Str>): Scanner
    requires fields != []
    decreases |fields|
  {
    if |fields| == 1 then Pending(s, fields[0])
    else LineEnd(PushField(Pending(s, fields[0])), fields[1..])
  }

  /** The first of several fields is read and pushed. */
  lemma ScanFirstField(s: Scanner, fields: seq<Str>, rest: Str)
    requires AtField(s) && |fields| > 1
    ensures Scan(s, FormatLine(fields) + rest)
         == Scan(PushField(Pending(s, fields[0])), FormatLine(fields[1..]) + rest)
  {
    var f := fields[0];
    var more := FormatLine(fields[1..]) + rest;
    assert FormatLine(fields) + rest == FormatField(f) + ([COMMA] + more);
    ScanField(s, f, [COMMA] + more);
    AfterComma(Pending(s, f), more);
  }

  lemma {:induction false} ScanLine(s: Scanner, fields: seq<Str>, rest: Str)
    requires AtField(s) && fields != [] && (rest == [] || rest[0] == LF)
    ensures Scan(s, FormatLine(fields) + rest) == Scan(LineEnd(s, fields), rest)
    decreases |fields|
  {
    if |fields| == 1 {
      ScanField(s, fields[0], rest);
    } else {
      ScanFirstField(s, fields, rest);
      PushedField(s, fields[0]);
      ScanLine(PushField(Pending(s, fields[0])), fields[1..], rest);
    }
  }

  lemma AfterComma(t: Scanner, rest: Str)
    requires !t.quoted
    ensures Scan(t, [COMMA] + rest) == Scan(PushField(t), rest)
  {
    assert ([COMMA] + rest)[1..] == rest;
  }

  lemma AfterNewline(t: Scanner, rest: Str)
    requires !t.quoted
    ensures Scan(t, [LF] + rest) == Scan(PushRow(t), rest)
  {
    assert ([LF] + rest)[1..] == rest;
  }

  /** Pushing a formatted line's row appends exactly its fields. */
  lemma {:induction false} LineEndPushes(s: Scanner, fields: seq<Str>)
    requires AtField(s) && fields != []
    ensures !LineEnd(s, fields).quoted
    ensures PushRow(LineEnd(s, fields)) == Scanner(s.rows + [s.row + fields], [], [], false, false, true)
    decreases |fields|
  {
    var f := fields[0];
    PushedField(s, f);
    if |fields| == 1 {
      assert fields == [f];
    } else {
      var next := PushField(Pending(s, f));
      LineEndPushes(next, fields[1..]);
      assert next.row + fields[1..] == s.row + fields;
    }
  }

  predicate NonEmptyRows(rows: seq<seq<Str>>) {
    forall i | 0 <= i < |rows| :: rows[i] != []
  }

  /** The scanner between lines, `rows` read. */
  function AtLine(rows: seq<seq<Str>>): Scanner {
    Scanner(rows, [], [], false, false, true)
  }

  /** The rows that hold a cell, in order. */
  function WithCells(rows: seq<seq<Str>>): seq<seq<Str>> {
    if rows == [] then [] else Kept(rows[0]) + WithCells(rows[1..])
  }

  function Kept(row: seq<Str>): seq<seq<Str>> {
    if row == [] then [] else [row]
  }

  lemma {:induction false} WithCellsKeepsAllIff(rows: seq<seq<Str>>)
    ensures |WithCells(rows)| <= |rows|
    ensures WithCells(rows) == rows <==> NonEmptyRows(rows)
  {
    if rows != [] {
      WithCellsKeepsAllIff(rows[1..]);
      if rows[0] != [] {
        assert NonEmptyRows(rows[1..]) ==> NonEmptyRows(rows);
        assert WithCells(rows)[1..] == WithCells(rows[1..]);
      }
    }
  }

  /** A line is read into a row, a blank one into nothing. */
  lemma ScanOneRow(rows: seq<seq<Str>>, fields: seq<Str>, more: Str)
    ensures Scan(AtLine(rows), FormatLine(fields) + ([LF] + more)) == Scan(AtLine(rows + Kept(fields)), more)
  {
    var s := AtLine(rows);
    if fields == [] {
      assert FormatLine(fields) + ([LF] + more) == [LF] + more && rows + [] == rows;
      AfterNewline(s, more);
      assert PushRow(s) == s;
    } else {
      ScanCells(rows, fields, more);
    }
  }

  lemma ScanCells(rows: seq<seq<Str>>, fields: seq<Str>, more: Str)
    requires fields != []
    ensures Scan(AtLine(rows), FormatLine(fields) + ([LF] + more)) == Scan(AtLine(rows + [fields]), more)
  {
    var s := AtLine(rows);
    ScanLine(s, fields, [LF] + more);
    LineEndPushes(s, fields);
    assert s.row + fields == fields;
    AfterNewline(LineEnd(s, fields), more);
  }

  lemma ScanLastRow(rows: seq<seq<Str>>, fields: seq<Str>)
    ensures PushRow(Scan(AtLine(rows), FormatLine(fields))).rows == rows + Kept(fields)
  {
    var s := AtLine(rows);
    if fields == [] {
      assert PushRow(s) == s;
    } else {
      assert FormatLine(fields) + [] == FormatLine(fields);
      ScanLine(s, fields, []);
      LineEndPushes(s, fields);
      assert s.row + fields == fields;
    }
  }

  lemma Associate<T>(a: seq<T>, b: seq<T>, c: seq<T>)
    ensures a + b + c == a + (b + c)
  {}

  lemma {:induction false} ScanRows(read: seq<seq<Str>>, rows: seq<seq<Str>>)
    requires rows != []
    ensures PushRow(Scan(AtLine(read), FormatRows(rows))).rows == read + WithCells(rows)
    decreases |rows|
  {
    if |rows| == 1 {
      ScanLastRow(read, rows[0]);
      assert WithCells(rows[1..]) == [] && Kept(rows[0]) + [] == Kept(rows[0]);
    } else {
      ScanOneRow(read, rows[0], FormatRows(rows[1..]));
      ScanRows(read + Kept(rows[0]), rows[1..]);
      Associate(read, Kept(rows[0]), WithCells(rows[1..]));
    }
  }

  /** Parsing what was formatted gives back exactly the rows with a cell, whatever the cells hold. */
  lemma FormatThenParse(rows: seq<seq<Str>>)
    ensures Parse(FormatRows(rows)) == WithCells(rows)
    ensures Parse(FormatRows(rows)) == rows <==> NonEmptyRows(rows)
  {
    if rows != [] {
      ScanRows([], rows);
    }
    WithCellsKeepsAllIff(rows);
  }

  lemma {:induction false} ScanKeepsRowsNonEmpty(s: Scanner, src: Str)
    requires NonEmptyRows(s.rows)
    ensures NonEmptyRows(Scan(s, src).rows)
    decreases |src|
  {
    if src != [] {
      var ch := src[0];
      if s.quoted {
        if ch != QUOTE { ScanKeepsRowsNonEmpty(s.(field := s.field + [ch]), src[1..]); }
        else if |src| > 1 && src[1] == QUOTE { ScanKeepsRowsNonEmpty(s.(field := s.field + [QUOTE]), src[2..]); }
        else { ScanKeepsRowsNonEmpty(s.(quoted := false), src[1..]); }
      } else if ch == QUOTE && Trim(s.field) == [] {
        ScanKeepsRowsNonEmpty(s.(quoted := true, quotedField := true, field := []), src[1..]);
      } else if ch == COMMA { ScanKeepsRowsNonEmpty(PushField(s), src[1..]);
      } else if ch == LF { ScanKeepsRowsNonEmpty(PushRow(s), src[1..]);
      } else if ch != CR { ScanKeepsRowsNonEmpty(s.(field := s.field + [ch]), src[1..]);
      } else { ScanKeepsRowsNonEmpty(s, src[1..]); }
    }
  }

  /** Every parsed row has a cell, so parsing, formatting and parsing again changes nothing. */
  lemma ParseFormatParse(text: Str)
    ensures NonEmptyRows(Parse(text)) && Parse(FormatRows(Parse(text))) == Parse(text)
  {
    ScanKeepsRowsNonEmpty(START, text);
    FormatThenParse(Parse(text));
  }

  /** A single line, as the header field holds: its first row, or no cells at all. */
  function SplitLine(line: Str): seq<Str> {
    var rows := Parse(line);
    if rows != [] then rows[0] else []
  }

  lemma FormatThenSplit(fields: seq<Str>)
    ensures SplitLine(FormatLine(fields)) == fields
  {
    if fields == [] {
      assert PushRow(START).rows == [];
    } else {
      FormatThenParse([fields]);
      assert FormatRows([fields]) == FormatLine(fields);
    }
  }
}
