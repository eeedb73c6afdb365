/**
  The texts that formatting writes: exactly those on which parsing and then
  formatting again changes nothing.
 */
module CsvCanonical {
  import opened Csv

  // ------------------------------------------------------------------ recognising canonical text

  /** A field starts here: quoted or plain, each as its content calls for, with what follows it. */
  predicate FieldAt(s: Str)
    decreases |s|, 2
  {
    s != [] && if s[0] == QUOTE then InQuotes(s[1..], []) else InPlain(s, [])
  }

  /** A plain field of which `f` has been read: it must not need quotes. */
  predicate InPlain(s: Str, f: Str)
    decreases |s|, 1
  {
    if s == [] || s[0] == COMMA || s[0] == LF then !NeedsQuotes(f) && FieldEndsAt(s)
    else InPlain(s[1..], f + [s[0]])
  }

  /** A quoted field of which `f` has been read: it must be closed, and need its quotes. */
  predicate InQuotes(s: Str, f: Str)
    decreases |s|, 0
  {
    && s != []
    && if s[0] != QUOTE then InQuotes(s[1..], f + [s[0]])
       else if |s| > 1 && s[1] == QUOTE then InQuotes(s[2..], f + [QUOTE])
       else NeedsQuotes(f) && FieldEndsAt(s[1..])
  }

  /** The text ends, or a separator and another field follow. */
  predicate FieldEndsAt(s: Str)
    decreases |s|, 0
  {
    s == [] || ((s[0] == COMMA || s[0] == LF) && FieldAt(s[1..]))
  }

  /**
    No field quoted without need or unquoted in spite of it, no stray carriage
    return, no blank line, nothing after the last field.
   */
  predicate Canonical(text: Str) {
    text == [] || FieldAt(text)
  }

  // ------------------------------------------------------------------ formatting writes canonical text

  lemma {:induction false} PlainReads(f: Str, read: Str, rest: Str)
    requires COMMA !in f && LF !in f && FieldEnds(rest)
    ensures InPlain(f + rest, read) <==> !NeedsQuotes(read + f) && FieldEndsAt(rest)
    decreases |f|
  {
    if f == [] {
      assert f + rest == rest && read + f == read;
    } else {
      assert (f + rest)[1..] == f[1..] + rest;
      PlainReads(f[1..], read + [f[0]], rest);
      assert read + [f[0]] + f[1..] == read + f;
    }
  }

  lemma {:induction false} QuotedReads(f: Str, read: Str, rest: Str)
    requires FieldEnds(rest)
    ensures InQuotes(Doubled(f) + [QUOTE] + rest, read) <==> NeedsQuotes(read + f) && FieldEndsAt(rest)
    decreases |f|
  {
    var s := Doubled(f) + [QUOTE] + rest;
    if f == [] {
      assert s == [QUOTE] + rest && s[1..] == rest && read + f == read;
    } else {
      var more := Doubled(f[1..]) + [QUOTE] + rest;
      if f[0] == QUOTE {
        assert s == [QUOTE, QUOTE] + more && s[2..] == more;
      } else {
        assert s == [f[0]] + more && s[1..] == more;
      }
      QuotedReads(f[1..], read + [f[0]], rest);
      assert read + [f[0]] + f[1..] == read + f;
    }
  }

  lemma QuotedField(f: Str, rest: Str)
    requires FieldEnds(rest) && NeedsQuotes(f)
    ensures FieldAt([QUOTE] + Doubled(f) + [QUOTE] + rest) <==> FieldEndsAt(rest)
  {
    var s := [QUOTE] + Doubled(f) + [QUOTE] + rest;
    assert s[1..] == Doubled(f) + [QUOTE] + rest;
    QuotedReads(f, [], rest);
    assert [] + f == f;
  }

  lemma PlainField(f: Str, rest: Str)
    requires FieldEnds(rest) && !NeedsQuotes(f)
    ensures FieldAt(f + rest) <==> FieldEndsAt(rest)
  {
    assert (f + rest)[0] == f[0];
    PlainReads(f, [], rest);
    assert [] + f == f;
  }

  /** A formatted field is a field, whatever rightly follows it. */
  lemma FormattedField(f: Str, rest: Str)
    requires FieldEnds(rest)
    ensures FieldAt(FormatField(f) + rest) <==> FieldEndsAt(rest)
  {
    if NeedsQuotes(f) { QuotedField(f, rest); } else { PlainField(f, rest); }
  }

  /** A field after a separator. */
  lemma AfterSeparator(separator: CodeUnit, rest: Str)
    requires separator == COMMA || separator == LF
    ensures FieldEndsAt([separator] + rest) <==> FieldAt(rest)
  {
    assert ([separator] + rest)[1..] == rest;
  }

  lemma LineSplits(fields: seq<Str>, rest: Str)
    requires |fields| > 1
    ensures FormatLine(fields) + rest == FormatField(fields[0]) + ([COMMA] + (FormatLine(fields[1..]) + rest))
  {}

  lemma FieldThenComma(f: Str, more: Str)
    requires FieldAt(more)
    ensures FieldAt(FormatField(f) + ([COMMA] + more))
  {
    AfterSeparator(COMMA, more);
    FormattedField(f, [COMMA] + more);
  }

  lemma {:induction false} FormattedLine(fields: seq<Str>, rest: Str)
    requires fields != [] && (rest == [] || rest[0] == LF) && FieldEndsAt(rest)
    ensures FieldAt(FormatLine(fields) + rest)
    decreases |fields|
  {
    if |fields| == 1 {
      FormattedField(fields[0], rest);
    } else {
      FormattedLine(fields[1..], rest);
      FieldThenComma(fields[0], FormatLine(fields[1..]) + rest);
      LineSplits(fields, rest);
    }
  }

  lemma {:induction false} FormattedRows(rows: seq<seq<Str>>)
    requires NonEmptyRows(rows) && rows != []
    ensures FieldAt(FormatRows(rows))
    decreases |rows|
  {
    if |rows| == 1 {
      FormattedLine(rows[0], []);
      assert FormatLine(rows[0]) + [] == FormatLine(rows[0]);
    } else {
      FormattedRows(rows[1..]);
      AfterSeparator(LF, FormatRows(rows[1..]));
      FormattedLine(rows[0], [LF] + FormatRows(rows[1..]));
    }
  }

  // ------------------------------------------------------------------ canonical text is formatted

  lemma {:induction false} SplitPlain(s: Str, read: Str) returns (f: Str, rest: Str)
    requires InPlain(s, read) && COMMA !in read && LF !in read
    ensures read + s == f + rest && !NeedsQuotes(f) && FieldEndsAt(rest) && |rest| <= |s|
    decreases |s|
  {
    if s == [] || s[0] == COMMA || s[0] == LF {
      f, rest := read, s;
    } else {
      f, rest := SplitPlain(s[1..], read + [s[0]]);
      assert read + [s[0]] + s[1..] == read + s;
    }
  }

  lemma DoubledAppend(f: Str, c: CodeUnit)
    ensures Doubled(f + [c]) == Doubled(f) + if c == QUOTE then [QUOTE, QUOTE] else [c]
  {
    if f == [] {
      assert f + [c] == [c] && [c][1..] == [];
    } else {
      assert (f + [c])[1..] == f[1..] + [c];
      DoubledAppend(f[1..], c);
    }
  }

  lemma {:induction false} SplitQuoted(s: Str, read: Str) returns (f: Str, rest: Str)
    requires InQuotes(s, read)
    ensures Doubled(read) + s == Doubled(f) + [QUOTE] + rest && NeedsQuotes(f) && FieldEndsAt(rest) && |rest| < |s|
    decreases |s|
  {
    if s[0] != QUOTE {
      f, rest := SplitQuoted(s[1..], read + [s[0]]);
      DoubledAppend(read, s[0]);
      assert Doubled(read) + [s[0]] + s[1..] == Doubled(read) + s;
    } else if |s| > 1 && s[1] == QUOTE {
      f, rest := SplitQuoted(s[2..], read + [QUOTE]);
      DoubledAppend(read, QUOTE);
      assert Doubled(read) + [QUOTE, QUOTE] + s[2..] == Doubled(read) + s;
    } else {
      f, rest := read, s[1..];
      assert s == [QUOTE] + rest;
    }
  }

  lemma SplitQuotedField(s: Str) returns (f: Str, rest: Str)
    requires FieldAt(s) && s[0] == QUOTE
    ensures s == [QUOTE] + Doubled(f) + [QUOTE] + rest && NeedsQuotes(f) && FieldEndsAt(rest) && |rest| < |s|
  {
    f, rest := SplitQuoted(s[1..], []);
    assert s == [QUOTE] + s[1..] && Doubled([]) + s[1..] == s[1..];
    assert [QUOTE] + (Doubled(f) + [QUOTE] + rest) == [QUOTE] + Doubled(f) + [QUOTE] + rest;
  }

  lemma SplitPlainField(s: Str) returns (f: Str, rest: Str)
    requires FieldAt(s) && s[0] != QUOTE
    ensures s == f + rest && !NeedsQuotes(f) && FieldEndsAt(rest) && |rest| < |s|
  {
    f, rest := SplitPlain(s, []);
    assert [] + s == s;
    assert f != [];
  }

  /** A field that starts here is a formatted field. */
  lemma SplitField(s: Str) returns (f: Str, rest: Str)
    requires FieldAt(s)
    ensures s == FormatField(f) + rest && FieldEndsAt(rest) && |rest| < |s|
  {
    if s[0] == QUOTE {
      f, rest := SplitQuotedField(s);
    } else {
      f, rest := SplitPlainField(s);
    }
  }

  lemma RowFirst(row: seq<Str>, rows: seq<seq<Str>>)
    requires rows != []
    ensures FormatRows([row] + rows) == FormatLine(row) + ([LF] + FormatRows(rows))
  {
    assert ([row] + rows)[1..] == rows;
  }

  lemma FieldFirst(f: Str, fields: seq<Str>)
    requires fields != []
    ensures FormatLine([f] + fields) == FormatField(f) + [COMMA] + FormatLine(fields)
  {
    assert ([f] + fields)[1..] == fields;
  }

  lemma OneField(f: Str)
    ensures FormatLine([f]) == FormatField(f) && FormatRows([[f]]) == FormatField(f)
  {}

  lemma Regroup(a: Str, b: Str, c: Str, d: Str)
    ensures a + b + c + d == a + (b + (c + d)) && a + b + c == a + (b + c)
  {}

  /** A field before a line's first. */
  lemma FieldJoins(f: Str, line: seq<Str>, rows: seq<seq<Str>>)
    requires line != [] && rows != []
    ensures FormatRows([[f] + line] + rows) == FormatField(f) + ([COMMA] + FormatRows([line] + rows))
  {
    FieldFirst(f, line);
    RowFirst([f] + line, rows);
    RowFirst(line, rows);
    Regroup(FormatField(f), [COMMA], FormatLine(line), [LF] + FormatRows(rows));
  }

  lemma FieldJoinsLast(f: Str, line: seq<Str>)
    requires line != []
    ensures FormatRows([[f] + line]) == FormatField(f) + ([COMMA] + FormatRows([line]))
  {
    FieldFirst(f, line);
    Regroup(FormatField(f), [COMMA], FormatLine(line), []);
  }

  lemma NonEmptyJoins(f: Str, rows: seq<seq<Str>>)
    requires rows != [] && NonEmptyRows(rows)
    ensures NonEmptyRows([[f]] + rows) && NonEmptyRows([[f] + rows[0]] + rows[1..])
  {}

  lemma JoinFields(f: Str, rows: seq<seq<Str>>, separator: CodeUnit) returns (all: seq<seq<Str>>)
    requires rows != [] && NonEmptyRows(rows) && (separator == COMMA || separator == LF)
    ensures all != [] && NonEmptyRows(all) && FormatRows(all) == FormatField(f) + ([separator] + FormatRows(rows))
  {
    NonEmptyJoins(f, rows);
    if separator == LF {
      all := [[f]] + rows;
      RowFirst([f], rows);
      OneField(f);
    } else {
      all := [[f] + rows[0]] + rows[1..];
      assert rows == [rows[0]] + rows[1..];
      if |rows| > 1 { FieldJoins(f, rows[0], rows[1..]); } else { FieldJoinsLast(f, rows[0]); }
    }
  }

  lemma {:induction false} RowsOf(s: Str) returns (rows: seq<seq<Str>>)
    requires FieldAt(s)
    ensures rows != [] && NonEmptyRows(rows) && FormatRows(rows) == s
    decreases |s|
  {
    var f, rest := SplitField(s);
    if rest == [] {
      rows := [[f]];
      OneField(f);
      assert FormatField(f) + [] == FormatField(f);
    } else {
      var more := RowsOf(rest[1..]);
      rows := JoinFields(f, more, rest[0]);
      assert rest == [rest[0]] + rest[1..];
    }
  }

  // ------------------------------------------------------------------ the exact condition

  /** Parsing and formatting again gives the text back exactly when it is canonical. */
  lemma ParseThenFormatIff(text: Str)
    ensures FormatRows(Parse(text)) == text <==> Canonical(text)
  {
    var rows := Parse(text);
    ParseFormatParse(text);
    if FormatRows(rows) == text && rows != [] {
      FormattedRows(rows);
    }
    if FieldAt(text) {
      var written := RowsOf(text);
      FormatThenParse(written);
    }
  }

  /** A lone carriage return, a blank line and needless quotes do not come back. */
  lemma NotCanonical()
    ensures FormatRows(Parse([CR])) != [CR]
    ensures FormatRows(Parse([LF])) != [LF]
    ensures FormatRows(Parse([QUOTE, 0x61, QUOTE])) != [QUOTE, 0x61, QUOTE]
  {
    ParseThenFormatIff([CR]);
    ParseThenFormatIff([LF]);
    var quoted := [QUOTE, 0x61, QUOTE];
    ParseThenFormatIff(quoted);
    LoneReturn();
    BlankLine();
    NeedlessQuotes(quoted);
  }

  lemma LoneReturn()
    ensures !Canonical([CR])
  {
    assert [CR][1..] == [] && [] + [CR] == [CR];
    assert CR in [CR];
    assert InPlain([CR], []) == InPlain([], [CR]);
  }

  lemma BlankLine()
    ensures !Canonical([LF])
  {
    assert NeedsQuotes([]);
    assert !InPlain([LF], []);
  }

  lemma NeedlessQuotes(quoted: Str)
    requires quoted == [QUOTE, 0x61, QUOTE]
    ensures !Canonical(quoted)
  {
    assert quoted[1..] == [0x61, QUOTE] && [0x61, QUOTE][1..] == [QUOTE] && [] + [0x61] == [0x61];
    assert Trim([0x61]) == [0x61];
    assert InQuotes(quoted[1..], []) == InQuotes([QUOTE], [0x61]);
  }
}
