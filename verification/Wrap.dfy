/**
  Word wrapping: text is split at newlines, then each paragraph's words are
  packed greedily into lines. No other way of breaking the paragraph between
  words, with every line fitting or a single word, uses fewer lines.
 */
module Wrap {
  import opened Fonts

  // ------------------------------------------------------------- splitting

  /** unicode.IsSpace. */
  predicate IsSpace(c: char) {
    || '\t' <= c <= '\r' || c == ' ' || c == '\U{85}' || c == '\U{A0}' || c == '\U{1680}'
    || '\U{2000}' <= c <= '\U{200A}' || c == '\U{2028}' || c == '\U{2029}' || c == '\U{202F}'
    || c == '\U{205F}' || c == '\U{3000}'
  }

  predicate IsWord(w: string) {
    w != "" && forall i | 0 <= i < |w| :: !IsSpace(w[i])
  }

  /** Length of the run of non-space runes `s` begins with. */
  function WordLength(s: string): (n: nat)
    ensures n <= |s| && forall i | 0 <= i < n :: !IsSpace(s[i])
    ensures n < |s| ==> IsSpace(s[n])
  {
    if s == "" || IsSpace(s[0]) then 0 else 1 + WordLength(s[1..])
  }

  /** strings.Fields. */
  function Fields(s: string): (words: seq<string>)
    ensures forall i | 0 <= i < |words| :: IsWord(words[i])
  {
    if s == "" then []
    else if IsSpace(s[0]) then Fields(s[1..])
    else
      var n := WordLength(s);
      [s[..n]] + Fields(s[n..])
  }

  /** strings.Split on "\n". */
  function Paragraphs(s: string): (ps: seq<string>)
    ensures ps != []
  {
    if s == "" then [""]
    else if s[0] == '\n' then [""] + Paragraphs(s[1..])
    else
      var rest := Paragraphs(s[1..]);
      [[s[0]] + rest[0]] + rest[1..]
  }

  /** The paragraphs joined by newlines are the text, and none holds a newline. */
  function JoinLines(ps: seq<string>): string {
    if ps == [] then "" else if |ps| == 1 then ps[0] else ps[0] + "\n" + JoinLines(ps[1..])
  }

  lemma {:induction false} ParagraphsSplit(s: string)
    ensures JoinLines(Paragraphs(s)) == s
    ensures forall i | 0 <= i < |Paragraphs(s)| :: '\n' !in Paragraphs(s)[i]
  {
    if s != "" {
      ParagraphsSplit(s[1..]);
      var rest := Paragraphs(s[1..]);
      assert s == [s[0]] + s[1..];
      if s[0] == '\n' {
        assert ([""] + rest)[1..] == rest;
      } else {
        var ps := [[s[0]] + rest[0]] + rest[1..];
        assert ps[1..] == rest[1..];
        assert [s[0]] + (rest[0] + "\n" + JoinLines(rest[1..])) == [s[0]] + rest[0] + "\n" + JoinLines(rest[1..]);
      }
    }
  }

  /** strings.Join with one space. */
  function Join(words: seq<string>): string {
    if words == [] then ""
    else if |words| == 1 then words[0]
    else Join(words[..|words| - 1]) + " " + words[|words| - 1]
  }

  function Flatten<T>(groups: seq<seq<T>>): seq<T> {
    if groups == [] then [] else groups[0] + Flatten(groups[1..])
  }

  lemma {:induction false} JoinConcat(a: seq<string>, b: seq<string>)
    requires a != [] && b != []
    ensures Join(a + b) == Join(a) + " " + Join(b)
    decreases |b|
  {
    assert (a + b)[..|a + b| - 1] == a + b[..|b| - 1];
    if |b| == 1 {
      assert a + b[..0] == a;
    } else {
      JoinConcat(a, b[..|b| - 1]);
      assert Join(a) + " " + Join(b[..|b| - 1]) + " " + b[|b| - 1]
          == Join(a) + " " + (Join(b[..|b| - 1]) + " " + b[|b| - 1]);
    }
  }

  lemma WordLengthOfWord(w: string, rest: string)
    requires IsWord(w) && (rest == "" || IsSpace(rest[0]))
    ensures WordLength(w + rest) == |w|
  {
    var all := w + rest;
    assert forall i | 0 <= i < |w| :: all[i] == w[i];
    assert rest != "" ==> all[|w|] == rest[0];
  }

  /** Splitting a line gives back the words it was joined from. */
  lemma {:induction false} FieldsOfJoin(words: seq<string>)
    requires forall i | 0 <= i < |words| :: IsWord(words[i])
    ensures Fields(Join(words)) == words
    decreases |words|
  {
    if |words| == 1 {
      var w := words[0];
      WordLengthOfWord(w, "");
      assert w + "" == w && w[..|w|] == w && w[|w|..] == "";
      assert words == [w];
    } else if |words| > 1 {
      var w, tail := words[0], words[1..];
      assert words == [w] + tail;
      JoinConcat([w], tail);
      var rest := " " + Join(tail);
      assert Join(words) == w + rest;
      WordLengthOfWord(w, rest);
      assert (w + rest)[..|w|] == w && (w + rest)[|w|..] == rest;
      assert rest[1..] == Join(tail);
      FieldsOfJoin(tail);
    }
  }

  // ------------------------------------------------------------- greedy packing

  /** Where and how wide: the printable width, the font and the size it is scaled by. */
  datatype Measurer = Measurer(font: Font, size: nat, width: int) {
    predicate Within(words: seq<string>) {
      font.Measure(Join(words)) * size <= width
    }

    /** What a line may hold: words that fit, or one word however wide. */
    predicate Allows(words: seq<string>) {
      |words| == 1 || (|words| > 1 && Within(words))
    }
  }

  /** The lines packed from an open line and the words still to place. */
  function Pack(m: Measurer, line: seq<string>, rest: seq<string>): seq<seq<string>>
    decreases |rest|
  {
    if rest == [] then [line]
    else if m.Within(line + [rest[0]]) then Pack(m, line + [rest[0]], rest[1..])
    else [line] + Pack(m, [rest[0]], rest[1..])
  }

  function Lines(groups: seq<seq<string>>): (lines: seq<string>)
    ensures |lines| == |groups|
  {
    if groups == [] then [] else [Join(groups[0])] + Lines(groups[1..])
  }

  /** The words of each line; a blank paragraph has the one empty line. */
  function ParagraphGroups(m: Measurer, p: string): seq<seq<string>> {
    var words := Fields(p);
    if words == [] then [[]] else Pack(m, [words[0]], words[1..])
  }

  function ParagraphLines(m: Measurer, p: string): seq<string> {
    Lines(ParagraphGroups(m, p))
  }

  lemma {:induction false} LinesConcat(a: seq<seq<string>>, b: seq<seq<string>>)
    ensures Lines(a + b) == Lines(a) + Lines(b)
  {
    if a == [] {
      assert a + b == b;
    } else {
      assert (a + b)[1..] == a[1..] + b;
      LinesConcat(a[1..], b);
    }
  }

  method WrapParagraph(p: string, width: int, f: Font, size: nat) returns (lines: seq<string>)
    ensures lines == ParagraphLines(Measurer(f, size, width), p)
  {
    var words := Fields(p);
    if |words| == 0 {
      return [""];
    }
    ghost var m := Measurer(f, size, width);
    ghost var group := [words[0]];
    lines := [];
    var line := words[0];
    ghost var done := [];
    for i := 1 to |words|
      invariant group != [] && line == Join(group) && lines == Lines(done)
      invariant done + Pack(m, group, words[i..]) == Pack(m, [words[0]], words[1..])
    {
      var w := words[i];
      var candidate := line + " " + w;
      assert words[i..][0] == w && words[i..][1..] == words[i + 1..];
      assert (group + [w])[..|group|] == group;
      if f.Measure(candidate) * size <= width {
        line := candidate;
        group := group + [w];
        continue;
      }
      LinesConcat(done, [group]);
      assert Lines([group]) == [line];
      done := done + [group];
      lines := lines + [line];
      line := w;
      group := [w];
    }
    assert words[|words|..] == [];
    LinesConcat(done, [group]);
    assert Lines([group]) == [line];
    lines := lines + [line];
  }

  // ------------------------------------------------------------- what packing gives

  ghost predicate IsBreaking(m: Measurer, groups: seq<seq<string>>, words: seq<string>) {
    Flatten(groups) == words && forall i | 0 <= i < |groups| :: m.Allows(groups[i])
  }

  lemma {:induction false} PackBreaks(m: Measurer, line: seq<string>, rest: seq<string>)
    requires m.Allows(line)
    ensures IsBreaking(m, Pack(m, line, rest), line + rest)
    decreases |rest|
  {
    if rest == [] {
      assert Flatten([line]) == line + Flatten([line][1..]);
    } else if m.Within(line + [rest[0]]) {
      assert line + rest == line + [rest[0]] + rest[1..];
      PackBreaks(m, line + [rest[0]], rest[1..]);
    } else {
      PackBreaks(m, [rest[0]], rest[1..]);
      var tail := Pack(m, [rest[0]], rest[1..]);
      assert ([line] + tail)[1..] == tail;
      assert rest == [rest[0]] + rest[1..];
    }
  }

  /**
    The lines of a paragraph with words: every line fits or is one word, and
    reading the lines' words back in order gives exactly the paragraph's words.
   */
  lemma WrapKeepsWords(m: Measurer, p: string)
    requires Fields(p) != []
    ensures IsBreaking(m, ParagraphGroups(m, p), Fields(p))
    ensures var lines := ParagraphLines(m, p);
      && (forall i | 0 <= i < |lines| :: Fields(lines[i]) == ParagraphGroups(m, p)[i])
      && FieldsOfAll(lines) == Fields(p)
  {
    var words := Fields(p);
    PackBreaks(m, [words[0]], words[1..]);
    assert [words[0]] + words[1..] == words;
    ReadBack(m, ParagraphGroups(m, p), words);
  }

  function FieldsOfAll(lines: seq<string>): seq<string> {
    if lines == [] then [] else Fields(lines[0]) + FieldsOfAll(lines[1..])
  }

  lemma {:induction false} ReadBack(m: Measurer, groups: seq<seq<string>>, words: seq<string>)
    requires Flatten(groups) == words && forall i | 0 <= i < |words| :: IsWord(words[i])
    ensures var lines := Lines(groups);
      && (forall i | 0 <= i < |lines| :: Fields(lines[i]) == groups[i])
      && FieldsOfAll(lines) == words
    decreases |groups|
  {
    if groups != [] {
      var rest := Flatten(groups[1..]);
      assert forall i | 0 <= i < |groups[0]| :: groups[0][i] == words[i];
      assert forall i | 0 <= i < |rest| :: rest[i] == words[|groups[0]| + i];
      FieldsOfJoin(groups[0]);
      ReadBack(m, groups[1..], rest);
      var lines := Lines(groups);
      assert lines[1..] == Lines(groups[1..]);
    }
  }

  /** Words in the middle of a line never measure more than the line. */
  lemma InnerMeasures(f: Font, a: seq<string>, b: seq<string>, c: seq<string>)
    requires b != []
    ensures f.Measure(Join(b)) <= f.Measure(Join(a + b + c))
  {
    var ab := a + b;
    if a != [] {
      JoinConcat(a, b);
      f.MeasureConcat(Join(a) + " ", Join(b));
    } else {
      assert ab == b;
    }
    if c != [] {
      JoinConcat(ab, c);
      f.MeasureConcat(Join(ab), " " + Join(c));
      assert Join(ab) + (" " + Join(c)) == Join(ab) + " " + Join(c);
    } else {
      assert ab + c == ab;
    }
  }

  lemma ScaleMonotone(a: nat, b: nat, size: nat)
    requires a <= b
    ensures a * size <= b * size
  {}

  /** What the rival still fits on a line that ends like ours, we fit too. */
  lemma NextWordFits(m: Measurer, before: seq<string>, line: seq<string>, more: seq<string>)
    requires line != [] && more != [] && m.Allows(before + line + more)
    ensures m.Within(line + [more[0]])
    ensures before + (line + [more[0]]) + more[1..] == before + line + more
  {
    var w := more[0];
    assert before + (line + [w]) + more[1..] == before + line + more;
    InnerMeasures(m.font, before, line + [w], more[1..]);
    ScaleMonotone(m.font.Measure(Join(line + [w])), m.font.Measure(Join(before + line + more)), m.size);
  }

  /**
    Greedy packing stays ahead. The rival has `open` on its current line, will
    still put `more` there and then the lines `tail`. When the rival has as many
    lines so far (`even`), the packed line is the end of the rival's.
   */
  lemma {:induction false} StaysAhead(m: Measurer, line: seq<string>, before: seq<string>, more: seq<string>,
                                      tail: seq<seq<string>>, even: bool)
    requires line != [] && (more != [] ==> m.Allows((if even then before + line else before) + more))
    requires !even ==> before != []
    requires forall i | 0 <= i < |tail| :: m.Allows(tail[i])
    ensures |Pack(m, line, more + Flatten(tail))| <= |tail| + (if even then 1 else 2)
    decreases |more + Flatten(tail)|, |tail|
  {
    var rest := more + Flatten(tail);
    if more == [] {
      if tail != [] {
        // The rival opens its next line with the next word.
        var w, m' := tail[0][0], tail[0][1..];
        assert rest == [w] + (m' + Flatten(tail[1..]));
        assert [w] + m' == tail[0] && [] + [w] == [w];
        NextLine(m, line, w, m', tail[1..]);
      }
    } else {
      var w, m' := more[0], more[1..];
      assert rest[0] == w && rest[1..] == m' + Flatten(tail);
      var open := if even then before + line else before;
      assert open + more == open + [w] + m';
      if even {
        NextWordFits(m, before, line, more);
        StaysAhead(m, line + [w], before, m', tail, true);
      } else if m.Within(line + [w]) {
        StaysAhead(m, line + [w], before + [w], m', tail, false);
      } else {
        assert before + [w] + m' == before + more;
        StaysAhead(m, [w], before, m', tail, true);
      }
    }
  }

  /** The step in which the rival begins a line with `w`. */
  lemma NextLine(m: Measurer, line: seq<string>, w: string, more: seq<string>, tail: seq<seq<string>>)
    requires line != [] && m.Allows([w] + more)
    requires forall i | 0 <= i < |tail| :: m.Allows(tail[i])
    ensures |Pack(m, line, [w] + (more + Flatten(tail)))| <= |tail| + 2
    decreases |more + Flatten(tail)|, |tail| + 1
  {
    var rest := [w] + (more + Flatten(tail));
    assert rest[0] == w && rest[1..] == more + Flatten(tail);
    if m.Within(line + [w]) {
      StaysAhead(m, line + [w], [w], more, tail, false);
    } else {
      assert [] + [w] == [w];
      StaysAhead(m, [w], [], more, tail, true);
    }
  }

  /** No breaking of a paragraph's words uses fewer lines. */
  lemma WrapUsesFewestLines(m: Measurer, p: string, rival: seq<seq<string>>)
    requires Fields(p) != [] && IsBreaking(m, rival, Fields(p))
    ensures |ParagraphLines(m, p)| <= |rival|
  {
    var words := Fields(p);
    assert rival != [];
    RivalBegins(rival, words);
    var w, more := rival[0][0], rival[0][1..];
    assert [] + [w] == [w] && [w] + more == rival[0];
    StaysAhead(m, [w], [], more, rival[1..], true);
  }

  lemma RivalBegins(rival: seq<seq<string>>, words: seq<string>)
    requires rival != [] && rival[0] != [] && Flatten(rival) == words
    ensures words[0] == rival[0][0] && words[1..] == rival[0][1..] + Flatten(rival[1..])
  {
    assert words == [rival[0][0]] + (rival[0][1..] + Flatten(rival[1..]));
  }

  // ------------------------------------------------------------- whole text

  function WrapAll(m: Measurer, ps: seq<string>): seq<string> {
    if ps == [] then [] else ParagraphLines(m, ps[0]) + WrapAll(m, ps[1..])
  }

  /** A width of 0 or less means no wrapping: just the paragraphs. */
  function TextLines(content: string, width: int, f: Font, size: nat): seq<string> {
    if width <= 0 then Paragraphs(content)
    else WrapAll(Measurer(f, size, width), Paragraphs(content))
  }

  lemma {:induction false} WrapAllConcat(m: Measurer, a: seq<string>, b: seq<string>)
    ensures WrapAll(m, a + b) == WrapAll(m, a) + WrapAll(m, b)
  {
    if a == [] {
      assert a + b == b;
    } else {
      assert (a + b)[1..] == a[1..] + b;
      WrapAllConcat(m, a[1..], b);
    }
  }

  lemma {:induction false} FieldsConcat(a: seq<string>, b: seq<string>)
    ensures FieldsOfAll(a + b) == FieldsOfAll(a) + FieldsOfAll(b)
  {
    if a == [] {
      assert a + b == b;
    } else {
      assert (a + b)[1..] == a[1..] + b;
      FieldsConcat(a[1..], b);
    }
  }

  lemma FirstSpace(c: char, rest: string)
    requires IsSpace(c)
    ensures Fields([c] + rest) == Fields(rest)
  {
    assert ([c] + rest)[1..] == rest;
  }

  lemma FirstWord(w: string, rest: string)
    requires IsWord(w) && (rest == "" || IsSpace(rest[0]))
    ensures Fields(w + rest) == [w] + Fields(rest)
  {
    WordLengthOfWord(w, rest);
    assert (w + rest)[..|w|] == w && (w + rest)[|w|..] == rest;
  }

  /** What follows a word only lengthens the list of words after it. */
  lemma WordThen(w: string, words: seq<string>, more: seq<string>)
    ensures [w] + (words + more) == [w] + words + more
  {}

  /** No word reaches over a newline. */
  lemma {:induction false} FieldsAtNewline(a: string, b: string)
    ensures Fields(a + "\n" + b) == Fields(a) + Fields(b)
    decreases |a|
  {
    if a == "" {
      FirstSpace('\n', b);
      assert a + "\n" + b == ['\n'] + b;
    } else if IsSpace(a[0]) {
      FieldsAtNewline(a[1..], b);
      FirstSpace(a[0], a[1..] + "\n" + b);
      assert a + "\n" + b == [a[0]] + (a[1..] + "\n" + b);
    } else {
      var w, rest := a[..WordLength(a)], a[WordLength(a)..];
      FieldsAtNewline(rest, b);
      FirstWord(w, rest + "\n" + b);
      WordThen(w, Fields(rest), Fields(b));
      assert a + "\n" + b == w + (rest + "\n" + b);
    }
  }

  lemma {:induction false} FieldsOfParagraphs(ps: seq<string>)
    ensures FieldsOfAll(ps) == Fields(JoinLines(ps))
  {
    if |ps| == 1 {
      assert FieldsOfAll(ps[1..]) == [];
    } else if ps != [] {
      FieldsOfParagraphs(ps[1..]);
      FieldsAtNewline(ps[0], JoinLines(ps[1..]));
    }
  }

  lemma {:induction false} WrapAllKeepsWords(m: Measurer, ps: seq<string>)
    ensures FieldsOfAll(WrapAll(m, ps)) == FieldsOfAll(ps)
  {
    if ps != [] {
      WrapAllKeepsWords(m, ps[1..]);
      FieldsConcat(ParagraphLines(m, ps[0]), WrapAll(m, ps[1..]));
      if Fields(ps[0]) == [] {
        assert ParagraphLines(m, ps[0]) == [""] && FieldsOfAll([""][1..]) == [];
      } else {
        WrapKeepsWords(m, ps[0]);
      }
    }
  }

  /** Reading the lines' words back in order gives exactly the text's words, whatever the width. */
  lemma TextKeepsWords(content: string, width: int, f: Font, size: nat)
    ensures FieldsOfAll(TextLines(content, width, f, size)) == Fields(content)
  {
    ParagraphsSplit(content);
    FieldsOfParagraphs(Paragraphs(content));
    if width > 0 { WrapAllKeepsWords(Measurer(f, size, width), Paragraphs(content)); }
  }

  method WrapText(content: string, width: int, f: Font, size: nat) returns (lines: seq<string>)
    ensures lines == TextLines(content, width, f, size)
  {
    var paragraphs := Paragraphs(content);
    if width <= 0 {
      return paragraphs;
    }
    ghost var m := Measurer(f, size, width);
    lines := [];
    for i := 0 to |paragraphs|
      invariant lines == WrapAll(m, paragraphs[..i])
    {
      var wrapped := WrapParagraph(paragraphs[i], width, f, size);
      WrapAllConcat(m, paragraphs[..i], [paragraphs[i]]);
      assert paragraphs[..i + 1] == paragraphs[..i] + [paragraphs[i]];
      assert WrapAll(m, [paragraphs[i]]) == ParagraphLines(m, paragraphs[i]) + WrapAll(m, []);
      lines := lines + wrapped;
    }
    assert paragraphs[..|paragraphs|] == paragraphs;
  }
}
