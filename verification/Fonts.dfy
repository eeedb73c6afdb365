/** A font as layout and painting see it: an additive measure, a line height and glyphs. */
module Fonts {
  import opened Bitmaps

  datatype Font = Font(advance: char -> nat, lineHeight: nat, bitmap: char -> Bitmap)
  {
    /** The width of `s` in dots: the sum of each rune's advance. */
    function Measure(s: string): nat {
      if s == "" then 0 else Measure(s[..|s| - 1]) + advance(s[|s| - 1])
    }

    /** Every glyph bitmap is packed as promised. */
    ghost predicate WellFormed() {
      forall c :: bitmap(c).WellSized() && bitmap(c).Clean()
    }

    /** Every rune is `cell` dots wide, as in the embedded font. */
    ghost predicate Fixed(cell: nat) {
      cell > 0 && forall c :: advance(c) == cell
    }

    lemma {:induction false} MeasureConcat(a: string, b: string)
      ensures Measure(a + b) == Measure(a) + Measure(b)
      decreases |b|
    {
      if b == "" {
        assert a + b == a;
      } else {
        assert (a + b)[..|a + b| - 1] == a + b[..|b| - 1];
        MeasureConcat(a, b[..|b| - 1]);
      }
    }

    lemma {:induction false} FixedMeasure(cell: nat, s: string)
      requires Fixed(cell)
      ensures Measure(s) == |s| * cell
      decreases |s|
    {
      if s != "" {
        FixedMeasure(cell, s[..|s| - 1]);
        assert |s| * cell == (|s| - 1) * cell + cell;
      }
    }
  }
}
