/**
  The bitmap transforms: scaling, bold, italic, alignment padding and
  nearest-neighbour sampling. Each is given by where a pixel of the result comes
  from, for every pixel.
 */
module Glyphs {
  import opened Bitmaps

  // ------------------------------------------------------------- the transforms

  /** Go's integer division, which truncates toward zero. */
  function TruncDiv(a: int, b: int): int
    requires b > 0
  {
    if a >= 0 then a / b else -((-a) / b)
  }

  /** How far row `y` of a `height`-tall glyph leans right. */
  function ItalicShear(height: nat, y: int): int {
    TruncDiv(TruncDiv(height - 1, 2) - y, 5)
  }

  /** The slant leans right above the middle row, left below it, and never back. */
  lemma ShearLeans(height: nat, y: nat, z: nat)
    requires y <= z < height
    ensures ItalicShear(height, y) >= ItalicShear(height, z)
    ensures y <= (height - 1) / 2 ==> ItalicShear(height, y) >= 0
    ensures y >= (height - 1) / 2 ==> ItalicShear(height, y) <= 0
  {}

  /** It is upright within five rows of the middle, and a dot further over with every five rows from there. */
  lemma ShearSteps(height: nat, y: nat)
    requires y < height
    ensures ItalicShear(height, y) == 0 <==> -5 < (height - 1) / 2 - y < 5
    ensures y + 5 <= (height - 1) / 2 ==> ItalicShear(height, y) == ItalicShear(height, y + 5) + 1
    ensures (height - 1) / 2 + 5 <= y ==> ItalicShear(height, y) == ItalicShear(height, y - 5) - 1
  {}

  ghost predicate IsBitmap(r: Bitmap, width: nat, height: nat) {
    r.width == width && r.height == height && r.WellSized() && r.Clean()
  }

  /** Where a pixel comes from: its source cell, */
  ghost predicate ScaledPixel(b: Bitmap, factor: nat, x: int, y: int)
    requires factor >= 1
  {
    b.At(x / factor, y / factor)
  }

  /** itself or its left-hand neighbour, */
  ghost predicate BoldPixel(b: Bitmap, x: int, y: int) {
    b.InBounds(x, y) && (b.At(x, y) || b.At(x - 1, y))
  }

  /** or the pixel its row's shear moved here. */
  ghost predicate ItalicPixel(b: Bitmap, x: int, y: int) {
    b.InBounds(x, y) && b.At(x - ItalicShear(b.height, y), y)
  }

  ghost predicate IsScaled(b: Bitmap, factor: nat, r: Bitmap)
    requires factor >= 1
  {
    && IsBitmap(r, b.width * factor, b.height * factor)
    && forall x, y :: r.At(x, y) == ScaledPixel(b, factor, x, y)
  }

  ghost predicate IsBold(b: Bitmap, r: Bitmap) {
    IsBitmap(r, b.width, b.height) && forall x, y :: r.At(x, y) == BoldPixel(b, x, y)
  }

  ghost predicate IsItalic(b: Bitmap, r: Bitmap) {
    IsBitmap(r, b.width, b.height) && forall x, y :: r.At(x, y) == ItalicPixel(b, x, y)
  }

  lemma InCell(factor: nat, x: nat, i: nat)
    requires factor >= 1
    ensures x * factor <= i < x * factor + factor <==> i / factor == x
  {
    assert i == (i / factor) * factor + i % factor;
    if i / factor < x { MulMonotone(i / factor + 1, x, factor); }
    if i / factor > x { MulMonotone(x + 1, i / factor, factor); }
  }

  /** Result pixel (u, v) belongs to source pixel (x, y). */
  ghost predicate InBlock(factor: nat, x: nat, y: nat, u: nat, v: nat)
    requires factor >= 1
  {
    u / factor == x && v / factor == y
  }

  /** Its source pixel comes before (x, y) in scan order. */
  ghost predicate BlockBefore(factor: nat, x: nat, y: nat, u: nat, v: nat)
    requires factor >= 1
  {
    v / factor < y || (v / factor == y && u / factor < x)
  }

  /** Sets the factor x factor block source pixel (x, y) becomes. */
  method FillBlock(bits: array<bv8>, ghost width: nat, rowBytes: nat, ghost height: nat, factor: nat, x: nat, y: nat)
    requires factor >= 1 && rowBytes == RowBytes(width) && bits.Length == rowBytes * height
    requires x * factor + factor <= width && y * factor + factor <= height
    modifies bits
    ensures forall u: nat, v: nat | u < 8 * rowBytes ::
              Pixel(bits[..], rowBytes, u, v) <==> old(Pixel(bits[..], rowBytes, u, v)) || InBlock(factor, x, y, u, v)
  {
    ghost var before := bits[..];
    var left, top := x * factor, y * factor;
    for dy := 0 to factor
      invariant forall u: nat, v: nat | u < 8 * rowBytes ::
                  Pixel(bits[..], rowBytes, u, v)
                  <==> Pixel(before, rowBytes, u, v) || (left <= u < left + factor && top <= v < top + dy)
    {
      for dx := 0 to factor
        invariant forall u: nat, v: nat | u < 8 * rowBytes ::
                    Pixel(bits[..], rowBytes, u, v)
                    <==> Pixel(before, rowBytes, u, v)
                         || (left <= u < left + factor && top <= v < top + dy)
                         || (left <= u < left + dx && v == top + dy)
      {
        SetBit(bits, rowBytes, height, left + dx, top + dy);
      }
    }
    forall u: nat, v: nat | u < 8 * rowBytes
      ensures Pixel(bits[..], rowBytes, u, v) <==> Pixel(before, rowBytes, u, v) || InBlock(factor, x, y, u, v)
    {
      InCell(factor, x, u);
      InCell(factor, y, v);
    }
  }

  /** The blocks of the source pixels before (x, y) are painted, and nothing else is. */
  ghost predicate ScaledUpTo(b: Bitmap, factor: nat, bits: seq<bv8>, rb: nat, x: nat, y: nat)
    requires factor >= 1
  {
    forall u: nat, v: nat | u < 8 * rb ::
      Pixel(bits, rb, u, v) <==> ScaledPixel(b, factor, u, v) && BlockBefore(factor, x, y, u, v)
  }

  lemma ScaledStep(b: Bitmap, factor: nat, bits: seq<bv8>, bits': seq<bv8>, rb: nat, x: nat, y: nat)
    requires factor >= 1 && ScaledUpTo(b, factor, bits, rb, x, y)
    requires forall u: nat, v: nat | u < 8 * rb ::
               Pixel(bits', rb, u, v) <==> Pixel(bits, rb, u, v) || (b.At(x, y) && InBlock(factor, x, y, u, v))
    ensures ScaledUpTo(b, factor, bits', rb, x + 1, y)
  {
    forall u: nat, v: nat | u < 8 * rb
      ensures Pixel(bits', rb, u, v) <==> ScaledPixel(b, factor, u, v) && BlockBefore(factor, x + 1, y, u, v)
    {
      assert ScaledPixel(b, factor, u, v) == b.At(u / factor, v / factor);
      assert BlockBefore(factor, x + 1, y, u, v) <==> BlockBefore(factor, x, y, u, v) || InBlock(factor, x, y, u, v);
    }
  }

  lemma ScaledRow(b: Bitmap, factor: nat, bits: seq<bv8>, rb: nat, y: nat)
    requires factor >= 1 && ScaledUpTo(b, factor, bits, rb, b.width, y)
    ensures ScaledUpTo(b, factor, bits, rb, 0, y + 1)
  {
    forall u: nat, v: nat | u < 8 * rb
      ensures Pixel(bits, rb, u, v) <==> ScaledPixel(b, factor, u, v) && BlockBefore(factor, 0, y + 1, u, v)
    {
      assert ScaledPixel(b, factor, u, v) == b.At(u / factor, v / factor);
    }
  }

  lemma UnscaledOk(b: Bitmap)
    requires b.WellSized() && b.Clean()
    ensures IsScaled(b, 1, b)
  {}

  lemma BlockFits(n: nat, factor: nat, i: nat)
    requires i < n
    ensures i * factor + factor <= n * factor
  {
    MulMonotone(i + 1, n, factor);
  }

  /** Nearest-neighbour scaling by a whole factor; 1 or less leaves the bitmap alone. */
  method ScaleGlyph(b: Bitmap, factor: int) returns (r: Bitmap)
    requires b.WellSized() && b.Clean()
    ensures IsScaled(b, if factor <= 1 then 1 else factor, r)
  {
    if factor <= 1 {
      UnscaledOk(b);
      return b;
    }
    var width, height := b.width * factor, b.height * factor;
    var rb := RowBytes(width);
    var bits := Blank(rb, height);
    for y := 0 to b.height
      invariant ScaledUpTo(b, factor, bits[..], rb, 0, y)
    {
      for x := 0 to b.width
        invariant ScaledUpTo(b, factor, bits[..], rb, x, y)
      {
        ghost var before := bits[..];
        var isSet := TestBit(b.bits, RowBytes(b.width), b.height, x, y);
        if isSet {
          BlockFits(b.width, factor, x);
          BlockFits(b.height, factor, y);
          FillBlock(bits, width, rb, height, factor, x, y);
        }
        ScaledStep(b, factor, before, bits[..], rb, x, y);
      }
      ScaledRow(b, factor, bits[..], rb, y);
    }
    r := Bitmap(width, height, bits[..]);
    ScaledOk(b, factor, r);
  }

  lemma ScaledOk(b: Bitmap, factor: nat, r: Bitmap)
    requires factor >= 1 && r.width == b.width * factor && r.height == b.height * factor && r.WellSized()
    requires ScaledUpTo(b, factor, r.bits, RowBytes(r.width), 0, b.height)
    ensures IsScaled(b, factor, r)
  {
    forall x: nat, y: nat | r.width <= x < 8 * RowBytes(r.width) && y < r.height
      ensures !Pixel(r.bits, RowBytes(r.width), x, y)
    {
      QuotientBound(x, factor, b.width);
    }
    forall x, y
      ensures r.At(x, y) == ScaledPixel(b, factor, x, y)
    {
      if x >= 0 && y >= 0 {
        QuotientBound(x, factor, b.width);
        QuotientBound(y, factor, b.height);
      } else {
        NegativeQuotient(x, factor);
        NegativeQuotient(y, factor);
      }
    }
  }

  lemma QuotientBound(x: nat, factor: nat, n: nat)
    requires factor >= 1
    ensures x / factor < n <==> x < n * factor
  {
    assert x == (x / factor) * factor + x % factor;
    if x / factor < n { MulMonotone(x / factor + 1, n, factor); } else { MulMonotone(n, x / factor, factor); }
  }

  lemma NegativeQuotient(x: int, factor: nat)
    requires factor >= 1
    ensures x < 0 ==> x / factor < 0
  {}

  /** The neighbours of the pixels before (x, y) are set too. */
  ghost predicate BoldUpTo(b: Bitmap, bits: seq<bv8>, rb: nat, x: nat, y: nat) {
    forall u: nat, v: nat | u < 8 * rb && v < b.height ::
      Pixel(bits, rb, u, v)
      <==> Pixel(b.bits, rb, u, v) || (u < b.width && b.At(u - 1, v) && (v < y || (v == y && u - 1 < x)))
  }

  lemma BoldStep(b: Bitmap, bits: seq<bv8>, bits': seq<bv8>, rb: nat, x: nat, y: nat)
    requires x < b.width && y < b.height && BoldUpTo(b, bits, rb, x, y)
    requires forall u: nat, v: nat | u < 8 * rb ::
               Pixel(bits', rb, u, v) <==> Pixel(bits, rb, u, v) || (b.At(x, y) && u == x + 1 && u < b.width && v == y)
    ensures BoldUpTo(b, bits', rb, x + 1, y)
  {}

  lemma BoldRow(b: Bitmap, bits: seq<bv8>, rb: nat, y: nat)
    requires BoldUpTo(b, bits, rb, b.width, y)
    ensures BoldUpTo(b, bits, rb, 0, y + 1)
  {}

  lemma BoldDone(b: Bitmap, r: Bitmap)
    requires b.WellSized() && b.Clean() && r.width == b.width && r.height == b.height && r.WellSized()
    requires BoldUpTo(b, r.bits, RowBytes(b.width), 0, b.height)
    ensures IsBold(b, r)
  {}

  /** Every set pixel also sets its right-hand neighbour. */
  method BoldGlyph(b: Bitmap) returns (r: Bitmap)
    requires b.WellSized() && b.Clean()
    ensures IsBold(b, r)
  {
    var rb := RowBytes(b.width);
    var bits := new bv8[|b.bits|](i requires 0 <= i < |b.bits| => b.bits[i]);
    assert bits[..] == b.bits;
    for y := 0 to b.height
      invariant BoldUpTo(b, bits[..], rb, 0, y)
    {
      for x := 0 to b.width
        invariant BoldUpTo(b, bits[..], rb, x, y)
      {
        ghost var before := bits[..];
        var isSet := TestBit(b.bits, rb, b.height, x, y);
        if isSet && x + 1 < b.width {
          SetBit(bits, rb, b.height, x + 1, y);
        }
        BoldStep(b, before, bits[..], rb, x, y);
      }
      BoldRow(b, bits[..], rb, y);
    }
    r := Bitmap(b.width, b.height, bits[..]);
    BoldDone(b, r);
  }

  ghost predicate ItalicUpTo(b: Bitmap, bits: seq<bv8>, rb: nat, x: int, y: nat) {
    forall u: nat, v: nat | u < 8 * rb && v < b.height ::
      Pixel(bits, rb, u, v) <==> ItalicPixel(b, u, v) && (v < y || (v == y && u < x))
  }

  /** Each row shifted by its shear; a pixel sheared past an edge is dropped. */
  method ItalicGlyph(b: Bitmap) returns (r: Bitmap)
    requires b.WellSized() && b.Clean()
    ensures IsItalic(b, r)
  {
    var rb := RowBytes(b.width);
    var bits := Blank(rb, b.height);
    for y := 0 to b.height
      invariant ItalicUpTo(b, bits[..], rb, 0, y)
    {
      var shift := ItalicShear(b.height, y);
      assert forall u: nat | u < shift :: !ItalicPixel(b, u, y);
      for x := 0 to b.width
        invariant ItalicUpTo(b, bits[..], rb, x + shift, y)
      {
        ghost var before := bits[..];
        var isSet := TestBit(b.bits, rb, b.height, x, y);
        assert ItalicPixel(b, x + shift, y) == (isSet && 0 <= x + shift < b.width);
        if isSet {
          var sx := x + shift;
          if 0 <= sx < b.width {
            SetBit(bits, rb, b.height, sx, y);
          }
        }
      }
      assert forall u: nat | u >= b.width + shift :: !ItalicPixel(b, u, y);
    }
    r := Bitmap(b.width, b.height, bits[..]);
  }

  datatype Style = Style(bold: bool, italic: bool, underline: bool, strikethrough: bool, size: int)

  ghost predicate StyledVia(b: Bitmap, style: Style, scaled: Bitmap, bold: Bitmap, r: Bitmap)
    requires style.size >= 1
  {
    && IsScaled(b, style.size, scaled)
    && (if style.bold then IsBold(scaled, bold) else bold == scaled)
    && (if style.italic then IsItalic(bold, r) else r == bold)
  }

  /** A styled glyph: scaled, then bold, then italic. */
  ghost predicate IsStyled(b: Bitmap, style: Style, r: Bitmap)
    requires style.size >= 1
  {
    exists scaled, bold :: StyledVia(b, style, scaled, bold, r)
  }

  /** Pixel by pixel, what styling makes of a glyph. */
  ghost predicate BoldOrPlain(b: Bitmap, style: Style, x: int, y: int)
    requires style.size >= 1
  {
    if style.bold then
      && 0 <= x < b.width * style.size && 0 <= y < b.height * style.size
      && (ScaledPixel(b, style.size, x, y) || ScaledPixel(b, style.size, x - 1, y))
    else ScaledPixel(b, style.size, x, y)
  }

  ghost predicate StyledPixel(b: Bitmap, style: Style, x: int, y: int)
    requires style.size >= 1
  {
    if style.italic then
      && 0 <= x < b.width * style.size && 0 <= y < b.height * style.size
      && BoldOrPlain(b, style, x - ItalicShear(b.height * style.size, y), y)
    else BoldOrPlain(b, style, x, y)
  }

  lemma BoldStage(b: Bitmap, style: Style, scaled: Bitmap, bold: Bitmap, x: int, y: int)
    requires style.size >= 1 && IsScaled(b, style.size, scaled)
    requires if style.bold then IsBold(scaled, bold) else bold == scaled
    ensures bold.At(x, y) == BoldOrPlain(b, style, x, y)
  {
    assert scaled.At(x, y) == ScaledPixel(b, style.size, x, y);
    assert scaled.At(x - 1, y) == ScaledPixel(b, style.size, x - 1, y);
    if style.bold {
      assert bold.At(x, y) == BoldPixel(scaled, x, y);
    }
  }

  lemma ItalicStage(b: Bitmap, style: Style, scaled: Bitmap, bold: Bitmap, r: Bitmap, x: int, y: int)
    requires style.size >= 1 && style.italic && StyledVia(b, style, scaled, bold, r)
    ensures r.At(x, y) == StyledPixel(b, style, x, y)
  {
    BoldStage(b, style, scaled, bold, x - ItalicShear(bold.height, y), y);
    assert r.At(x, y) == ItalicPixel(bold, x, y);
  }

  lemma StyledIsPixelwise(b: Bitmap, style: Style, r: Bitmap, x: int, y: int)
    requires style.size >= 1 && IsStyled(b, style, r)
    ensures r.At(x, y) == StyledPixel(b, style, x, y)
  {
    var scaled, bold :| StyledVia(b, style, scaled, bold, r);
    if style.italic {
      ItalicStage(b, style, scaled, bold, r, x, y);
    } else {
      BoldStage(b, style, scaled, bold, x, y);
    }
  }

  method StyleGlyph(b: Bitmap, style: Style) returns (r: Bitmap)
    requires b.WellSized() && b.Clean() && style.size >= 1
    ensures IsStyled(b, style, r)
    ensures IsBitmap(r, b.width * style.size, b.height * style.size)
  {
    var scaled := ScaleGlyph(b, style.size);
    var bold := scaled;
    if style.bold {
      bold := BoldGlyph(bold);
    }
    r := bold;
    if style.italic {
      r := ItalicGlyph(bold);
    }
    assert StyledVia(b, style, scaled, bold, r);
  }

  // -------------------------------------------------------------- their algebra

  /** Scaling by a and then by b is scaling by a * b, byte for byte. */
  lemma ScaleCompose(b: Bitmap, m: nat, n: nat, once: Bitmap, twice: Bitmap, direct: Bitmap)
    requires m >= 1 && n >= 1 && m * n >= 1
    requires IsScaled(b, m, once) && IsScaled(once, n, twice) && IsScaled(b, m * n, direct)
    ensures twice == direct
  {
    Associate(b.width, m, n);
    Associate(b.height, m, n);
    forall x, y
      ensures twice.At(x, y) == direct.At(x, y)
    {
      ScaledTwicePixel(b, m, n, once, twice, x, y);
      assert direct.At(x, y) == ScaledPixel(b, m * n, x, y);
    }
    SamePixelsSameBytes(twice, direct);
  }

  lemma Associate(a: nat, m: nat, n: nat)
    ensures a * m * n == a * (m * n)
  {}

  lemma ScaledTwicePixel(b: Bitmap, m: nat, n: nat, once: Bitmap, twice: Bitmap, x: int, y: int)
    requires m >= 1 && n >= 1 && m * n >= 1 && IsScaled(b, m, once) && IsScaled(once, n, twice)
    ensures twice.At(x, y) == ScaledPixel(b, m * n, x, y)
  {
    DivideTwice(x, n, m);
    DivideTwice(y, n, m);
    assert twice.At(x, y) == ScaledPixel(once, n, x, y);
    assert once.At(x / n, y / n) == ScaledPixel(b, m, x / n, y / n);
  }

  lemma DivideTwice(x: int, n: nat, m: nat)
    requires m >= 1 && n >= 1 && m * n >= 1
    ensures x / n / m == x / (m * n)
  {
    var q := x / n / m;
    var r1, r2 := x % n, (x / n) % m;
    assert x == (q * m + r2) * n + r1;
    assert (q * m + r2) * n + r1 == q * (m * n) + (r2 * n + r1);
    assert 0 <= r2 * n + r1 by { MulMonotone(0, r2, n); }
    assert r2 * n + r1 < m * n by {
      MulMonotone(r2 + 1, m, n);
      assert (r2 + 1) * n == r2 * n + n;
    }
    QuotientUnique(x, m * n, q, r2 * n + r1);
  }

  lemma MulAtLeast(n: nat, d: nat)
    requires n >= 1
    ensures n * d >= d
  {}

  lemma QuotientUnique(x: int, d: nat, q: int, r: nat)
    requires d >= 1 && r < d && x == q * d + r
    ensures x / d == q
  {
    var q' := x / d;
    var r' := x % d;
    assert x == q' * d + r';
    if q > q' { MulAtLeast(q - q', d); }
    if q < q' { MulAtLeast(q' - q, d); }
  }

  /** The row's dropped edge pixels matter: it leans left, and they are set. */
  predicate OrderMattersIn(b: Bitmap, y: int) {
    var k := -ItalicShear(b.height, y);
    0 <= y < b.height && 0 < k < b.width && ((b.At(k - 1, y) && !b.At(k, y)) || b.At(b.width - 1, y))
  }

  /**
    Bold before italic and italic before bold give the same bytes exactly when no
    left-leaning row has a set pixel whose drop at an edge the order decides.
   */
  lemma StyleOrderIff(b: Bitmap, bold: Bitmap, boldItalic: Bitmap, italic: Bitmap, italicBold: Bitmap)
    requires IsBold(b, bold) && IsItalic(bold, boldItalic)
    requires IsItalic(b, italic) && IsBold(italic, italicBold)
    ensures boldItalic == italicBold <==> forall y :: !OrderMattersIn(b, y)
  {
    if forall y :: !OrderMattersIn(b, y) {
      forall x, y
        ensures boldItalic.At(x, y) == italicBold.At(x, y)
      {
        OrderIrrelevant(b, bold, boldItalic, italic, italicBold, x, y);
      }
      SamePixelsSameBytes(boldItalic, italicBold);
    } else {
      var y :| OrderMattersIn(b, y);
      OrderVisible(b, bold, boldItalic, italic, italicBold, y);
    }
  }

  lemma OrderIrrelevant(b: Bitmap, bold: Bitmap, boldItalic: Bitmap, italic: Bitmap, italicBold: Bitmap, x: int, y: int)
    requires IsBold(b, bold) && IsItalic(bold, boldItalic)
    requires IsItalic(b, italic) && IsBold(italic, italicBold)
    requires !OrderMattersIn(b, y)
    ensures boldItalic.At(x, y) == italicBold.At(x, y)
  {
    if b.InBounds(x, y) {
      OrderAt(b, bold, boldItalic, italic, italicBold, x, y);
    }
  }

  lemma OrderVisible(b: Bitmap, bold: Bitmap, boldItalic: Bitmap, italic: Bitmap, italicBold: Bitmap, y: int)
    requires IsBold(b, bold) && IsItalic(bold, boldItalic)
    requires IsItalic(b, italic) && IsBold(italic, italicBold)
    requires OrderMattersIn(b, y)
    ensures boldItalic != italicBold
  {
    var x := if b.At(b.width - 1, y) then b.width + ItalicShear(b.height, y) else 0;
    OrderAt(b, bold, boldItalic, italic, italicBold, x, y);
    assert boldItalic.At(x, y) != italicBold.At(x, y);
  }

  /** One pixel of both orders, in terms of the original glyph. */
  lemma OrderAt(b: Bitmap, bold: Bitmap, boldItalic: Bitmap, italic: Bitmap, italicBold: Bitmap, x: int, y: int)
    requires IsBold(b, bold) && IsItalic(bold, boldItalic)
    requires IsItalic(b, italic) && IsBold(italic, italicBold)
    requires b.InBounds(x, y)
    ensures var k := ItalicShear(b.height, y);
      && boldItalic.At(x, y) == (b.InBounds(x - k, y) && (b.At(x - k, y) || b.At(x - k - 1, y)))
      && italicBold.At(x, y) == (b.At(x - k, y) || (x >= 1 && b.At(x - 1 - k, y)))
  {
    BoldThenItalicAt(b, bold, boldItalic, x, y);
    ItalicThenBoldAt(b, italic, italicBold, x, y);
  }

  lemma BoldThenItalicAt(b: Bitmap, bold: Bitmap, r: Bitmap, x: int, y: int)
    requires IsBold(b, bold) && IsItalic(bold, r) && b.InBounds(x, y)
    ensures var k := ItalicShear(b.height, y);
      r.At(x, y) == (b.InBounds(x - k, y) && (b.At(x - k, y) || b.At(x - k - 1, y)))
  {
    assert r.At(x, y) == bold.At(x - ItalicShear(b.height, y), y);
  }

  lemma ItalicThenBoldAt(b: Bitmap, italic: Bitmap, r: Bitmap, x: int, y: int)
    requires IsItalic(b, italic) && IsBold(italic, r) && b.InBounds(x, y)
    ensures var k := ItalicShear(b.height, y); r.At(x, y) == (b.At(x - k, y) || (x >= 1 && b.At(x - 1 - k, y)))
  {
    assert r.At(x, y) == (italic.At(x, y) || italic.At(x - 1, y));
  }

  // -------------------------------------------------- a glyph on which the order shows

  /** Two dots wide and eleven tall: the last column's last dot is set. */
  const CORNER_DOT := Bitmap(2, 11, [0, 0, 0, 0, 0, 0, 0, 0, 0, 0, 0x40])

  lemma CornerDotPixels(x: nat, y: nat)
    requires x < 8
    ensures Pixel(CORNER_DOT.bits, 1, x, y) <==> x == 1 && y == 10
  {
    RowStartIsProduct(1, y);
    assert x / 8 == 0 && x % 8 == x;
    if y < 10 {
      assert CORNER_DOT.bits[y] == 0;
    } else if y == 10 {
      assert CORNER_DOT.bits[10] == 0x40;
      assert (0x40 as bv8) & Mask(x) != 0 <==> x == 1;
    }
  }

  /** Its last row leans left by one: emboldened first, its dot's right half is lost; last, it is not. */
  lemma StyleOrderCanMatter(bold: Bitmap, boldItalic: Bitmap, italic: Bitmap, italicBold: Bitmap)
    requires IsBold(CORNER_DOT, bold) && IsItalic(bold, boldItalic)
    requires IsItalic(CORNER_DOT, italic) && IsBold(italic, italicBold)
    ensures CORNER_DOT.WellSized() && CORNER_DOT.Clean() && OrderMattersIn(CORNER_DOT, 10)
    ensures boldItalic != italicBold
  {
    forall x: nat, y: nat | 2 <= x < 8 && y < 11
      ensures !Pixel(CORNER_DOT.bits, 1, x, y)
    {
      CornerDotPixels(x, y);
    }
    CornerDotPixels(1, 10);
    StyleOrderIff(CORNER_DOT, bold, boldItalic, italic, italicBold);
  }
}
