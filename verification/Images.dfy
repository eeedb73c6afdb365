/**
  Turning a decoded colour image into a one-bit bitmap: target size, nearest-
  neighbour sampling, the darkness threshold, and alignment within a width.
 */
module Images {
  import opened Bitmaps
  import opened Glyphs

  /** Alpha-premultiplied 16-bit channels, as Go's color.Color reports them. */
  datatype Color = Color(r: nat, g: nat, b: nat, a: nat) {
    ghost predicate Premultiplied() {
      r <= a && g <= a && b <= a && a <= 0xffff
    }
  }

  /** A decoded image: its size and the colour of each pixel. */
  datatype Image = Image(width: nat, height: nat, pixel: (nat, nat) -> Color)

  /** Darker than half white once composited over opaque white. */
  function DarkOverWhite(c: Color): bool
    requires c.a <= 0xffff
  {
    var white := 0xffff - c.a;
    (c.r + white) * 299 / 1000 + (c.g + white) * 587 / 1000 + (c.b + white) * 114 / 1000 < 0x8000
  }

  /** A transparent pixel is paper, opaque black prints, opaque white does not. */
  lemma Threshold(c: Color)
    requires c.Premultiplied()
    ensures c.a == 0 ==> !DarkOverWhite(c)
    ensures c == Color(0, 0, 0, 0xffff) ==> DarkOverWhite(c)
    ensures c.r == c.a && c.g == c.a && c.b == c.a ==> !DarkOverWhite(c)
  {}

  /** An opaque grey prints when it is darker than half white, up to what rounding its three channels loses. */
  lemma GreyThreshold(g: nat)
    requires g <= 0xffff
    ensures g < 0x8000 ==> DarkOverWhite(Color(g, g, g, 0xffff))
    ensures g >= 0x8000 + 3 ==> !DarkOverWhite(Color(g, g, g, 0xffff))
  {}

  /** A pixel that is nowhere lighter, and no more transparent, prints when the other does. */
  lemma DarkerPrints(c: Color, d: Color)
    requires c.a == d.a <= 0xffff && c.r <= d.r && c.g <= d.g && c.b <= d.b
    ensures DarkOverWhite(d) ==> DarkOverWhite(c)
  {}

  // ------------------------------------------------------------------- target size

  function ScaledImageSize(width: nat, height: nat, maxWidth: int): (nat, nat) {
    if maxWidth <= 0 || width <= maxWidth then (width, height)
    else (maxWidth, height * maxWidth / width)
  }

  function ResolveTargetWidth(requested: int, maxWidth: int): nat {
    if requested <= 0 then 0
    else if 0 < maxWidth < requested then maxWidth
    else requested
  }

  function TargetImageSize(width: nat, height: nat, requested: int, maxWidth: int): (nat, nat)
    requires width > 0
  {
    var w := ResolveTargetWidth(requested, maxWidth);
    if w > 0 then (w, height * w / width) else ScaledImageSize(width, height, maxWidth)
  }

  /** Neither rule ever exceeds a known printable width. */
  lemma TargetFits(width: nat, height: nat, requested: int, maxWidth: int)
    requires width > 0 && maxWidth > 0
    ensures TargetImageSize(width, height, requested, maxWidth).0 <= maxWidth
  {}

  lemma RoundedDown(a: nat, d: nat)
    requires d > 0
    ensures a / d * d <= a < a / d * d + d
  {}

  /** An image is never enlarged unasked, and its aspect ratio is kept up to rounding the height down. */
  lemma TargetKeepsAspect(width: nat, height: nat, requested: int, maxWidth: int)
    requires width > 0
    ensures var (w, h) := TargetImageSize(width, height, requested, maxWidth);
      h * width <= height * w < h * width + width
    ensures requested <= 0 ==> TargetImageSize(width, height, requested, maxWidth).0 <= width
    ensures requested <= 0 && (maxWidth <= 0 || width <= maxWidth) ==>
              TargetImageSize(width, height, requested, maxWidth) == (width, height)
    ensures 0 < requested && (maxWidth <= 0 || requested <= maxWidth) ==>
              TargetImageSize(width, height, requested, maxWidth).0 == requested
    ensures maxWidth > 0 && (if requested > 0 then requested else width) > maxWidth ==>
              TargetImageSize(width, height, requested, maxWidth).0 == maxWidth
  {
    var (w, h) := TargetImageSize(width, height, requested, maxWidth);
    RoundedDown(height * w, width);
  }

  // ------------------------------------------------------------------- sampling

  /** The source index a target index samples. */
  function Sample(i: nat, source: nat, target: nat): nat
    requires target > 0
  {
    i * source / target
  }

  lemma SampleInRange(i: nat, source: nat, target: nat)
    requires i < target && source > 0
    ensures Sample(i, source, target) < source
  {
    assert i * source < target * source by { MulStrict(i, target, source); }
    QuotientBound(i * source, target, source);
  }

  /** Every pixel of a target of the given size samples a pixel the source has. */
  ghost predicate SamplesInside(img: Image, width: nat, height: nat) {
    && (forall x: nat | x < width :: Sample(x, img.width, width) < img.width)
    && (forall y: nat | y < height :: Sample(y, img.height, height) < img.height)
  }

  lemma AllSamplesInside(img: Image, width: nat, height: nat)
    requires img.width > 0 && img.height > 0
    ensures SamplesInside(img, width, height)
  {
    forall x: nat | x < width
      ensures Sample(x, img.width, width) < img.width
    {
      SampleInRange(x, img.width, width);
    }
    forall y: nat | y < height
      ensures Sample(y, img.height, height) < img.height
    {
      SampleInRange(y, img.height, height);
    }
  }

  lemma MulStrict(a: nat, b: nat, c: nat)
    requires a < b && c > 0
    ensures a * c < b * c
  {
    MulMonotone(a + 1, b, c);
  }

  /** With a target at least as large as the source, every source index is sampled. */
  lemma EverySourceSampled(s: nat, source: nat, target: nat) returns (i: nat)
    requires s < source <= target
    ensures i < target && Sample(i, source, target) == s
  {
    var n := s * target + source - 1;
    i := n / source;
    assert i * source <= n < i * source + source;
    MulMonotone(s + 1, source, target);
    assert (s + 1) * target == s * target + target;
    assert i * source < source * target;
    if i >= target { MulMonotone(target, i, source); }
    QuotientUnique(i * source, target, s, i * source - s * target);
  }

  /** Sampling to a whole multiple of the source repeats each index that many times. */
  lemma SampleOfMultiple(i: nat, source: nat, factor: nat)
    requires factor > 0 && source > 0 && source * factor > 0
    ensures Sample(i, source, source * factor) == i / factor
  {
    assert i == (i / factor) * factor + i % factor;
    assert i * source == (i / factor) * (source * factor) + (i % factor) * source;
    assert (i % factor) * source < source * factor by { MulStrict(i % factor, factor, source); }
    QuotientUnique(i * source, source * factor, i / factor, (i % factor) * source);
  }

  ghost predicate Premultiplied(img: Image) {
    forall x, y :: img.pixel(x, y).Premultiplied()
  }

  ghost predicate SampledPixel(img: Image, width: nat, height: nat, x: int, y: int)
    requires Premultiplied(img)
  {
    && 0 <= x < width && 0 <= y < height
    && DarkOverWhite(img.pixel(Sample(x, img.width, width), Sample(y, img.height, height)))
  }

  ghost predicate IsRasterized(img: Image, width: nat, height: nat, r: Bitmap)
    requires Premultiplied(img)
  {
    IsBitmap(r, width, height) && forall x, y :: r.At(x, y) == SampledPixel(img, width, height, x, y)
  }

  ghost predicate SampledUpTo(img: Image, width: nat, height: nat, bits: seq<bv8>, rb: nat, x: nat, y: nat)
    requires Premultiplied(img)
  {
    forall u: nat, v: nat | u < 8 * rb && v < height ::
      Pixel(bits, rb, u, v) <==> SampledPixel(img, width, height, u, v) && (v < y || (v == y && u < x))
  }

  lemma SampledStep(img: Image, width: nat, height: nat, bits: seq<bv8>, bits': seq<bv8>, rb: nat, x: nat, y: nat)
    requires Premultiplied(img) && x < width && y < height && SampledUpTo(img, width, height, bits, rb, x, y)
    requires forall u: nat, v: nat | u < 8 * rb ::
               Pixel(bits', rb, u, v)
               <==> Pixel(bits, rb, u, v) || (SampledPixel(img, width, height, x, y) && u == x && v == y)
    ensures SampledUpTo(img, width, height, bits', rb, x + 1, y)
  {}

  lemma SampledDone(img: Image, r: Bitmap)
    requires Premultiplied(img) && r.WellSized()
    requires SampledUpTo(img, r.width, r.height, r.bits, RowBytes(r.width), 0, r.height)
    ensures IsRasterized(img, r.width, r.height, r)
  {}

  method SampleDark(img: Image, width: nat, ghost height: nat, x: nat, ghost y: nat, sy: nat) returns (dark: bool)
    requires Premultiplied(img) && x < width && y < height && sy == Sample(y, img.height, height)
    ensures dark == SampledPixel(img, width, height, x, y)
  {
    var sx := x * img.width / width;
    assert img.pixel(sx, sy).Premultiplied();
    dark := DarkOverWhite(img.pixel(sx, sy));
  }

  method RasterizeImage(img: Image, width: nat, height: nat) returns (r: Bitmap)
    requires Premultiplied(img)
    ensures IsRasterized(img, width, height, r)
    ensures img.width > 0 && img.height > 0 ==> SamplesInside(img, width, height)
  {
    if img.width > 0 && img.height > 0 { AllSamplesInside(img, width, height); }
    var rb := RowBytes(width);
    var bits := Blank(rb, height);
    for y := 0 to height
      invariant SampledUpTo(img, width, height, bits[..], rb, 0, y)
    {
      var sy := Sample(y, img.height, height);
      for x := 0 to width
        invariant SampledUpTo(img, width, height, bits[..], rb, x, y)
      {
        ghost var before := bits[..];
        var dark := SampleDark(img, width, height, x, y, sy);
        if dark {
          SetBit(bits, rb, height, x, y);
        }
        SampledStep(img, width, height, before, bits[..], rb, x, y);
      }
      SampledRow(img, width, height, bits[..], rb, y);
    }
    r := Bitmap(width, height, bits[..]);
    SampledDone(img, r);
  }

  lemma SampledRow(img: Image, width: nat, height: nat, bits: seq<bv8>, rb: nat, y: nat)
    requires Premultiplied(img) && SampledUpTo(img, width, height, bits, rb, width, y)
    ensures SampledUpTo(img, width, height, bits, rb, 0, y + 1)
  {}

  /** The one-bit picture of an image at its own size. */
  ghost predicate IsNative(img: Image, b: Bitmap)
    requires Premultiplied(img)
  {
    IsRasterized(img, img.width, img.height, b)
  }

  /** Rasterizing to a whole multiple of the source is scaling the source's own bitmap. */
  lemma RasterizeMultipleIsScale(img: Image, factor: nat, native: Bitmap, scaled: Bitmap, direct: Bitmap)
    requires Premultiplied(img) && factor > 0 && img.width > 0 && img.height > 0
    requires img.width * factor > 0 && img.height * factor > 0
    requires IsNative(img, native) && IsScaled(native, factor, scaled)
    requires IsRasterized(img, img.width * factor, img.height * factor, direct)
    ensures scaled == direct
  {
    forall x, y
      ensures scaled.At(x, y) == direct.At(x, y)
    {
      if x >= 0 && y >= 0 {
        QuotientBound(x, factor, img.width);
        QuotientBound(y, factor, img.height);
        SampleOfMultiple(x, img.width, factor);
        SampleOfMultiple(y, img.height, factor);
        if x / factor < img.width && y / factor < img.height {
          SampleOfMultiple(x / factor, img.width, 1);
          SampleOfMultiple(y / factor, img.height, 1);
          assert native.At(x / factor, y / factor) == SampledPixel(img, img.width, img.height, x / factor, y / factor);
        }
      } else {
        NegativeQuotient(x, factor);
        NegativeQuotient(y, factor);
      }
    }
    SamePixelsSameBytes(scaled, direct);
  }

  // ------------------------------------------------------------------- alignment

  function AlignOffset(width: nat, align: string, maxWidth: int): nat {
    if (align != "center" && align != "right") || maxWidth <= 0 || width >= maxWidth then 0
    else if align == "center" then (maxWidth - width) / 2
    else maxWidth - width
  }

  function AlignedWidth(width: nat, align: string, maxWidth: int): nat {
    if (align == "center" || align == "right") && width < maxWidth then maxWidth else width
  }

  /** A narrower bitmap fills the width: flush right, or with margins that differ by at most a dot, the right one no smaller. */
  lemma AlignMargins(width: nat, align: string, maxWidth: int)
    ensures var left := AlignOffset(width, align, maxWidth);
      var right := AlignedWidth(width, align, maxWidth) - width - left;
      && (width < maxWidth && align == "right" ==> right == 0 && left == maxWidth - width)
      && (width < maxWidth && align == "center" ==> left + width + right == maxWidth && 0 <= right - left <= 1)
      && (width >= maxWidth || (align != "center" && align != "right") ==> left == 0 && right == 0)
  {}

  ghost predicate MovedPixel(b: Bitmap, offset: nat, x: int, y: int) {
    b.At(x - offset, y)
  }

  ghost predicate MovedUpTo(b: Bitmap, offset: nat, bits: seq<bv8>, rb: nat, x: nat, y: nat) {
    forall u: nat, v: nat | u < 8 * rb && v < b.height ::
      Pixel(bits, rb, u, v) <==> MovedPixel(b, offset, u, v) && (v < y || (v == y && u < x))
  }

  lemma MovedStep(b: Bitmap, offset: nat, bits: seq<bv8>, bits': seq<bv8>, rb: nat, x: nat, y: nat)
    requires x < b.width && y < b.height && MovedUpTo(b, offset, bits, rb, x + offset, y)
    requires forall u: nat, v: nat | u < 8 * rb ::
               Pixel(bits', rb, u, v) <==> Pixel(bits, rb, u, v) || (b.At(x, y) && u == x + offset && v == y)
    ensures MovedUpTo(b, offset, bits', rb, x + offset + 1, y)
  {}

  /** Left of the offset and right of the moved bitmap nothing is set. */
  lemma MovedEdges(b: Bitmap, offset: nat, bits: seq<bv8>, rb: nat, y: nat)
    ensures MovedUpTo(b, offset, bits, rb, 0, y) <==> MovedUpTo(b, offset, bits, rb, offset, y)
    ensures MovedUpTo(b, offset, bits, rb, b.width + offset, y) ==> MovedUpTo(b, offset, bits, rb, 0, y + 1)
  {
    assert forall u: nat | u < offset :: !MovedPixel(b, offset, u, y);
    assert forall u: nat | u >= b.width + offset :: !MovedPixel(b, offset, u, y);
  }

  ghost predicate IsMoved(b: Bitmap, offset: nat, width: nat, r: Bitmap) {
    IsBitmap(r, width, b.height) && forall x, y :: r.At(x, y) == MovedPixel(b, offset, x, y)
  }

  lemma MovedDone(b: Bitmap, offset: nat, r: Bitmap)
    requires r.WellSized() && r.height == b.height && b.width + offset <= r.width
    requires MovedUpTo(b, offset, r.bits, RowBytes(r.width), 0, b.height)
    ensures IsMoved(b, offset, r.width, r)
  {}

  /** The copying loop: every set pixel, `offset` columns further right. */
  method MoveRight(b: Bitmap, offset: nat, width: nat) returns (r: Bitmap)
    requires b.WellSized() && b.Clean() && b.width + offset <= width
    ensures IsMoved(b, offset, width, r)
  {
    var rb := RowBytes(width);
    var bits := Blank(rb, b.height);
    for y := 0 to b.height
      invariant MovedUpTo(b, offset, bits[..], rb, 0, y)
    {
      MovedEdges(b, offset, bits[..], rb, y);
      for x := 0 to b.width
        invariant MovedUpTo(b, offset, bits[..], rb, x + offset, y)
      {
        ghost var before := bits[..];
        var isSet := TestBit(b.bits, RowBytes(b.width), b.height, x, y);
        if isSet {
          SetBit(bits, rb, b.height, x + offset, y);
        }
        MovedStep(b, offset, before, bits[..], rb, x, y);
      }
      MovedEdges(b, offset, bits[..], rb, y);
    }
    r := Bitmap(width, b.height, bits[..]);
    MovedDone(b, offset, r);
  }

  /** Left-pads with blank columns: no pixel is lost or changed, only moved right. */
  method AlignBitmap(b: Bitmap, align: string, maxWidth: int) returns (r: Bitmap)
    requires b.WellSized() && b.Clean()
    ensures var offset := AlignOffset(b.width, align, maxWidth);
      var width := AlignedWidth(b.width, align, maxWidth);
      IsMoved(b, offset, width, r) && offset + b.width <= width
  {
    if align != "center" && align != "right" {
      return b;
    }
    if maxWidth <= 0 || b.width >= maxWidth {
      return b;
    }
    var offset := maxWidth - b.width;
    if align == "center" {
      offset := offset / 2;
    }
    r := MoveRight(b, offset, maxWidth);
  }
}
