/**
  Painting positioned blocks onto a one-bit canvas. A canvas pixel is set exactly
  when some block covers it; everything outside the canvas is dropped.
 */
module Painting {
  import opened Receipts
  import opened Bitmaps
  import opened Glyphs
  import opened Images
  import opened Fonts
  import opened ColumnLayout
  import opened Layout

  /** A printer command at a dot row; Terminal marks the document's last block. */
  datatype Control = Control(y: int, element: Element, terminal: bool)

  const DASH_DOTS: nat := 16
  const DASH_GAP_DOTS: nat := 8

  // ------------------------------------------------------------------ what a block covers

  /** The first 16 dots of every 24. */
  predicate Dash(x: int) {
    x % (DASH_DOTS + DASH_GAP_DOTS) < DASH_DOTS
  }

  predicate DashBefore(end: nat, x: nat) {
    x < end && Dash(x)
  }

  lemma NextDash(start: nat, x: nat)
    requires start % (DASH_DOTS + DASH_GAP_DOTS) == 0
    ensures DashBefore(start + DASH_DOTS + DASH_GAP_DOTS, x) <==> DashBefore(start, x) || start <= x < start + DASH_DOTS
  {}

  lemma NextPeriod(start: nat)
    requires start % (DASH_DOTS + DASH_GAP_DOTS) == 0
    ensures (start + (DASH_DOTS + DASH_GAP_DOTS)) % (DASH_DOTS + DASH_GAP_DOTS) == 0
  {}

  /** A solid divider covers its rows; a dashed one, only its dashes. */
  predicate DividerPixel(style: string, size: int, x: int, y: int) {
    0 <= y < DIVIDER_THICKNESS * ResolveSize(size) && (style == "dashed" ==> Dash(x))
  }

  /** Dashes of 16 dots repeat every 24 from the left edge; a solid divider has a dot in every column. */
  lemma DividerLooks(size: int, x: nat, y: nat)
    requires y < 2 * ResolveSize(size)
    ensures DividerPixel("solid", size, x, y) && DividerPixel("", size, x, y)
    ensures DividerPixel("dashed", size, x, y) <==> DividerPixel("dashed", size, x + 24, y)
    ensures x < 24 ==> (DividerPixel("dashed", size, x, y) <==> x < 16)
  {}

  /** Where glyph `k` begins: the advances before it, scaled. */
  function GlyphX(f: Font, content: string, size: nat, k: nat): nat
    requires k <= |content|
  {
    if k == 0 then 0 else GlyphX(f, content, size, k - 1) + f.advance(content[k - 1]) * size
  }

  lemma {:induction false} GlyphXIsMeasure(f: Font, content: string, size: nat, k: nat)
    requires k <= |content|
    ensures GlyphX(f, content, size, k) == f.Measure(content[..k]) * size
    decreases k
  {
    if k > 0 {
      GlyphXIsMeasure(f, content, size, k - 1);
      assert content[..k][..k - 1] == content[..k - 1];
      Distribute(f.Measure(content[..k - 1]), f.advance(content[k - 1]), size);
    }
  }

  lemma Distribute(a: nat, b: nat, c: nat)
    ensures (a + b) * c == a * c + b * c
  {}

  /** Styled glyph `k` covers (x, y). */
  ghost predicate GlyphCovers(f: Font, content: string, style: Style, k: nat, x: int, y: int)
    requires k < |content| && style.size >= 1
  {
    StyledPixel(f.bitmap(content[k]), style, x - GlyphX(f, content, style.size, k), y)
  }

  /** Some of the first `n` does. */
  ghost predicate GlyphsCover(f: Font, content: string, style: Style, n: nat, x: int, y: int)
    requires n <= |content| && style.size >= 1
  {
    n > 0 && (GlyphsCover(f, content, style, n - 1, x, y) || GlyphCovers(f, content, style, n - 1, x, y))
  }

  lemma {:induction false} GlyphsCoverMeans(f: Font, content: string, style: Style, n: nat, x: int, y: int)
    requires n <= |content| && style.size >= 1
    ensures GlyphsCover(f, content, style, n, x, y)
       <==> exists k :: 0 <= k < n && GlyphCovers(f, content, style, k, x, y)
    decreases n
  {
    if n > 0 { GlyphsCoverMeans(f, content, style, n - 1, x, y); }
  }

  /** Underline and strikethrough span the text; both are one scaled dot thick. */
  predicate DecorationPixel(style: Style, lineHeight: int, textWidth: int, x: int, y: int) {
    && 0 <= x < textWidth
    && ((style.underline && lineHeight - style.size <= y < lineHeight)
        || (style.strikethrough && lineHeight / 2 <= y < lineHeight / 2 + style.size))
  }

  /**
    An underline takes the last rows of its line and a strikethrough begins at its
    middle, each over the text's whole width and as thick as one scaled dot.
   */
  lemma DecorationsLook(style: Style, lineHeight: nat, textWidth: int, x: int)
    requires 0 <= x < textWidth && 1 <= style.size && 2 * style.size <= lineHeight
    ensures style.underline ==>
              && DecorationPixel(style, lineHeight, textWidth, x, lineHeight - 1)
              && DecorationPixel(style, lineHeight, textWidth, x, lineHeight - style.size)
              && !DecorationPixel(style, lineHeight, textWidth, x, lineHeight)
    ensures style.underline && !style.strikethrough ==>
              !DecorationPixel(style, lineHeight, textWidth, x, lineHeight - style.size - 1)
    ensures style.strikethrough && !style.underline ==>
              && DecorationPixel(style, lineHeight, textWidth, x, lineHeight / 2)
              && !DecorationPixel(style, lineHeight, textWidth, x, lineHeight / 2 - 1)
              && DecorationPixel(style, lineHeight, textWidth, x, lineHeight / 2 + style.size - 1)
              && !DecorationPixel(style, lineHeight, textWidth, x, lineHeight / 2 + style.size)
  {}

  ghost predicate TextPixel(f: Font, content: string, style: Style, x: int, y: int)
    requires style.size >= 1
  {
    || GlyphsCover(f, content, style, |content|, x, y)
    || DecorationPixel(style, f.lineHeight * style.size, GlyphX(f, content, style.size, |content|), x, y)
  }

  ghost predicate ImagePixel(lib: Library, data: seq<bv8>, requested: int, maxWidth: int, x: int, y: int)
    requires lib.Consistent()
  {
    var img := lib.decode(data);
    img.Some? && Premultiplied(img.value)
    && var size := TargetImageSize(img.value.width, img.value.height, requested, maxWidth);
       SampledPixel(img.value, size.0, size.1, x, y)
  }

  ghost predicate RasterPixel(p: Page, e: BlockElement, x: int, y: int)
    requires p.lib.Consistent()
  {
    match e
    case AlignedAsset(data, width, align) =>
      var img := p.lib.decode(data);
      img.Some?
      && var w := TargetImageSize(img.value.width, img.value.height, width, p.width).0;
         ImagePixel(p.lib, data, width, p.width, x - AlignOffset(w, align, p.width), y)
    case Source(Image(data)) => ImagePixel(p.lib, data, 0, p.width, x, y)
    case Source(QRCode(content, size, level)) =>
      var code := p.lib.qr(content, level);
      code.Some? && Premultiplied(code.value)
      && SampledPixel(code.value, QrSize(size, p.width), QrSize(size, p.width), x, y)
    case Source(Barcode(content, symbology, height, _)) =>
      var bars := p.lib.barcode(content, symbology);
      bars.Some? && Premultiplied(bars.value)
      && SampledPixel(bars.value, BarcodeWidth(bars.value.width, p.width), BarcodeHeight(height), x, y)
    case _ => false
  }

  /** Block `b` covers canvas position (x, y). */
  ghost predicate Covers(p: Page, b: Block, x: int, y: int)
    requires p.lib.Consistent() && b.style.size >= 1
  {
    if IsControl(b.element) then false
    else if b.element.Source? && b.element.element.Divider? then
      DividerPixel(b.element.element.style, b.element.element.size, x, y - b.y)
    else if IsRaster(b.element) then RasterPixel(p, b.element, x, y - b.y)
    else match TextContent(b.element)
      case Some(content) => TextPixel(p.font, content, b.style, x, y - b.y)
      case None => false
  }

  /** Layout's promise about every block it makes. */
  ghost predicate Paintable(blocks: seq<Block>) {
    forall i | 0 <= i < |blocks| :: blocks[i].y >= 0 && blocks[i].style.size >= 1
  }

  ghost predicate CoveredTo(p: Page, blocks: seq<Block>, n: nat, x: int, y: int)
    requires p.lib.Consistent() && Paintable(blocks) && n <= |blocks|
  {
    n > 0 && (CoveredTo(p, blocks, n - 1, x, y) || Covers(p, blocks[n - 1], x, y))
  }

  lemma {:induction false} CoveredMeans(p: Page, blocks: seq<Block>, n: nat, x: int, y: int)
    requires p.lib.Consistent() && Paintable(blocks) && n <= |blocks|
    ensures CoveredTo(p, blocks, n, x, y) <==> exists i :: 0 <= i < n && Covers(p, blocks[i], x, y)
    decreases n
  {
    if n > 0 { CoveredMeans(p, blocks, n - 1, x, y); }
  }

  function ControlsTo(blocks: seq<Block>, n: nat): seq<Control>
    requires n <= |blocks|
  {
    if n == 0 then []
    else
      var b := blocks[n - 1];
      ControlsTo(blocks, n - 1)
      + (if IsControl(b.element) then [Control(b.y, b.element.element, n == |blocks|)] else [])
  }

  // ------------------------------------------------------------------ the canvas

  class Canvas {
    const width: nat
    const height: nat
    const bits: array<bv8>
    var controls: seq<Control>

    ghost predicate Valid() {
      bits.Length == RowBytes(width) * height
    }

    constructor (width: nat, height: nat)
      ensures Valid() && this.width == width && this.height == height && controls == [] && fresh(bits)
      ensures forall u: nat, v: nat :: !Pixel(bits[..], RowBytes(width), u, v)
    {
      this.width, this.height := width, height;
      bits := new bv8[RowBytes(width) * height](_ => 0);
      controls := [];
    }

    /** A pixel of the canvas, or one of the padding bits of its rows. */
    ghost predicate Set(u: nat, v: nat)
      reads bits
    {
      Pixel(bits[..], RowBytes(width), u, v)
    }

    predicate Visible(u: int, v: int) {
      0 <= u < width && 0 <= v < height
    }

    /** Paints the glyph's set pixels, dropping those outside the canvas. */
    method PaintGlyph(x: nat, y: nat, b: Bitmap)
      requires Valid() && b.WellSized()
      modifies bits
      ensures forall u: nat, v: nat | u < 8 * RowBytes(width) ::
                Set(u, v) <==> old(Set(u, v)) || (Visible(u, v) && b.At(u - x, v - y))
    {
      var rb := RowBytes(width);
      for row := 0 to b.height
        invariant forall u: nat, v: nat | u < 8 * rb ::
                    Set(u, v) <==> old(Set(u, v)) || (Visible(u, v) && v - y < row && b.At(u - x, v - y))
      {
        for col := 0 to b.width
          invariant forall u: nat, v: nat | u < 8 * rb ::
                      Set(u, v) <==>
                      old(Set(u, v))
                      || (Visible(u, v) && b.At(u - x, v - y) && (v - y < row || (v - y == row && u - x < col)))
        {
          var isSet := TestBit(b.bits, RowBytes(b.width), b.height, col, row);
          if isSet {
            var px, py := x + col, y + row;
            if px < width && py < height {
              SetBit(bits, rb, height, px, py);
            }
          }
        }
      }
    }

    /** Sets the band [x0, x1) x [y0, y0 + thickness), clipped to the canvas. */
    method PaintHLine(x0: int, x1: int, y0: int, thickness: int)
      requires Valid()
      modifies bits
      ensures forall u: nat, v: nat | u < 8 * RowBytes(width) ::
                Set(u, v) <==> old(Set(u, v)) || (Visible(u, v) && x0 <= u < x1 && y0 <= v < y0 + thickness)
    {
      var y := y0;
      while y < y0 + thickness
        invariant y == y0 || y <= y0 + thickness
        invariant y0 <= y
        invariant forall u: nat, v: nat | u < 8 * RowBytes(width) ::
                    Set(u, v) <==> old(Set(u, v)) || (Visible(u, v) && x0 <= u < x1 && y0 <= v < y)
      {
        if 0 <= y < height {
          PaintRow(x0, x1, y);
        }
        y := y + 1;
      }
    }

    method PaintRow(x0: int, x1: int, y: nat)
      requires Valid() && y < height
      modifies bits
      ensures forall u: nat, v: nat | u < 8 * RowBytes(width) ::
                Set(u, v) <==> old(Set(u, v)) || (Visible(u, v) && x0 <= u < x1 && v == y)
    {
      var x := x0;
      while x < x1
        invariant x == x0 || x <= x1
        invariant forall u: nat, v: nat | u < 8 * RowBytes(width) ::
                    Set(u, v) <==> old(Set(u, v)) || (Visible(u, v) && x0 <= u < x && v == y)
      {
        if 0 <= x < width {
          SetBit(bits, RowBytes(width), height, x, y);
        }
        x := x + 1;
      }
    }

    method PaintDivider(style: string, size: int, y: nat)
      requires Valid()
      modifies bits
      ensures forall u: nat, v: nat | u < 8 * RowBytes(width) ::
                Set(u, v) <==> old(Set(u, v)) || (Visible(u, v) && DividerPixel(style, size, u, v - y))
    {
      var thickness := DIVIDER_THICKNESS * ResolveSize(size);
      if style != "dashed" {
        PaintHLine(0, width, y, thickness);
      } else {
        PaintDashes(y, thickness);
      }
    }

    /** Runs of 16 dots with gaps of 8, from the left edge. */
    method PaintDashes(y: nat, thickness: nat)
      requires Valid()
      modifies bits
      ensures forall u: nat, v: nat | u < 8 * RowBytes(width) ::
                Set(u, v) <==> old(Set(u, v)) || (Visible(u, v) && Dash(u) && y <= v < y + thickness)
    {
      var x := 0;
      while x < width
        invariant x % (DASH_DOTS + DASH_GAP_DOTS) == 0
        invariant forall u: nat, v: nat | u < 8 * RowBytes(width) ::
                    Set(u, v) <==> old(Set(u, v)) || (Visible(u, v) && DashBefore(x, u) && y <= v < y + thickness)
      {
        var end := x + DASH_DOTS;
        if end > width {
          end := width;
        }
        label before:
        PaintHLine(x, end, y, thickness);
        forall u: nat, v: nat | u < 8 * RowBytes(width)
          ensures Set(u, v) <==>
            old(Set(u, v)) || (Visible(u, v) && DashBefore(x + DASH_DOTS + DASH_GAP_DOTS, u) && y <= v < y + thickness)
        {
          NextDash(x, u);
          assert Set(u, v) <==> old@before(Set(u, v)) || (Visible(u, v) && x <= u < end && y <= v < y + thickness);
        }
        x := x + DASH_DOTS + DASH_GAP_DOTS;
        NextPeriod(x - (DASH_DOTS + DASH_GAP_DOTS));
      }
    }

    method PaintDecorations(style: Style, lineHeight: nat, y: nat, textWidth: int)
      requires Valid() && style.size >= 1
      modifies bits
      ensures forall u: nat, v: nat | u < 8 * RowBytes(width) ::
                Set(u, v) <==> old(Set(u, v)) || (Visible(u, v) && DecorationPixel(style, lineHeight, textWidth, u, v - y))
    {
      if textWidth <= 0 || (!style.underline && !style.strikethrough) {
        return;
      }
      var thickness := style.size;
      if style.underline {
        PaintHLine(0, textWidth, y + lineHeight - thickness, thickness);
      }
      if style.strikethrough {
        PaintHLine(0, textWidth, y + lineHeight / 2, thickness);
      }
    }
  }

  // ------------------------------------------------------------------ painting a document

  /** Resolves a raster block's bitmap, or None when its content does not decode or encode. */
  method RasterBitmap(p: Page, e: BlockElement) returns (r: Option<Bitmap>)
    requires p.lib.Consistent() && IsRaster(e)
    ensures r.Some? <==> RasterSize(p.lib, e, p.width).Some?
    ensures r.Some? ==> IsRasterOf(p, e, r.value)
  {
    match e
    case AlignedAsset(data, width, align) =>
      var img := p.lib.decode(data);
      if img == None {
        return None;
      }
      var (w, h) := TargetImageSize(img.value.width, img.value.height, width, p.width);
      var raster := RasterizeImage(img.value, w, h);
      var moved := AlignBitmap(raster, align, p.width);
      MovedImage(p, e, raster, moved);
      r := Some(moved);
    case Source(Image(data)) =>
      var img := p.lib.decode(data);
      if img == None {
        return None;
      }
      var (w, h) := TargetImageSize(img.value.width, img.value.height, 0, p.width);
      var raster := RasterizeImage(img.value, w, h);
      r := Some(raster);
    case Source(QRCode(content, size, level)) =>
      var code := p.lib.qr(content, level);
      if code == None {
        return None;
      }
      var raster := RasterizeImage(code.value, QrSize(size, p.width), QrSize(size, p.width));
      r := Some(raster);
    case Source(Barcode(content, symbology, height, _)) =>
      var bars := p.lib.barcode(content, symbology);
      if bars == None {
        return None;
      }
      var raster := RasterizeImage(bars.value, BarcodeWidth(bars.value.width, p.width), BarcodeHeight(height));
      r := Some(raster);
  }

  ghost predicate IsRasterOf(p: Page, e: BlockElement, r: Bitmap)
    requires p.lib.Consistent()
  {
    && RasterSize(p.lib, e, p.width) == Some((r.width, r.height)) && r.WellSized()
    && forall x, y :: r.At(x, y) == RasterPixel(p, e, x, y)
  }

  lemma MovedImage(p: Page, e: BlockElement, raster: Bitmap, moved: Bitmap)
    requires p.lib.Consistent() && e.AlignedAsset? && p.lib.decode(e.data).Some?
    requires var img := p.lib.decode(e.data).value;
      var size := TargetImageSize(img.width, img.height, e.width, p.width);
      && IsRasterized(img, size.0, size.1, raster)
      && IsMoved(raster, AlignOffset(size.0, e.align, p.width), AlignedWidth(size.0, e.align, p.width), moved)
    ensures IsRasterOf(p, e, moved)
  {
    var img := p.lib.decode(e.data).value;
    var size := TargetImageSize(img.width, img.height, e.width, p.width);
    var offset := AlignOffset(size.0, e.align, p.width);
    forall x: int, y: int
      ensures moved.At(x, y) == RasterPixel(p, e, x, y)
    {
      assert moved.At(x, y) == MovedPixel(raster, offset, x, y);
      assert raster.At(x - offset, y) == SampledPixel(img, size.0, size.1, x - offset, y);
    }
  }

  /** The lowest row any of the first `n` blocks reaches. */
  ghost function Bottom(p: Page, blocks: seq<Block>, n: nat): int
    requires n <= |blocks|
  {
    if n == 0 then 0
    else
      var rest := Bottom(p, blocks, n - 1);
      var b := blocks[n - 1];
      var bottom := b.y + p.Height(b).GetOr(0);
      if bottom > rest then bottom else rest
  }

  /** How wide a block's own content is; only consulted when the page has no width. */
  ghost function ContentWidth(p: Page, b: Block): int {
    if IsRaster(b.element) then
      var size := RasterSize(p.lib, b.element, p.width);
      if size == None then 0 else size.value.0
    else match TextContent(b.element)
      case Some(content) => p.font.Measure(content) * b.style.size
      case None => 0
  }

  ghost function Widest(p: Page, blocks: seq<Block>, n: nat): int
    requires n <= |blocks|
  {
    if n == 0 || p.width > 0 then p.width
    else
      var rest := Widest(p, blocks, n - 1);
      var w := ContentWidth(p, blocks[n - 1]);
      if w > rest then w else rest
  }

  /** Sizing pass over one block: its height, and its bitmap when it is a raster block. */
  method MeasureBlock(p: Page, b: Block) returns (height: Option<int>, width: int, bitmap: Option<Bitmap>)
    requires p.lib.Consistent() && b.style.size >= 1
    ensures height == p.Height(b) && (height.Some? ==> width == ContentWidth(p, b))
    ensures bitmap.Some? <==> IsRaster(b.element) && height.Some?
    ensures bitmap.Some? ==> IsRasterOf(p, b.element, bitmap.value)
  {
    width, bitmap := 0, None;
    if IsRaster(b.element) {
      bitmap := RasterBitmap(p, b.element);
      if bitmap == None {
        return None, 0, None;
      }
      return Some(bitmap.value.height), bitmap.value.width, bitmap;
    }
    height := PaintHeight(p.lib, p.font, p.width, b.element, b.style);
    var content := TextContent(b.element);
    if content.Some? {
      width := p.font.Measure(content.value) * b.style.size;
    }
  }

  ghost predicate BitmapsFor(p: Page, blocks: seq<Block>, bitmaps: seq<Option<Bitmap>>)
    requires p.lib.Consistent()
  {
    |bitmaps| <= |blocks|
    && forall i | 0 <= i < |bitmaps| && IsRaster(blocks[i].element) ::
         bitmaps[i].Some? && IsRasterOf(p, blocks[i].element, bitmaps[i].value)
  }

  method MeasureAll(p: Page, blocks: seq<Block>)
    returns (ok: bool, width: int, height: int, bitmaps: seq<Option<Bitmap>>)
    requires p.lib.Consistent() && Paintable(blocks)
    ensures ok <==> forall i | 0 <= i < |blocks| :: p.Height(blocks[i]).Some?
    ensures ok ==> width == Widest(p, blocks, |blocks|) && height == Bottom(p, blocks, |blocks|)
    ensures ok ==> |bitmaps| == |blocks| && BitmapsFor(p, blocks, bitmaps)
  {
    width, height, bitmaps := p.width, 0, [];
    var contentFit := width <= 0;
    for i := 0 to |blocks|
      invariant |bitmaps| == i && BitmapsFor(p, blocks, bitmaps)
      invariant forall k | 0 <= k < i :: p.Height(blocks[k]).Some?
      invariant width == Widest(p, blocks, i) && height == Bottom(p, blocks, i)
    {
      var bh, bw, bitmap := MeasureBlock(p, blocks[i]);
      if bh == None {
        return false, width, height, bitmaps;
      }
      bitmaps := bitmaps + [bitmap];
      if contentFit && bw > width {
        width := bw;
      }
      if blocks[i].y + bh.value > height {
        height := blocks[i].y + bh.value;
      }
    }
    ok := true;
  }

  /** One text block: its glyphs left to right, then its decorations. */
  method PaintText(c: Canvas, p: Page, b: Block, content: string)
    requires c.Valid() && p.font.WellFormed() && b.y >= 0 && b.style.size >= 1
    modifies c.bits
    ensures forall u: nat, v: nat | u < 8 * RowBytes(c.width) ::
              c.Set(u, v) <==> old(c.Set(u, v)) || (c.Visible(u, v) && TextPixel(p.font, content, b.style, u, v - b.y))
  {
    var x: nat := 0;
    for k := 0 to |content|
      invariant x == GlyphX(p.font, content, b.style.size, k)
      invariant forall u: nat, v: nat | u < 8 * RowBytes(c.width) ::
                  c.Set(u, v) <==>
                  old(c.Set(u, v)) || (c.Visible(u, v) && GlyphsCover(p.font, content, b.style, k, u, v - b.y))
    {
      PaintOneGlyph(c, p.font, content, b.style, k, x, b.y);
      x := x + p.font.advance(content[k]) * b.style.size;
    }
    c.PaintDecorations(b.style, p.font.lineHeight * b.style.size, b.y, x);
  }

  method PaintOneGlyph(c: Canvas, f: Font, content: string, style: Style, k: nat, x: nat, y: nat)
    requires c.Valid() && f.WellFormed() && style.size >= 1 && k < |content| && x == GlyphX(f, content, style.size, k)
    modifies c.bits
    ensures forall u: nat, v: nat | u < 8 * RowBytes(c.width) ::
              c.Set(u, v) <==> old(c.Set(u, v)) || (c.Visible(u, v) && GlyphCovers(f, content, style, k, u, v - y))
  {
    var glyph := StyleGlyph(f.bitmap(content[k]), style);
    forall u, v
      ensures glyph.At(u, v) == StyledPixel(f.bitmap(content[k]), style, u, v)
    {
      StyledIsPixelwise(f.bitmap(content[k]), style, glyph, u, v);
    }
    c.PaintGlyph(x, y, glyph);
  }

  method PaintBlock(c: Canvas, p: Page, b: Block, bitmap: Option<Bitmap>)
    requires c.Valid() && p.lib.Consistent() && p.font.WellFormed() && b.y >= 0 && b.style.size >= 1
    requires !IsControl(b.element)
    requires IsRaster(b.element) ==> bitmap.Some? && IsRasterOf(p, b.element, bitmap.value)
    modifies c.bits
    ensures forall u: nat, v: nat | u < 8 * RowBytes(c.width) ::
              c.Set(u, v) <==> old(c.Set(u, v)) || (c.Visible(u, v) && Covers(p, b, u, v))
  {
    if b.element.Source? && b.element.element.Divider? {
      c.PaintDivider(b.element.element.style, b.element.element.size, b.y);
    } else if IsRaster(b.element) {
      c.PaintGlyph(0, b.y, bitmap.value);
    } else {
      var content := TextContent(b.element);
      if content.Some? {
        PaintText(c, p, b, content.value);
      }
    }
  }

  /**
    The whole canvas: sized by the page or its content, each pixel set exactly
    when some block covers it, the padding bits of every row unset, and the
    controls in document order. Fails exactly when some block cannot be painted.
   */
  method Paint(p: Page, blocks: seq<Block>) returns (r: Option<Canvas>)
    requires p.lib.Consistent() && p.font.WellFormed() && p.width >= 0 && Paintable(blocks)
    ensures r.Some? <==> forall i | 0 <= i < |blocks| :: p.Height(blocks[i]).Some?
    ensures r.Some? ==>
              var c := r.value;
              && fresh(c) && c.Valid()
              && c.width == Widest(p, blocks, |blocks|) && c.height == Bottom(p, blocks, |blocks|)
              && c.controls == ControlsTo(blocks, |blocks|)
              && forall u: nat, v: nat | u < 8 * RowBytes(c.width) ::
                   c.Set(u, v) <==> c.Visible(u, v) && CoveredTo(p, blocks, |blocks|, u, v)
  {
    var ok, width, height, bitmaps := MeasureAll(p, blocks);
    if !ok {
      return None;
    }
    SizesNonNegative(p, blocks, |blocks|);
    var c := new Canvas(width, height);
    for i := 0 to |blocks|
      invariant c.Valid() && fresh(c) && fresh(c.bits) && c.controls == ControlsTo(blocks, i)
      invariant forall u: nat, v: nat | u < 8 * RowBytes(c.width) ::
                  c.Set(u, v) <==> c.Visible(u, v) && CoveredTo(p, blocks, i, u, v)
    {
      var b := blocks[i];
      if IsControl(b.element) {
        c.controls := c.controls + [Control(b.y, b.element.element, i == |blocks| - 1)];
      } else {
        PaintBlock(c, p, b, bitmaps[i]);
      }
    }
    r := Some(c);
  }

  lemma {:induction false} SizesNonNegative(p: Page, blocks: seq<Block>, n: nat)
    requires n <= |blocks| && p.width >= 0
    ensures Bottom(p, blocks, n) >= 0 && Widest(p, blocks, n) >= 0
    decreases n
  {
    if n > 0 { SizesNonNegative(p, blocks, n - 1); }
  }

  // ------------------------------------------------------------------ layout and painting agree

  /**
    Blocks stacked by layout: painting succeeds, no block overlaps the next, and
    the canvas is exactly as tall as layout's final position.
   */
  lemma {:induction false} StackedPaints(p: Page, blocks: seq<Block>, n: nat, end: int)
    requires n <= |blocks| && p.Stacked(blocks[..n], 0, end)
    ensures end >= 0 && Bottom(p, blocks, n) == end
    ensures forall i | 0 <= i < n ::
              p.Height(blocks[i]).Some? && 0 <= blocks[i].y && blocks[i].style.size >= 1
              && blocks[i].y + p.Height(blocks[i]).value == (if i == n - 1 then end else blocks[i + 1].y)
    ensures n > 0 ==> blocks[0].y == 0 && blocks[n - 1].y <= end
    decreases n
  {
    if n > 0 {
      var last := blocks[n - 1];
      assert blocks[..n][..n - 1] == blocks[..n - 1];
      StackedPaints(p, blocks, n - 1, last.y);
    }
  }

  lemma StackedIncreasing(p: Page, blocks: seq<Block>, end: int, i: nat, j: nat)
    requires p.Stacked(blocks, 0, end) && i <= j < |blocks|
    ensures 0 <= blocks[i].y <= blocks[j].y <= end
    decreases j - i
  {
    assert blocks[..|blocks|] == blocks;
    StackedPaints(p, blocks, |blocks|, end);
    if i < j {
      assert p.Height(blocks[i]).Some?;
      StackedSuffix(p, blocks, end, i);
      StackedIncreasing(p, blocks, end, i + 1, j);
    } else {
      StackedSuffix(p, blocks, end, i);
    }
  }

  lemma StackedSuffix(p: Page, blocks: seq<Block>, end: int, i: nat)
    requires p.Stacked(blocks, 0, end) && i < |blocks|
    ensures p.Height(blocks[i]).Some? && p.Height(blocks[i]).value >= 0 && blocks[i].y <= end
    decreases |blocks|
  {
    if i < |blocks| - 1 {
      StackedSuffix(p, blocks[..|blocks| - 1], blocks[|blocks| - 1].y, i);
    }
  }

  /** The controls of stacked blocks: sorted, within the canvas, only the last block's Terminal. */
  lemma {:induction false} ControlsOrdered(p: Page, blocks: seq<Block>, end: int, n: nat)
    requires p.Stacked(blocks, 0, end) && n <= |blocks|
    ensures var cs := ControlsTo(blocks, n);
      && |cs| <= n
      && (forall i | 0 <= i < |cs| :: 0 <= cs[i].y <= end && (cs[i].element.Feed? || cs[i].element.Cut?))
      && (forall i | 0 <= i < |cs| && n > 0 :: cs[i].y <= blocks[n - 1].y)
      && (forall i, j | 0 <= i < j < |cs| :: cs[i].y <= cs[j].y)
      && (forall i | 0 <= i < |cs| :: cs[i].terminal <==> i == |cs| - 1 && n == |blocks| && IsControl(blocks[n - 1].element))
    decreases n
  {
    if n > 0 {
      ControlsOrdered(p, blocks, end, n - 1);
      StackedIncreasing(p, blocks, end, n - 1, n - 1);
      if n > 1 { StackedIncreasing(p, blocks, end, n - 2, n - 1); }
    }
  }
}
