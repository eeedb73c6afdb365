/**
  Where a block's dots can be: within the height layout reserved for it, and within
  the width it was measured to have. So stacked blocks never share a dot, and the
  canvas clips none of their rows.
 */
module Extents {
  import opened Receipts
  import opened Bitmaps
  import opened Glyphs
  import opened Images
  import opened Fonts
  import opened Layout
  import opened Painting

  /** No glyph is taller than a line or wider than its advance. */
  ghost predicate GlyphsFit(f: Font) {
    forall c :: f.bitmap(c).height <= f.lineHeight && f.bitmap(c).width <= f.advance(c)
  }

  /** A line is tall enough for the decorations drawn on it. */
  predicate LineHolds(f: Font, style: Style) {
    (style.underline ==> f.lineHeight >= 1) && (style.strikethrough ==> f.lineHeight >= 2)
  }

  // ------------------------------------------------------------------ one glyph

  lemma ScaledExtent(b: Bitmap, factor: nat, x: int, y: int)
    requires factor >= 1 && ScaledPixel(b, factor, x, y)
    ensures 0 <= x < b.width * factor && 0 <= y < b.height * factor
  {
    NegativeQuotient(x, factor);
    NegativeQuotient(y, factor);
    QuotientBound(x, factor, b.width);
    QuotientBound(y, factor, b.height);
  }

  lemma StyledExtent(b: Bitmap, style: Style, x: int, y: int)
    requires style.size >= 1 && StyledPixel(b, style, x, y)
    ensures 0 <= x < b.width * style.size && 0 <= y < b.height * style.size
  {
    if !style.italic && !style.bold { ScaledExtent(b, style.size, x, y); }
  }

  lemma GlyphExtent(f: Font, content: string, style: Style, k: nat, x: int, y: int)
    requires GlyphsFit(f) && style.size >= 1 && k < |content| && GlyphCovers(f, content, style, k, x, y)
    ensures GlyphX(f, content, style.size, k) <= x < GlyphX(f, content, style.size, k + 1)
    ensures 0 <= y < f.lineHeight * style.size
  {
    var b := f.bitmap(content[k]);
    StyledExtent(b, style, x - GlyphX(f, content, style.size, k), y);
    MulMonotone(b.height, f.lineHeight, style.size);
    MulMonotone(b.width, f.advance(content[k]), style.size);
  }

  // ------------------------------------------------------------------ a line of text

  lemma {:induction false} GlyphXIncreases(f: Font, content: string, size: nat, k: nat, n: nat)
    requires k <= n <= |content|
    ensures GlyphX(f, content, size, k) <= GlyphX(f, content, size, n)
    decreases n
  {
    if k < n {
      GlyphXIncreases(f, content, size, k, n - 1);
      MulMonotone(0, f.advance(content[n - 1]), size);
    }
  }

  lemma {:induction false} GlyphsExtent(f: Font, content: string, style: Style, n: nat, x: int, y: int)
    requires GlyphsFit(f) && style.size >= 1 && n <= |content| && GlyphsCover(f, content, style, n, x, y)
    ensures 0 <= x < GlyphX(f, content, style.size, n) && 0 <= y < f.lineHeight * style.size
    decreases n
  {
    if GlyphCovers(f, content, style, n - 1, x, y) {
      GlyphExtent(f, content, style, n - 1, x, y);
    } else {
      GlyphsExtent(f, content, style, n - 1, x, y);
      GlyphXIncreases(f, content, style.size, n - 1, n);
    }
  }

  lemma DecorationExtent(f: Font, style: Style, textWidth: int, x: int, y: int)
    requires style.size >= 1 && LineHolds(f, style)
    requires DecorationPixel(style, f.lineHeight * style.size, textWidth, x, y)
    ensures 0 <= x < textWidth && 0 <= y < f.lineHeight * style.size
  {
    if style.underline { MulMonotone(1, f.lineHeight, style.size); }
    if style.strikethrough { MulMonotone(2, f.lineHeight, style.size); }
  }

  lemma TextExtent(f: Font, content: string, style: Style, x: int, y: int)
    requires GlyphsFit(f) && style.size >= 1 && LineHolds(f, style) && TextPixel(f, content, style, x, y)
    ensures 0 <= x < f.Measure(content) * style.size && 0 <= y < f.lineHeight * style.size
  {
    GlyphXIsMeasure(f, content, style.size, |content|);
    assert content[..|content|] == content;
    if GlyphsCover(f, content, style, |content|, x, y) {
      GlyphsExtent(f, content, style, |content|, x, y);
    } else {
      DecorationExtent(f, style, GlyphX(f, content, style.size, |content|), x, y);
    }
  }

  // ------------------------------------------------------------------ a block

  lemma RasterExtent(p: Page, e: BlockElement, x: int, y: int)
    requires p.lib.Consistent() && IsRaster(e) && RasterPixel(p, e, x, y)
    ensures var size := RasterSize(p.lib, e, p.width);
      size.Some? && 0 <= x < size.value.0 && 0 <= y < size.value.1
  {}

  /** Whatever a block covers lies within the height painting and layout give it, and right of the edge. */
  lemma BlockExtent(p: Page, b: Block, x: int, y: int)
    requires p.lib.Consistent() && GlyphsFit(p.font) && b.style.size >= 1 && LineHolds(p.font, b.style)
    requires p.Height(b).Some? && Covers(p, b, x, y)
    ensures b.y <= y < b.y + p.Height(b).value
  {
    if IsRaster(b.element) {
      RasterExtent(p, b.element, x, y - b.y);
    } else if TextContent(b.element).Some? {
      TextExtent(p.font, TextContent(b.element).value, b.style, x, y - b.y);
    }
  }

  predicate IsDivider(e: BlockElement) {
    e.Source? && e.element.Divider?
  }

  /** And, dividers aside, which span every canvas, within its measured width. */
  lemma BlockWidth(p: Page, b: Block, x: int, y: int)
    requires p.lib.Consistent() && GlyphsFit(p.font) && b.style.size >= 1 && LineHolds(p.font, b.style)
    requires Covers(p, b, x, y) && !IsDivider(b.element)
    ensures 0 <= x < ContentWidth(p, b)
  {
    if IsRaster(b.element) {
      RasterExtent(p, b.element, x, y - b.y);
    } else {
      TextExtent(p.font, TextContent(b.element).value, b.style, x, y - b.y);
    }
  }

  /** Images, assets and codes are never wider than a known printable width. */
  lemma RasterFitsPage(p: Page, b: Block)
    requires p.width > 0 && p.lib.Consistent() && IsRaster(b.element)
    ensures ContentWidth(p, b) <= p.width
  {
    match b.element
    case AlignedAsset(data, width, align) =>
      if p.lib.decode(data).Some? {
        TargetFits(p.lib.decode(data).value.width, p.lib.decode(data).value.height, width, p.width);
      }
    case Source(Image(data)) =>
      if p.lib.decode(data).Some? {
        TargetFits(p.lib.decode(data).value.width, p.lib.decode(data).value.height, 0, p.width);
      }
    case Source(QRCode(_, size, _)) => CodesFit(size, 0, p.width);
    case Source(Barcode(content, symbology, _, _)) =>
      if p.lib.barcode(content, symbology).Some? {
        CodesFit(0, p.lib.barcode(content, symbology).value.width, p.width);
      }
  }

  // ------------------------------------------------------------------ stacked blocks

  /** Every block's line holds its decorations. */
  ghost predicate AllHold(f: Font, blocks: seq<Block>) {
    forall i | 0 <= i < |blocks| :: LineHolds(f, blocks[i].style)
  }

  /** Where block `i`'s rows end, a later block's begin. */
  lemma RowsApart(p: Page, blocks: seq<Block>, end: int, i: nat, j: nat)
    requires p.Stacked(blocks, 0, end) && i < j < |blocks|
    ensures p.Height(blocks[i]).Some? && blocks[i].y + p.Height(blocks[i]).value <= blocks[j].y
  {
    assert blocks[..|blocks|] == blocks;
    StackedPaints(p, blocks, |blocks|, end);
    StackedIncreasing(p, blocks, end, i + 1, j);
  }

  /** No dot belongs to two blocks of a document. */
  lemma DotInOneBlock(p: Page, blocks: seq<Block>, end: int, i: nat, j: nat, x: int, y: int)
    requires p.lib.Consistent() && GlyphsFit(p.font) && AllHold(p.font, blocks)
    requires p.Stacked(blocks, 0, end) && Paintable(blocks) && i < |blocks| && j < |blocks|
    requires Covers(p, blocks[i], x, y) && Covers(p, blocks[j], x, y)
    ensures i == j
  {
    assert blocks[..|blocks|] == blocks;
    StackedPaints(p, blocks, |blocks|, end);
    BlockExtent(p, blocks[i], x, y);
    BlockExtent(p, blocks[j], x, y);
    if i < j { RowsApart(p, blocks, end, i, j); }
    if j < i { RowsApart(p, blocks, end, j, i); }
  }

  lemma {:induction false} WidestHolds(p: Page, blocks: seq<Block>, n: nat, i: nat)
    requires i < n <= |blocks| && p.width <= 0
    ensures ContentWidth(p, blocks[i]) <= Widest(p, blocks, n)
    decreases n
  {
    if i < n - 1 { WidestHolds(p, blocks, n - 1, i); }
  }

  /**
    A dot of a block that is no wider than the page, dividers aside, is on the canvas
    painting makes for the document: no row is clipped, nor, on such blocks, a column.
   */
  lemma NothingClipped(p: Page, blocks: seq<Block>, end: int, i: nat, x: int, y: int)
    requires p.lib.Consistent() && GlyphsFit(p.font) && AllHold(p.font, blocks)
    requires p.Stacked(blocks, 0, end) && Paintable(blocks) && i < |blocks| && Covers(p, blocks[i], x, y)
    ensures 0 <= y < Bottom(p, blocks, |blocks|)
    ensures !IsDivider(blocks[i].element) && (p.width > 0 ==> ContentWidth(p, blocks[i]) <= p.width) ==>
              0 <= x < Widest(p, blocks, |blocks|)
  {
    assert blocks[..|blocks|] == blocks;
    StackedPaints(p, blocks, |blocks|, end);
    BlockExtent(p, blocks[i], x, y);
    StackedIncreasing(p, blocks, end, i, |blocks| - 1);
    if i < |blocks| - 1 { StackedIncreasing(p, blocks, end, i + 1, |blocks| - 1); }
    if !IsDivider(blocks[i].element) {
      BlockWidth(p, blocks[i], x, y);
      if p.width <= 0 { WidestHolds(p, blocks, |blocks|, i); }
    }
  }

  // ------------------------------------------------------------------ no row is reserved in vain

  /** A glyph with a dot at the bottom of its line reaches the last of the rows reserved for its block. */
  lemma TextReachesLastRow(p: Page, b: Block, k: nat, x: nat)
    requires p.lib.Consistent() && b.style.size >= 1 && !b.style.bold && !b.style.italic
    requires TextContent(b.element).Some? && !IsRaster(b.element) && k < |TextContent(b.element).value|
    requires p.font.bitmap(TextContent(b.element).value[k]).At(x, p.font.lineHeight - 1)
    ensures p.Height(b).Some?
    ensures Covers(p, b, GlyphX(p.font, TextContent(b.element).value, b.style.size, k) + x * b.style.size,
                   b.y + p.Height(b).value - 1)
  {
    var content, size := TextContent(b.element).value, b.style.size;
    var u, v := x * size, p.font.lineHeight * size - 1;
    MulMonotone(1, p.font.lineHeight, size);
    InCell(size, x, u);
    assert (p.font.lineHeight - 1) * size + size == p.font.lineHeight * size;
    InCell(size, p.font.lineHeight - 1, v);
    assert ScaledPixel(p.font.bitmap(content[k]), size, u, v);
    assert GlyphCovers(p.font, content, b.style, k, GlyphX(p.font, content, size, k) + u, v);
    GlyphsCoverMeans(p.font, content, b.style, |content|, GlyphX(p.font, content, size, k) + u, v);
  }

  /** A divider covers its first and its last row; spacers take the height they ask for, and controls none. */
  lemma OtherHeights(p: Page, b: Block)
    requires p.lib.Consistent() && b.style.size >= 1 && b.element.Source?
    ensures b.element.element.Divider? ==>
              p.Height(b).Some? && Covers(p, b, 0, b.y) && Covers(p, b, 0, b.y + p.Height(b).value - 1)
    ensures b.element.element.Spacer? ==> p.Height(b) == Some(b.element.element.height)
    ensures b.element.element.Feed? || b.element.element.Cut? ==> p.Height(b) == Some(0)
  {}
}
