/**
  The whole rendering pipeline: layout, painting and encoding in turn. For a
  validated receipt each stage meets what the next relies on.
 */
module Pipeline {
  import opened Receipts
  import opened Bitmaps
  import opened Layout
  import opened Painting
  import opened Extents
  import opened Escpos
  import opened EscposPaper
  import opened EscposLimits

  /** A block's element, where it is the receipt's own, is as valid as what it came from. */
  ghost predicate ItemValid(item: Item) {
    item.element.Source? ==> Validated(item.element.element)
  }

  lemma LaidValid(e: Element, p: Page)
    requires Validated(e) && p.font.advance(' ') > 0 && Laid(e, p).Ok?
    ensures forall i | 0 <= i < |Laid(e, p).value| :: ItemValid(Laid(e, p).value[i])
  {}

  lemma {:induction false} LaidAllValid(es: seq<Element>, p: Page)
    requires p.font.advance(' ') > 0 && (forall i | 0 <= i < |es| :: Validated(es[i])) && LaidAll(es, p).Ok?
    ensures forall i | 0 <= i < |LaidAll(es, p).value| :: ItemValid(LaidAll(es, p).value[i])
    decreases |es|
  {
    if es != [] {
      LaidAllValid(es[..|es| - 1], p);
      LaidValid(es[|es| - 1], p);
    }
  }

  lemma {:induction false} FeedsInRange(blocks: seq<Block>, n: nat)
    requires n <= |blocks| && forall i | 0 <= i < |blocks| :: ItemValid(ItemsOf(blocks)[i])
    ensures forall i | 0 <= i < |ControlsTo(blocks, n)| && ControlsTo(blocks, n)[i].element.Feed? ::
              0 < ControlsTo(blocks, n)[i].element.lines < 256
    decreases n
  {
    if n > 0 {
      FeedsInRange(blocks, n - 1);
      assert ItemValid(ItemsOf(blocks)[n - 1]);
    }
  }

  /**
    What layout builds for a validated receipt always meets painting's and the
    encoder's demands: every block paints, the canvas ends where layout did, and
    the controls are in row order within it with feeds a single byte can carry.
   */
  lemma BuiltIsEncodable(es: seq<Element>, p: Page, blocks: seq<Block>, end: int)
    requires p.font.advance(' ') > 0 && forall i | 0 <= i < |es| :: Validated(es[i])
    requires p.Stacked(blocks, 0, end) && LaidAll(es, p) == Ok(ItemsOf(blocks))
    ensures Paintable(blocks) && (forall i | 0 <= i < |blocks| :: p.Height(blocks[i]).Some?)
    ensures Bottom(p, blocks, |blocks|) == end
    ensures var cs := ControlsTo(blocks, |blocks|);
      && (forall i | 0 <= i < |cs| :: 0 <= cs[i].y <= end)
      && (forall i, j | 0 <= i < j < |cs| :: cs[i].y <= cs[j].y)
      && (forall i | 0 <= i < |cs| && cs[i].element.Feed? :: 0 <= cs[i].element.lines < 256)
  {
    assert blocks[..|blocks|] == blocks;
    StackedPaints(p, blocks, |blocks|, end);
    ControlsOrdered(p, blocks, end, |blocks|);
    LaidAllValid(es, p);
    FeedsInRange(blocks, |blocks|);
  }

  /** `bits` is the picture of the blocks: a dot exactly where some block covers it. */
  ghost predicate Pictures(p: Page, blocks: seq<Block>, width: nat, height: nat, bits: seq<bv8>)
    requires p.lib.Consistent() && Paintable(blocks)
  {
    && |bits| == RowBytes(width) * height
    && forall u: nat, v: nat | u < 8 * RowBytes(width) ::
         Pixel(bits, RowBytes(width), u, v) <==> u < width && v < height && CoveredTo(p, blocks, |blocks|, u, v)
  }

  /** Painting's contract, read off the canvas's bytes. */
  lemma PaintedPictures(p: Page, blocks: seq<Block>, c: Canvas)
    requires p.lib.Consistent() && Paintable(blocks) && c.Valid()
    requires forall u: nat, v: nat | u < 8 * RowBytes(c.width) ::
               c.Set(u, v) <==> c.Visible(u, v) && CoveredTo(p, blocks, |blocks|, u, v)
    ensures Pictures(p, blocks, c.width, c.height, c.bits[..])
  {
    forall u: nat, v: nat | u < 8 * RowBytes(c.width)
      ensures Pixel(c.bits[..], RowBytes(c.width), u, v)
         <==> u < c.width && v < c.height && CoveredTo(p, blocks, |blocks|, u, v)
    {
      assert c.Set(u, v) <==> c.Visible(u, v) && CoveredTo(p, blocks, |blocks|, u, v);
    }
  }

  /**
    Nothing a receipt draws is lost: every dot of a block no wider than the page,
    dividers aside, is a dot of the picture.
   */
  lemma EveryDotPrinted(p: Page, blocks: seq<Block>, width: nat, end: nat, bits: seq<bv8>, i: nat, x: int, y: int)
    requires p.lib.Consistent() && GlyphsFit(p.font) && AllHold(p.font, blocks) && Paintable(blocks)
    requires p.Stacked(blocks, 0, end) && width == Widest(p, blocks, |blocks|) && Pictures(p, blocks, width, end, bits)
    requires i < |blocks| && Covers(p, blocks[i], x, y) && !IsDivider(blocks[i].element)
    requires p.width > 0 ==> ContentWidth(p, blocks[i]) <= p.width
    ensures 0 <= x < width && 0 <= y < end && Pixel(bits, RowBytes(width), x, y)
  {
    assert blocks[..|blocks|] == blocks;
    StackedPaints(p, blocks, |blocks|, end);
    NothingClipped(p, blocks, end, i, x, y);
    CoveredMeans(p, blocks, |blocks|, x, y);
  }

  /** And nothing is drawn twice: every dot of the picture is one block's, and no other's. */
  lemma EveryDotOnce(p: Page, blocks: seq<Block>, width: nat, end: nat, bits: seq<bv8>, x: nat, y: nat) returns (i: nat)
    requires p.lib.Consistent() && GlyphsFit(p.font) && AllHold(p.font, blocks) && Paintable(blocks)
    requires p.Stacked(blocks, 0, end) && Pictures(p, blocks, width, end, bits)
    requires x < 8 * RowBytes(width) && Pixel(bits, RowBytes(width), x, y)
    ensures x < width && y < end && i < |blocks| && Covers(p, blocks[i], x, y)
    ensures forall j: nat | j < |blocks| && Covers(p, blocks[j], x, y) :: j == i
  {
    CoveredMeans(p, blocks, |blocks|, x, y);
    i :| 0 <= i < |blocks| && Covers(p, blocks[i], x, y);
    forall j: nat | j < |blocks| && Covers(p, blocks[j], x, y)
      ensures j == i
    {
      DotInOneBlock(p, blocks, end, i, j, x, y);
    }
  }

  lemma RenderedMeans(width: nat, height: nat, bits: seq<bv8>, cs: seq<Control>, profile: Profile)
    requires Drawn(width, height, bits, cs) && Encoded(width, height, bits, cs, profile).Some?
    requires forall i | 0 <= i < |cs| :: cs[i].element.Feed? || cs[i].element.Cut?
    ensures var meant := Interpret(Encoded(width, height, bits, cs, profile).value, Buffer(profile))
                         == Some(Paper(bits, RowBytes(width), height, cs, profile));
      && (Expressible(width, height, cs, profile) ==> meant)
      && (profile.supportsCut && meant ==> Expressible(width, height, cs, profile))
  {
    if profile.supportsCut {
      MeansPaperIff(width, height, bits, cs, profile);
    } else if Expressible(width, height, cs, profile) {
      EncodedMeansPaper(width, height, bits, cs, profile);
    }
  }

  /**
    From elements to bytes. An element that cannot be laid out stops it; otherwise
    painting succeeds and the result is the encoding of the blocks' picture, as wide
    as the page or its content and as tall as the laid-out document. The bytes mean
    that picture's paper when its sizes fit the raster command, and on a printer
    that cuts only then.
   */
  method Render(es: seq<Element>, p: Page, profile: Profile)
    returns (r: Option<seq<bv8>>, ghost blocks: seq<Block>, ghost width: nat, ghost bits: seq<bv8>, ghost end: nat)
    requires p.font.advance(' ') > 0 && p.font.WellFormed() && p.lib.Consistent() && p.width >= 0
    requires forall i | 0 <= i < |es| :: Validated(es[i])
    ensures LaidAll(es, p).Err? ==> r == None
    ensures LaidAll(es, p).Ok? ==>
              && p.Stacked(blocks, 0, end) && Paintable(blocks) && LaidAll(es, p) == Ok(ItemsOf(blocks))
              && width == Widest(p, blocks, |blocks|) && Pictures(p, blocks, width, end, bits)
              && (forall i | 0 <= i < |ControlsTo(blocks, |blocks|)| :: 0 <= ControlsTo(blocks, |blocks|)[i].y <= end)
              && r == Encoded(width, end, bits, ControlsTo(blocks, |blocks|), profile)
    ensures LaidAll(es, p).Ok? && r.Some? ==>
              var cs := ControlsTo(blocks, |blocks|);
              var meant := Interpret(r.value, Buffer(profile)) == Some(Paper(bits, RowBytes(width), end, cs, profile));
              && Drawn(width, end, bits, cs)
              && (Expressible(width, end, cs, profile) ==> meant)
              && (profile.supportsCut && meant ==> Expressible(width, end, cs, profile))
  {
    blocks, width, bits, end := [], 0, [], 0;
    var built, last := Build(es, p);
    if built.Err? {
      return None, blocks, width, bits, end;
    }
    blocks := built.value;
    BuiltIsEncodable(es, p, blocks, last);
    var painted := Paint(p, built.value);
    var c := painted.value;
    PaintedPictures(p, blocks, c);
    var data := c.bits[..];
    width, bits, end := c.width, data, c.height;
    r := Encode(c.width, c.height, data, c.controls, profile);
    if r.Some? {
      ControlsOrdered(p, blocks, last, |blocks|);
      RenderedMeans(width, end, bits, c.controls, profile);
    }
  }

  lemma ControlsHaveCommands(es: seq<Element>, p: Page, blocks: seq<Block>, n: nat, profile: Profile)
    requires p.font.advance(' ') > 0 && (forall i | 0 <= i < |es| :: Validated(es[i]))
    requires LaidAll(es, p) == Ok(ItemsOf(blocks)) && n <= |blocks|
    requires profile.defaultCut == "full" || profile.defaultCut == "partial"
    ensures forall i | 0 <= i < |ControlsTo(blocks, n)| :: ControlCommand(ControlsTo(blocks, n)[i].element, profile).Some?
    decreases n
  {
    LaidAllValid(es, p);
    if n > 0 {
      ControlsHaveCommands(es, p, blocks, n - 1, profile);
      assert ItemValid(ItemsOf(blocks)[n - 1]);
    }
  }

  /**
    On a profile with a usable default cut, a validated receipt that can be laid out
    is refused by the encoder only when there is nothing to print.
   */
  lemma OnlyEmptyRefused(es: seq<Element>, p: Page, blocks: seq<Block>, end: nat, width: nat, bits: seq<bv8>, profile: Profile)
    requires p.font.advance(' ') > 0 && (forall i | 0 <= i < |es| :: Validated(es[i]))
    requires p.Stacked(blocks, 0, end) && LaidAll(es, p) == Ok(ItemsOf(blocks)) && |bits| == RowBytes(width) * end
    requires profile.defaultCut == "full" || profile.defaultCut == "partial"
    requires forall i | 0 <= i < |ControlsTo(blocks, |blocks|)| :: 0 <= ControlsTo(blocks, |blocks|)[i].y <= end
    ensures Encoded(width, end, bits, ControlsTo(blocks, |blocks|), profile) == None <==> width == 0 || end == 0
  {
    ControlsHaveCommands(es, p, blocks, |blocks|, profile);
    EncodeFailsIff(width, end, bits, ControlsTo(blocks, |blocks|), profile);
  }
}
