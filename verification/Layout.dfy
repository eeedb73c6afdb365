/**
  Stacking a receipt's elements into positioned blocks. The height layout
  advances by, mostly read from headers, is the height painting later gives the block.
 */
module Layout {
  import opened Receipts
  import opened Glyphs
  import opened Images
  import opened Fonts
  import opened Wrap
  import opened ColumnLayout
  import opened TextLayout

  datatype BlockElement =
    | Source(element: Element)
    | TableLine(content: string)
    | ColumnsLine(content: string)
    | ListLine(content: string)
    | BarcodeCaption(content: string)
    | AlignedAsset(data: seq<bv8>, width: int, align: string)

  datatype Block = Block(y: int, element: BlockElement, style: Style)

  datatype BuildError = Permanent | AssetMissing

  /** The image, QR and barcode libraries and the asset store, as functions. */
  datatype Library = Library(
    config: seq<bv8> -> Option<(nat, nat)>,
    decode: seq<bv8> -> Option<Image>,
    qr: (string, string) -> Option<Image>,
    barcode: (string, string) -> Option<Image>,
    assets: Option<string -> Option<seq<bv8>>>)
  {
    /** A header reports the size its image decodes to; decoded images are not empty. */
    ghost predicate Consistent() {
      && (forall data :: config(data).Some? <==> decode(data).Some?)
      && (forall data | decode(data).Some? :: config(data) == Some((decode(data).value.width, decode(data).value.height)))
      && (forall data | decode(data).Some? :: Sound(decode(data).value))
      && (forall c, l | qr(c, l).Some? :: Sound(qr(c, l).value))
      && (forall c, s | barcode(c, s).Some? :: Sound(barcode(c, s).value))
    }

    static ghost predicate Sound(img: Image) {
      img.width > 0 && img.height > 0 && Premultiplied(img)
    }
  }

  const DIVIDER_THICKNESS: nat := 2
  const DEFAULT_QR_SIZE: nat := 200
  const DEFAULT_BARCODE_HEIGHT: nat := 80
  const BARCODE_MODULE_WIDTH: nat := 2

  const NORMAL_STYLE := Style(false, false, false, false, 1)
  const HEADING_STYLE := Style(true, false, false, false, 2)

  function TextStyle(e: Element): (s: Style)
    requires e.Text?
    ensures s.size >= 1
  {
    Style(e.bold, e.italic, e.underline, e.strikethrough, ResolveSize(e.size))
  }

  function QrSize(size: int, maxWidth: int): nat {
    var s := if size <= 0 then DEFAULT_QR_SIZE else size;
    ScaledImageSize(s, s, maxWidth).0
  }

  function BarcodeWidth(native: nat, maxWidth: int): nat {
    if 0 < maxWidth < native * BARCODE_MODULE_WIDTH then maxWidth else native * BARCODE_MODULE_WIDTH
  }

  function BarcodeHeight(height: int): nat {
    if height > 0 then height else DEFAULT_BARCODE_HEIGHT
  }

  /** No code is wider than a known printable width, nor a QR code larger than asked for. */
  lemma CodesFit(size: int, native: nat, maxWidth: int)
    requires maxWidth > 0
    ensures QrSize(size, maxWidth) <= maxWidth && BarcodeWidth(native, maxWidth) <= maxWidth
    ensures size > 0 ==> QrSize(size, maxWidth) <= size
    ensures size > 0 && size <= maxWidth ==> QrSize(size, maxWidth) == size
    ensures size <= 0 && maxWidth >= 200 ==> QrSize(size, maxWidth) == 200
    ensures 2 * native <= maxWidth ==> BarcodeWidth(native, maxWidth) == 2 * native
  {}

  /** What each element's own Validate guarantees, as far as layout relies on it. */
  ghost predicate Validated(e: Element) {
    match e
    case Spacer(height) => height >= 0
    case Feed(lines) => 0 < lines <= 255
    case Cut(mode) => mode == "" || mode == "full" || mode == "partial"
    case Table(_, _) => TableRows(e)
    case List(_, items) => forall i | 0 <= i < |items| :: items[i].indent >= 0
    case Columns(columns) => columns != []
    case _ => true
  }

  // ------------------------------------------------------------------ what painting will use

  function TextContent(e: BlockElement): Option<string> {
    match e
    case Source(Text(c, _, _, _, _, _, _)) => Some(c)
    case Source(Heading(c)) => Some(c)
    case TableLine(c) => Some(c)
    case ColumnsLine(c) => Some(c)
    case ListLine(c) => Some(c)
    case BarcodeCaption(c) => Some(c)
    case _ => None
  }

  predicate IsRaster(e: BlockElement) {
    e.AlignedAsset? || (e.Source? && (e.element.Image? || e.element.QRCode? || e.element.Barcode?))
  }

  predicate IsControl(e: BlockElement) {
    e.Source? && (e.element.Feed? || e.element.Cut?)
  }

  function ImageSize(lib: Library, data: seq<bv8>, requested: int, maxWidth: int): Option<(nat, nat)> {
    var img := lib.decode(data);
    if img == None || img.value.width == 0 then None
    else Some(TargetImageSize(img.value.width, img.value.height, requested, maxWidth))
  }

  /** The size of the bitmap painting resolves for a raster block, None when it cannot. */
  function RasterSize(lib: Library, e: BlockElement, maxWidth: int): Option<(nat, nat)> {
    match e
    case AlignedAsset(data, width, align) =>
      var size := ImageSize(lib, data, width, maxWidth);
      if size == None then None
      else Some((AlignedWidth(size.value.0, align, maxWidth), size.value.1))
    case Source(Image(data)) => ImageSize(lib, data, 0, maxWidth)
    case Source(QRCode(content, size, level)) =>
      if lib.qr(content, level) == None then None else Some((QrSize(size, maxWidth), QrSize(size, maxWidth)))
    case Source(Barcode(content, symbology, height, _)) =>
      var bars := lib.barcode(content, symbology);
      if bars == None then None else Some((BarcodeWidth(bars.value.width, maxWidth), BarcodeHeight(height)))
    case _ => None
  }

  /** A block's vertical extent as painting computes it; None is an unsupported element. */
  function PaintHeight(lib: Library, f: Font, maxWidth: int, e: BlockElement, style: Style): Option<int> {
    if IsRaster(e) then
      var size := RasterSize(lib, e, maxWidth);
      if size == None then None else Some(size.value.1)
    else if TextContent(e).Some? then Some(f.lineHeight * style.size)
    else match e
      case Source(Spacer(height)) => Some(height)
      case Source(Divider(_, size)) => Some(DIVIDER_THICKNESS * ResolveSize(size))
      case Source(Feed(_)) => Some(0)
      case Source(Cut(_)) => Some(0)
      case _ => None
  }

  // ------------------------------------------------------------------ stacking

  /** Where blocks are laid out: the libraries, the font and the printable width. */
  datatype Page = Page(lib: Library, font: Font, width: int) {
    function Height(b: Block): Option<int> {
      PaintHeight(lib, font, width, b.element, b.style)
    }

    /** Blocks fill [from, to): each begins where painting ends the one before. */
    ghost predicate Stacked(blocks: seq<Block>, from: int, to: int) {
      if blocks == [] then from == to
      else
        var last := blocks[|blocks| - 1];
        && Height(last).Some? && Height(last).value >= 0 && last.style.size >= 1
        && last.y + Height(last).value == to
        && Stacked(blocks[..|blocks| - 1], from, last.y)
    }

    lemma {:induction false} StackedConcat(a: seq<Block>, b: seq<Block>, from: int, mid: int, to: int)
      requires Stacked(a, from, mid) && Stacked(b, mid, to)
      ensures Stacked(a + b, from, to)
      decreases |b|
    {
      if b == [] {
        assert a + b == a;
      } else {
        assert (a + b)[..|a + b| - 1] == a + b[..|b| - 1];
        StackedConcat(a, b[..|b| - 1], from, mid, b[|b| - 1].y);
      }
    }

    lemma StackedOne(b: Block, to: int)
      requires Height(b).Some? && Height(b).value >= 0 && b.style.size >= 1 && b.y + Height(b).value == to
      ensures Stacked([b], b.y, to)
    {
      assert [b][..0] == [];
    }

    lemma StackedAppend(a: seq<Block>, b: Block, from: int, to: int)
      requires Stacked(a, from, b.y)
      requires Height(b).Some? && Height(b).value >= 0 && b.style.size >= 1 && b.y + Height(b).value == to
      ensures Stacked(a + [b], from, to)
    {
      assert (a + [b])[..|a|] == a;
    }
  }

  /** A block without its position. */
  datatype Item = Item(element: BlockElement, style: Style)

  function ItemsOf(blocks: seq<Block>): (items: seq<Item>)
    ensures |items| == |blocks|
    ensures forall i | 0 <= i < |blocks| :: items[i] == Item(blocks[i].element, blocks[i].style)
  {
    seq(|blocks|, i requires 0 <= i < |blocks| => Item(blocks[i].element, blocks[i].style))
  }

  /** The element with just one line's content. */
  function WithContent(e: Element, content: string): Element
    requires e.Text?
  {
    Text(content, e.align, e.bold, e.italic, e.underline, e.strikethrough, e.size)
  }

  function TextItems(e: Element, lines: seq<string>, p: Page): (items: seq<Item>)
    requires e.Text? && p.font.advance(' ') > 0
    ensures |items| == |lines|
  {
    seq(|lines|, i requires 0 <= i < |lines| =>
      Item(Source(WithContent(e, Aligned(lines[i], e.align, p.width, p.font, TextStyle(e).size))), TextStyle(e)))
  }

  function LineItems(elements: seq<BlockElement>, style: Style): (items: seq<Item>)
    ensures |items| == |elements|
  {
    seq(|elements|, i requires 0 <= i < |elements| => Item(elements[i], style))
  }

  function Wrapped(lines: seq<string>, as_: string -> BlockElement): (elements: seq<BlockElement>)
    ensures |elements| == |lines|
    ensures forall i | 0 <= i < |lines| :: elements[i] == as_(lines[i])
  {
    seq(|lines|, i requires 0 <= i < |lines| => as_(lines[i]))
  }

  /** What one element becomes, or the error that stops the build. */
  function Laid(e: Element, p: Page): Result<seq<Item>, BuildError>
    requires Validated(e) && p.font.advance(' ') > 0
  {
    match e
    case Text(content, _, _, _, _, _, _) =>
      Ok(TextItems(e, TextLines(content, p.width, p.font, TextStyle(e).size), p))
    case Heading(content) =>
      Ok(LineItems(Wrapped(TextLines(content, p.width, p.font, HEADING_STYLE.size), line => Source(Heading(line))), HEADING_STYLE))
    case Spacer(_) => Ok([Item(Source(e), NORMAL_STYLE)])
    case Divider(_, _) => Ok([Item(Source(e), NORMAL_STYLE)])
    case Feed(_) => Ok([Item(Source(e), NORMAL_STYLE)])
    case Cut(_) => Ok([Item(Source(e), NORMAL_STYLE)])
    case Image(data) =>
      if p.lib.config(data) == None then Err(Permanent) else Ok([Item(Source(e), NORMAL_STYLE)])
    case Asset(name, width, align) =>
      if p.lib.assets == None then Err(Permanent)
      else if p.lib.assets.value(name) == None then Err(AssetMissing)
      else
        var data := p.lib.assets.value(name).value;
        if p.lib.config(data) == None then Err(Permanent)
        else Ok([Item(AlignedAsset(data, width, align), NORMAL_STYLE)])
    case QRCode(content, _, level) =>
      if p.lib.qr(content, level) == None then Err(Permanent) else Ok([Item(Source(e), NORMAL_STYLE)])
    case Barcode(content, symbology, _, showText) =>
      var bars := p.lib.barcode(content, symbology);
      if bars == None then Err(Permanent)
      else if !showText then Ok([Item(Source(e), NORMAL_STYLE)])
      else
        var caption := Aligned(content, "center", BarcodeWidth(bars.value.width, p.width), p.font, 1);
        Ok([Item(Source(e), NORMAL_STYLE), Item(BarcodeCaption(caption), NORMAL_STYLE)])
    case Table(_, _) => Ok(LineItems(Wrapped(TableLinesOf(e, p.width, p.font), line => TableLine(line)), NORMAL_STYLE))
    case Columns(columns) =>
      if !TextColumns(columns) then Err(Permanent)
      else Ok(LineItems(Wrapped(ColumnsLinesOf(columns, p.width, p.font), line => ColumnsLine(line)), NORMAL_STYLE))
    case List(kind, items) =>
      Ok(LineItems(Wrapped(AllItemLines(kind, items, p.width, p.font), line => ListLine(line)), NORMAL_STYLE))
  }

  // ------------------------------------------------------------------ building

  lemma ItemsConcat(a: seq<Block>, b: seq<Block>)
    ensures ItemsOf(a + b) == ItemsOf(a) + ItemsOf(b)
  {}

  /** One text-height block per element, stacked from `y`. */
  method StackLines(elements: seq<BlockElement>, style: Style, y: int, p: Page) returns (blocks: seq<Block>, end: int)
    requires style.size >= 1 && forall i | 0 <= i < |elements| :: TextContent(elements[i]).Some? && !IsRaster(elements[i])
    ensures p.Stacked(blocks, y, end) && ItemsOf(blocks) == LineItems(elements, style)
  {
    blocks, end := [], y;
    for i := 0 to |elements|
      invariant p.Stacked(blocks, y, end) && |blocks| == i
      invariant forall k | 0 <= k < i :: blocks[k].element == elements[k] && blocks[k].style == style
    {
      var b := Block(end, elements[i], style);
      LineHeightNonNegative(p.font.lineHeight, style.size);
      p.StackedAppend(blocks, b, y, end + p.font.lineHeight * style.size);
      blocks := blocks + [b];
      end := end + p.font.lineHeight * style.size;
    }
  }

  lemma LineHeightNonNegative(lineHeight: nat, size: int)
    requires size >= 1
    ensures lineHeight * size >= 0
  {}

  /** One block of the given height. */
  method StackBlock(element: BlockElement, height: int, y: int, p: Page) returns (blocks: seq<Block>, end: int)
    requires PaintHeight(p.lib, p.font, p.width, element, NORMAL_STYLE) == Some(height) && height >= 0
    ensures p.Stacked(blocks, y, end) && ItemsOf(blocks) == [Item(element, NORMAL_STYLE)]
  {
    var b := Block(y, element, NORMAL_STYLE);
    blocks, end := [b], y + height;
    p.StackedOne(b, end);
  }

  method BuildText(e: Element, y: int, p: Page) returns (blocks: seq<Block>, end: int)
    requires (e.Text? || e.Heading?) && p.font.advance(' ') > 0
    ensures p.Stacked(blocks, y, end) && Laid(e, p) == Ok(ItemsOf(blocks))
  {
    if e.Text? {
      var style := TextStyle(e);
      var lines := WrapText(e.content, p.width, p.font, style.size);
      var elements := [];
      for i := 0 to |lines|
        invariant |elements| == i
        invariant forall k | 0 <= k < i ::
                    elements[k] == Source(WithContent(e, Aligned(lines[k], e.align, p.width, p.font, style.size)))
      {
        var line := AlignPad(lines[i], e.align, p.width, p.font, style.size);
        elements := elements + [Source(WithContent(e, line))];
      }
      blocks, end := StackLines(elements, style, y, p);
      assert ItemsOf(blocks) == TextItems(e, lines, p);
    } else {
      var lines := WrapText(e.content, p.width, p.font, HEADING_STYLE.size);
      blocks, end := StackLines(Wrapped(lines, line => Source(Heading(line))), HEADING_STYLE, y, p);
    }
  }

  /** The height of an image or asset comes from its header alone. */
  method BuildImage(e: Element, y: int, p: Page) returns (r: Result<(seq<Block>, int), BuildError>)
    requires (e.Image? || e.Asset?) && p.font.advance(' ') > 0 && p.lib.Consistent()
    ensures r.Ok? ==> p.Stacked(r.value.0, y, r.value.1) && Laid(e, p) == Ok(ItemsOf(r.value.0))
    ensures r.Err? ==> Laid(e, p) == Err(r.error)
  {
    var data, requested, element := [], 0, Source(e);
    if e.Image? {
      data := e.data;
    } else {
      if p.lib.assets == None {
        return Err(Permanent);
      }
      var found := p.lib.assets.value(e.name);
      if found == None {
        return Err(AssetMissing);
      }
      data, requested := found.value, e.width;
      element := AlignedAsset(data, e.width, e.align);
    }
    var config := p.lib.config(data);
    if config == None {
      return Err(Permanent);
    }
    var (_, height) := TargetImageSize(config.value.0, config.value.1, requested, p.width);
    var blocks, end := StackBlock(element, height, y, p);
    r := Ok((blocks, end));
  }

  method BuildCode(e: Element, y: int, p: Page) returns (r: Result<(seq<Block>, int), BuildError>)
    requires (e.QRCode? || e.Barcode?) && p.font.advance(' ') > 0
    ensures r.Ok? ==> p.Stacked(r.value.0, y, r.value.1) && Laid(e, p) == Ok(ItemsOf(r.value.0))
    ensures r.Err? ==> Laid(e, p) == Err(r.error)
  {
    if e.QRCode? {
      if p.lib.qr(e.content, e.errorCorrection) == None {
        return Err(Permanent);
      }
      var blocks, end := StackBlock(Source(e), QrSize(e.size, p.width), y, p);
      return Ok((blocks, end));
    }
    var bars := p.lib.barcode(e.content, e.symbology);
    if bars == None {
      return Err(Permanent);
    }
    var blocks, end := StackBlock(Source(e), BarcodeHeight(e.height), y, p);
    if e.showText {
      var w := BarcodeWidth(bars.value.width, p.width);
      var caption := AlignPad(e.content, "center", w, p.font, 1);
      var more, end' := StackLines([BarcodeCaption(caption)], NORMAL_STYLE, end, p);
      p.StackedConcat(blocks, more, y, end, end');
      ItemsConcat(blocks, more);
      assert ItemsOf(more) == [Item(BarcodeCaption(caption), NORMAL_STYLE)];
      assert Laid(e, p).value == [Item(Source(e), NORMAL_STYLE)] + [Item(BarcodeCaption(caption), NORMAL_STYLE)];
      return Ok((blocks + more, end'));
    }
    r := Ok((blocks, end));
  }

  method BuildLines(e: Element, y: int, p: Page) returns (r: Result<(seq<Block>, int), BuildError>)
    requires (e.Table? || e.Columns? || e.List?) && Validated(e) && p.font.advance(' ') > 0
    ensures r.Ok? ==> p.Stacked(r.value.0, y, r.value.1) && Laid(e, p) == Ok(ItemsOf(r.value.0))
    ensures r.Err? ==> Laid(e, p) == Err(r.error)
  {
    var elements := [];
    if e.Table? {
      var lines := TableLines(e, p.width, p.font);
      elements := Wrapped(lines, line => TableLine(line));
    } else if e.Columns? {
      var lines := ColumnsLines(e.columns, p.width, p.font);
      if lines == None {
        return Err(Permanent);
      }
      elements := Wrapped(lines.value, line => ColumnsLine(line));
    } else {
      var lines := ListLines(e.kind, e.items, p.width, p.font);
      elements := Wrapped(lines, line => ListLine(line));
    }
    var blocks, end := StackLines(elements, NORMAL_STYLE, y, p);
    r := Ok((blocks, end));
  }

  method BuildElement(e: Element, y: int, p: Page) returns (r: Result<(seq<Block>, int), BuildError>)
    requires Validated(e) && p.font.advance(' ') > 0 && p.lib.Consistent()
    ensures r.Ok? ==> p.Stacked(r.value.0, y, r.value.1) && Laid(e, p) == Ok(ItemsOf(r.value.0))
    ensures r.Err? ==> Laid(e, p) == Err(r.error)
  {
    match e
    case Text(_, _, _, _, _, _, _) =>
      var blocks, end := BuildText(e, y, p);
      r := Ok((blocks, end));
    case Heading(_) =>
      var blocks, end := BuildText(e, y, p);
      r := Ok((blocks, end));
    case Spacer(height) =>
      var blocks, end := StackBlock(Source(e), height, y, p);
      r := Ok((blocks, end));
    case Divider(_, size) =>
      var blocks, end := StackBlock(Source(e), DIVIDER_THICKNESS * ResolveSize(size), y, p);
      r := Ok((blocks, end));
    case Feed(_) =>
      var blocks, end := StackBlock(Source(e), 0, y, p);
      r := Ok((blocks, end));
    case Cut(_) =>
      var blocks, end := StackBlock(Source(e), 0, y, p);
      r := Ok((blocks, end));
    case Image(_) => r := BuildImage(e, y, p);
    case Asset(_, _, _) => r := BuildImage(e, y, p);
    case QRCode(_, _, _) => r := BuildCode(e, y, p);
    case Barcode(_, _, _, _) => r := BuildCode(e, y, p);
    case Table(_, _) => r := BuildLines(e, y, p);
    case Columns(_) => r := BuildLines(e, y, p);
    case List(_, _) => r := BuildLines(e, y, p);
  }

  /** Every element's items in order, or the error of the first element that has one. */
  function LaidAll(es: seq<Element>, p: Page): Result<seq<Item>, BuildError>
    requires p.font.advance(' ') > 0 && forall i | 0 <= i < |es| :: Validated(es[i])
  {
    if es == [] then Ok([])
    else
      var before := LaidAll(es[..|es| - 1], p);
      if before.Err? then before
      else
        var last := Laid(es[|es| - 1], p);
        if last.Err? then last else Ok(before.value + last.value)
  }

  lemma {:induction false} ErrorSticks(es: seq<Element>, n: nat, p: Page)
    requires p.font.advance(' ') > 0 && (forall i | 0 <= i < |es| :: Validated(es[i])) && n <= |es|
    requires LaidAll(es[..n], p).Err?
    ensures LaidAll(es, p) == LaidAll(es[..n], p)
    decreases |es|
  {
    if n == |es| {
      assert es[..n] == es;
    } else {
      assert es[..|es| - 1][..n] == es[..n];
      ErrorSticks(es[..|es| - 1], n, p);
    }
  }

  /**
    The whole document: the elements' blocks in order, each starting where
    painting ends the one before, from 0 to `end`.
   */
  method Build(es: seq<Element>, p: Page) returns (r: Result<seq<Block>, BuildError>, ghost end: int)
    requires p.font.advance(' ') > 0 && p.lib.Consistent() && forall i | 0 <= i < |es| :: Validated(es[i])
    ensures r.Ok? ==> p.Stacked(r.value, 0, end) && LaidAll(es, p) == Ok(ItemsOf(r.value))
    ensures r.Err? ==> LaidAll(es, p) == Err(r.error)
  {
    var blocks, y := [], 0;
    end := 0;
    for i := 0 to |es|
      invariant p.Stacked(blocks, 0, y) && LaidAll(es[..i], p) == Ok(ItemsOf(blocks))
    {
      assert es[..i + 1][..i] == es[..i];
      var built := BuildElement(es[i], y, p);
      if built.Err? {
        assert LaidAll(es[..i + 1], p) == Err(built.error);
        ErrorSticks(es, i + 1, p);
        return Err(built.error), y;
      }
      p.StackedConcat(blocks, built.value.0, 0, y, built.value.1);
      ItemsConcat(blocks, built.value.0);
      blocks, y := blocks + built.value.0, built.value.1;
    }
    assert es[..|es|] == es;
    r, end := Ok(blocks), y;
  }
}
