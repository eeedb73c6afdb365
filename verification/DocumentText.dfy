/**
  A receipt's elements in its document: each has its own blocks, one after the
  other, and the blocks of a text hold its words in order, in its own style.
 */
module DocumentText {
  import opened Receipts
  import opened Fonts
  import opened Wrap
  import opened ColumnLayout
  import opened TextLayout
  import opened Layout

  // ------------------------------------------------------------------ a text's words

  function Contents(items: seq<Item>): (lines: seq<string>)
    ensures |lines| == |items| && forall i | 0 <= i < |items| :: lines[i] == TextContent(items[i].element).GetOr("")
  {
    seq(|items|, i requires 0 <= i < |items| => TextContent(items[i].element).GetOr(""))
  }

  lemma {:induction false} LeadingSpacesSkipped(n: nat, s: string)
    ensures Fields(Spaces(n) + s) == Fields(s)
    decreases n
  {
    if n == 0 {
      assert Spaces(0) + s == s;
    } else {
      assert Spaces(n) + s == Spaces(n - 1) + ([' '] + s);
      LeadingSpacesSkipped(n - 1, [' '] + s);
      FirstSpace(' ', s);
    }
  }

  /** Alignment puts nothing but spaces before a line. */
  lemma AlignedKeepsWords(content: string, align: string, width: int, f: Font, size: nat)
    requires f.advance(' ') > 0 && size >= 1
    ensures Fields(Aligned(content, align, width, f, size)) == Fields(content)
  {
    SpaceDots(f, size);
    LeadingSpacesSkipped(SpacesIn(AlignRoom(content, align, width, f, size), f.advance(' ') * size), content);
  }

  lemma {:induction false} SameWords(a: seq<string>, b: seq<string>)
    requires |a| == |b| && forall i | 0 <= i < |a| :: Fields(a[i]) == Fields(b[i])
    ensures FieldsOfAll(a) == FieldsOfAll(b)
  {
    if a != [] { SameWords(a[1..], b[1..]); }
  }

  /** All the items carry the flags given, and a size of at least one. */
  predicate AllStyled(items: seq<Item>, bold: bool, italic: bool, underline: bool, strikethrough: bool, size: int) {
    forall i | 0 <= i < |items| ::
      && items[i].style.bold == bold && items[i].style.italic == italic
      && items[i].style.underline == underline && items[i].style.strikethrough == strikethrough
      && items[i].style.size == if size < 1 then 1 else size
  }

  lemma TextKeepsStyle(e: Element, p: Page)
    requires e.Text? && p.font.advance(' ') > 0
    ensures Laid(e, p).Ok?
    ensures AllStyled(Laid(e, p).value, e.bold, e.italic, e.underline, e.strikethrough, e.size)
  {}

  lemma ContentAt(e: Element, p: Page, i: nat)
    requires e.Text? && p.font.advance(' ') > 0
    ensures var lines := TextLines(e.content, p.width, p.font, TextStyle(e).size);
      && Laid(e, p).Ok? && |Laid(e, p).value| == |lines|
      && (i < |lines| ==>
            Contents(Laid(e, p).value)[i] == Aligned(lines[i], e.align, p.width, p.font, TextStyle(e).size))
  {}

  /** A text element's blocks hold its words in order, each line in the element's style. */
  lemma TextReadsBack(e: Element, p: Page)
    requires e.Text? && p.font.advance(' ') > 0
    ensures Laid(e, p).Ok?
    ensures FieldsOfAll(Contents(Laid(e, p).value)) == Fields(e.content)
    ensures AllStyled(Laid(e, p).value, e.bold, e.italic, e.underline, e.strikethrough, e.size)
  {
    var size := TextStyle(e).size;
    var lines := TextLines(e.content, p.width, p.font, size);
    var items := Laid(e, p).value;
    TextKeepsStyle(e, p);
    TextKeepsWords(e.content, p.width, p.font, size);
    ContentAt(e, p, 0);
    forall i | 0 <= i < |items|
      ensures Fields(Contents(items)[i]) == Fields(lines[i])
    {
      ContentAt(e, p, i);
      AlignedKeepsWords(lines[i], e.align, p.width, p.font, size);
    }
    SameWords(Contents(items), lines);
  }

  /** A heading's are bold and of double size. */
  lemma HeadingReadsBack(e: Element, p: Page)
    requires e.Heading? && p.font.advance(' ') > 0
    ensures Laid(e, p).Ok?
    ensures FieldsOfAll(Contents(Laid(e, p).value)) == Fields(e.content)
    ensures AllStyled(Laid(e, p).value, true, false, false, false, 2)
  {
    var lines := TextLines(e.content, p.width, p.font, HEADING_STYLE.size);
    TextKeepsWords(e.content, p.width, p.font, HEADING_STYLE.size);
    assert Contents(Laid(e, p).value) == lines;
  }

  /** A table's, list's or column row's lines are its blocks, in plain style. */
  lemma LinesAreBlocks(e: Element, p: Page)
    requires Validated(e) && p.font.advance(' ') > 0 && Laid(e, p).Ok? && (e.Table? || e.List? || e.Columns?)
    ensures AllStyled(Laid(e, p).value, false, false, false, false, 1)
    ensures e.Table? ==> Contents(Laid(e, p).value) == TableLinesOf(e, p.width, p.font)
    ensures e.List? ==> Contents(Laid(e, p).value) == AllItemLines(e.kind, e.items, p.width, p.font)
    ensures e.Columns? ==> TextColumns(e.columns) && Contents(Laid(e, p).value) == ColumnsLinesOf(e.columns, p.width, p.font)
  {}

  /** A barcode's text is printed under it exactly when asked for. */
  lemma BarcodeCaptioned(e: Element, p: Page)
    requires e.Barcode? && Validated(e) && p.font.advance(' ') > 0 && Laid(e, p).Ok?
    ensures var items := Laid(e, p).value;
      && items != [] && items[0] == Item(Source(e), NORMAL_STYLE)
      && (e.showText <==> |items| == 2)
      && (e.showText ==> items[1].element.BarcodeCaption? && Fields(items[1].element.content) == Fields(e.content))
      && (!e.showText ==> |items| == 1)
  {
    if e.showText {
      var bars := p.lib.barcode(e.content, e.symbology).value;
      AlignedKeepsWords(e.content, "center", BarcodeWidth(bars.width, p.width), p.font, 1);
    }
  }

  // ------------------------------------------------------------------ what cannot be laid out

  /**
    Exactly these elements have no blocks: an image, asset or code that the libraries
    cannot read or make, an asset without a store or not in it, and columns holding
    anything but text. Only the asset that the store does not have is a missing one.
   */
  lemma LaidFailsIff(e: Element, p: Page)
    requires Validated(e) && p.font.advance(' ') > 0
    ensures Laid(e, p).Err? <==>
      match e
      case Image(data) => p.lib.config(data) == None
      case Asset(name, _, _) =>
        || p.lib.assets == None || p.lib.assets.value(name) == None
        || p.lib.config(p.lib.assets.value(name).value) == None
      case QRCode(content, _, level) => p.lib.qr(content, level) == None
      case Barcode(content, symbology, _, _) => p.lib.barcode(content, symbology) == None
      case Columns(columns) =>
        exists i, k :: 0 <= i < |columns| && 0 <= k < |columns[i].elements| && !columns[i].elements[k].Text?
      case _ => false
    ensures Laid(e, p) == Err(AssetMissing) <==>
      e.Asset? && p.lib.assets.Some? && p.lib.assets.value(e.name) == None
  {}

  // ------------------------------------------------------------------ a text's width

  /** No item is wider than the page at its own size. */
  ghost predicate AllFitPage(items: seq<Item>, p: Page) {
    forall i | 0 <= i < |items| :: p.font.Measure(Contents(items)[i]) * items[i].style.size <= p.width
  }

  lemma AlignedStaysWithin(content: string, align: string, width: int, f: Font, size: nat)
    requires f.advance(' ') > 0 && size >= 1 && width > 0 && f.Measure(content) * size <= width
    ensures f.Measure(Aligned(content, align, width, f, size)) * size <= width
  {
    if (align == "center" || align == "right") && f.Measure(content) * size < width {
      AlignedFits(content, align, width, f, size);
    }
  }

  /** Where each word of a text, at its size, fits the page, so does every block, however it is aligned. */
  lemma TextFitsPage(e: Element, p: Page)
    requires e.Text? && p.font.advance(' ') > 0 && p.width > 0
    requires WordsFitAt(e.content, p.width, p.font, if e.size < 1 then 1 else e.size)
    ensures Laid(e, p).Ok? && AllFitPage(Laid(e, p).value, p)
  {
    var size := TextStyle(e).size;
    var lines := TextLines(e.content, p.width, p.font, size);
    WrappedTextFitsAt(e.content, p.width, p.font, size);
    forall i | 0 <= i < |lines|
      ensures p.font.Measure(Aligned(lines[i], e.align, p.width, p.font, size)) * size <= p.width
    {
      AlignedStaysWithin(lines[i], e.align, p.width, p.font, size);
    }
  }

  lemma HeadingFitsPage(e: Element, p: Page)
    requires e.Heading? && p.font.advance(' ') > 0 && p.width > 0 && WordsFitAt(e.content, p.width, p.font, 2)
    ensures Laid(e, p).Ok? && AllFitPage(Laid(e, p).value, p)
  {
    WrappedTextFitsAt(e.content, p.width, p.font, 2);
  }

  // ------------------------------------------------------------------ every element is there

  function ItemCount(e: Element, p: Page): nat
    requires p.font.advance(' ') > 0 && Validated(e)
  {
    if Laid(e, p).Ok? then |Laid(e, p).value| else 0
  }

  /** The items of the elements before element `n`. */
  function ItemStart(es: seq<Element>, p: Page, n: nat): nat
    requires p.font.advance(' ') > 0 && n <= |es| && forall i | 0 <= i < |es| :: Validated(es[i])
  {
    if n == 0 then 0
    else ItemStart(es, p, n - 1) + ItemCount(es[n - 1], p)
  }

  lemma {:induction false} StartOfPrefix(es: seq<Element>, p: Page, m: nat, n: nat)
    requires p.font.advance(' ') > 0 && (forall i | 0 <= i < |es| :: Validated(es[i])) && n <= m <= |es|
    ensures ItemStart(es[..m], p, n) == ItemStart(es, p, n)
    decreases n
  {
    if n > 0 { StartOfPrefix(es, p, m, n - 1); }
  }

  /** From `start` on the document has element `n`'s items. */
  ghost predicate ItemsAt(all: seq<Item>, start: nat, items: seq<Item>) {
    start + |items| <= |all| && all[start..start + |items|] == items
  }

  /** The elements' items make up the document, and element `n`'s are where it comes in the receipt. */
  lemma {:induction false} ElementIsThere(es: seq<Element>, p: Page, n: nat)
    requires p.font.advance(' ') > 0 && (forall i | 0 <= i < |es| :: Validated(es[i]))
    requires LaidAll(es, p).Ok? && n < |es|
    ensures |LaidAll(es, p).value| == ItemStart(es, p, |es|)
    ensures Laid(es[n], p).Ok? && ItemsAt(LaidAll(es, p).value, ItemStart(es, p, n), Laid(es[n], p).value)
    decreases |es|
  {
    var m := |es| - 1;
    LastElement(es, p);
    DocumentLength(es, p);
    if n < m {
      ElementIsThere(es[..m], p, n);
      StartOfPrefix(es, p, m, n);
      InFront(LaidAll(es[..m], p).value, Laid(es[m], p).value, ItemStart(es, p, n), Laid(es[n], p).value);
    } else {
      DocumentLength(es[..m], p);
      StartOfPrefix(es, p, m, m);
    }
  }

  lemma InFront(a: seq<Item>, b: seq<Item>, start: nat, items: seq<Item>)
    requires ItemsAt(a, start, items)
    ensures ItemsAt(a + b, start, items)
  {
    assert (a + b)[start..start + |items|] == a[start..start + |items|];
  }

  lemma LastElement(es: seq<Element>, p: Page)
    requires p.font.advance(' ') > 0 && (forall i | 0 <= i < |es| :: Validated(es[i])) && LaidAll(es, p).Ok? && es != []
    ensures LaidAll(es[..|es| - 1], p).Ok? && Laid(es[|es| - 1], p).Ok?
    ensures LaidAll(es, p).value == LaidAll(es[..|es| - 1], p).value + Laid(es[|es| - 1], p).value
    ensures |LaidAll(es, p).value| == |LaidAll(es[..|es| - 1], p).value| + ItemCount(es[|es| - 1], p)
  {}

  lemma {:induction false} DocumentLength(es: seq<Element>, p: Page)
    requires p.font.advance(' ') > 0 && (forall i | 0 <= i < |es| :: Validated(es[i])) && LaidAll(es, p).Ok?
    ensures |LaidAll(es, p).value| == ItemStart(es, p, |es|)
    decreases |es|
  {
    if es != [] {
      LastElement(es, p);
      DocumentLength(es[..|es| - 1], p);
      StartOfPrefix(es, p, |es| - 1, |es| - 1);
    }
  }

  /** A document that cannot be laid out stops at its first element that cannot, with that element's error. */
  lemma {:induction false} FirstErrorStops(es: seq<Element>, p: Page) returns (n: nat)
    requires p.font.advance(' ') > 0 && (forall i | 0 <= i < |es| :: Validated(es[i])) && LaidAll(es, p).Err?
    ensures n < |es| && Laid(es[n], p) == Err(LaidAll(es, p).error)
    ensures forall k | 0 <= k < n :: Laid(es[k], p).Ok?
    decreases |es|
  {
    n := |es| - 1;
    if LaidAll(es[..n], p).Err? {
      n := FirstErrorStops(es[..n], p);
    } else {
      forall k | 0 <= k < n
        ensures Laid(es[k], p).Ok?
      {
        ElementIsThere(es[..n], p, k);
      }
    }
  }
}
