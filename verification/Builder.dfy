/**
  The receipt builder's two conversions: wire elements into form state and back.
  Tables pass through the CSV codec; columns recurse.
 */
module Builder {
  import opened Receipts
  import opened Csv

  datatype FormItem = FormItem(content: Str, checked: bool, indent: int)
  datatype FormColumn = FormColumn(weight: int, elements: seq<Form>)

  /** What the form edits. */
  datatype Form =
    | TextForm(content: Str, align: Str, bold: bool, italic: bool, underline: bool, strikethrough: bool, size: int)
    | HeadingForm(content: Str)
    | DividerForm(style: Str, size: int)
    | SpacerForm(height: int)
    | FeedForm(lines: int)
    | CutForm(mode: Str)
    | QRCodeForm(content: Str, size: int, errorCorrection: Str)
    | BarcodeForm(content: Str, symbology: Str, height: int, showText: bool)
    | AssetForm(name: Str, width: int, align: Str)
    | ImageForm(data: Str)
    | TableForm(headersRaw: Str, rowsRaw: Str)
    | ListForm(kind: Str, items: seq<FormItem>)
    | ColumnsForm(columns: seq<FormColumn>)

  datatype WireItem = WireItem(content: Option<Str>, checked: bool, indent: Option<int>)
  /** An absent `elements` reads like an empty one. */
  datatype WireColumn = WireColumn(weight: Option<int>, elements: seq<Wire>)

  /** A decoded JSON element; None is an absent property, flags are absent when false. */
  datatype Wire =
    | WText(content: Option<Str>, align: Option<Str>, bold: bool, italic: bool, underline: bool,
            strikethrough: bool, size: Option<int>)
    | WHeading(content: Option<Str>)
    | WDivider(style: Option<Str>, size: Option<int>)
    | WSpacer(height: Option<int>)
    | WFeed(lines: Option<int>)
    | WCut(mode: Option<Str>)
    | WQRCode(content: Option<Str>, size: Option<int>, errorCorrection: Option<Str>)
    | WBarcode(content: Option<Str>, symbology: Option<Str>, height: Option<int>, showText: bool)
    | WAsset(name: Option<Str>, width: Option<int>, align: Option<Str>)
    | WImage(data: Option<Str>)
    | WTable(headers: Option<seq<Str>>, rows: Option<seq<seq<Str>>>)
    | WList(kind: Option<Str>, items: Option<seq<WireItem>>)
    | WColumns(columns: seq<WireColumn>)
    | WColumnsAbsent
    | WUnknown

  const CODE128: Str := [0x63, 0x6F, 0x64, 0x65, 0x31, 0x32, 0x38]

  // ------------------------------------------------------------------ form to wire

  function SerializeItem(i: FormItem): WireItem {
    WireItem(Some(i.content), i.checked, Some(i.indent))
  }

  function SerializeItems(items: seq<FormItem>): (r: seq<WireItem>)
    ensures |r| == |items|
  {
    if items == [] then [] else [SerializeItem(items[0])] + SerializeItems(items[1..])
  }

  function Serialize(f: Form): Wire
    decreases f
  {
    match f
    case TextForm(c, a, b, i, u, s, n) => WText(Some(c), Some(a), b, i, u, s, Some(n))
    case HeadingForm(c) => WHeading(Some(c))
    case DividerForm(s, n) => WDivider(Some(s), Some(n))
    case SpacerForm(h) => WSpacer(Some(h))
    case FeedForm(l) => WFeed(Some(l))
    case CutForm(m) => WCut(Some(m))
    case QRCodeForm(c, s, e) => WQRCode(Some(c), Some(s), Some(e))
    case BarcodeForm(c, s, h, t) => WBarcode(Some(c), Some(s), Some(h), t)
    case AssetForm(n, w, a) => WAsset(Some(n), Some(w), Some(a))
    case ImageForm(d) => WImage(Some(d))
    case TableForm(h, r) => WTable(Some(SplitLine(h)), Some(Parse(r)))
    case ListForm(k, items) => WList(Some(k), Some(SerializeItems(items)))
    case ColumnsForm(columns) => WColumns(SerializeColumns(columns))
  }

  function SerializeAll(fs: seq<Form>): (r: seq<Wire>)
    ensures |r| == |fs|
    decreases fs
  {
    if fs == [] then [] else [Serialize(fs[0])] + SerializeAll(fs[1..])
  }

  function SerializeColumns(cs: seq<FormColumn>): (r: seq<WireColumn>)
    ensures |r| == |cs|
    decreases cs
  {
    if cs == [] then []
    else [WireColumn(Some(cs[0].weight), SerializeAll(cs[0].elements))] + SerializeColumns(cs[1..])
  }

  // ------------------------------------------------------------------ wire to form

  function NormalizeItems(items: seq<WireItem>): seq<FormItem> {
    if items == [] then []
    else [FormItem(items[0].content.GetOr([]), items[0].checked, items[0].indent.GetOr(0))] + NormalizeItems(items[1..])
  }

  /** None when an element of unknown type is met at any depth: the builder falls back to raw JSON. */
  function Normalize(w: Wire): Option<Form>
    decreases w
  {
    match w
    case WText(c, a, b, i, u, s, n) => Some(TextForm(c.GetOr([]), a.GetOr([]), b, i, u, s, n.GetOr(0)))
    case WHeading(c) => Some(HeadingForm(c.GetOr([])))
    case WDivider(s, n) => Some(DividerForm(s.GetOr([]), n.GetOr(0)))
    case WSpacer(h) => Some(SpacerForm(h.GetOr(0)))
    case WFeed(l) => Some(FeedForm(l.GetOr(1)))
    case WCut(m) => Some(CutForm(m.GetOr([])))
    case WQRCode(c, s, e) => Some(QRCodeForm(c.GetOr([]), s.GetOr(0), e.GetOr([])))
    case WBarcode(c, s, h, t) => Some(BarcodeForm(c.GetOr([]), s.GetOr(CODE128), h.GetOr(0), t))
    case WAsset(n, wd, a) => Some(AssetForm(n.GetOr([]), wd.GetOr(0), a.GetOr([])))
    case WImage(d) => Some(ImageForm(d.GetOr([])))
    case WTable(headers, rows) =>
      Some(TableForm(if headers.Some? then FormatLine(headers.value) else [],
                     if rows.Some? then FormatRows(rows.value) else []))
    case WList(k, items) => Some(ListForm(k.GetOr([]), if items.Some? then NormalizeItems(items.value) else []))
    case WColumns(columns) =>
      var cs := NormalizeColumns(columns);
      if cs == None then None else Some(ColumnsForm(cs.value))
    case WColumnsAbsent => Some(ColumnsForm([FormColumn(0, [])]))
    case WUnknown => None
  }

  function NormalizeAll(ws: seq<Wire>): Option<seq<Form>>
    decreases ws
  {
    if ws == [] then Some([])
    else
      var first, rest := Normalize(ws[0]), NormalizeAll(ws[1..]);
      if first == None || rest == None then None else Some([first.value] + rest.value)
  }

  function NormalizeColumns(cs: seq<WireColumn>): Option<seq<FormColumn>>
    decreases cs
  {
    if cs == [] then Some([])
    else
      var elements := NormalizeAll(cs[0].elements);
      var rest := NormalizeColumns(cs[1..]);
      if elements == None || rest == None then None
      else Some([FormColumn(cs[0].weight.GetOr(0), elements.value)] + rest.value)
  }

  // ------------------------------------------------------------------ what the form shows

  datatype Value = Txt(text: Str) | Num(number: int) | Flag(on: bool)

  /** A leaf's JSON properties by name; a missing one is None. */
  function WireProperty(w: Wire, name: string): Option<Value> {
    match w
    case WText(c, a, b, i, u, s, n) =>
      (match name
       case "content" => OfText(c) case "align" => OfText(a) case "bold" => OfFlag(b) case "italic" => OfFlag(i)
       case "underline" => OfFlag(u) case "strikethrough" => OfFlag(s) case "size" => OfNumber(n) case _ => None)
    case WHeading(c) => if name == "content" then OfText(c) else None
    case WDivider(s, n) => if name == "style" then OfText(s) else if name == "size" then OfNumber(n) else None
    case WSpacer(h) => if name == "height" then OfNumber(h) else None
    case WFeed(l) => if name == "lines" then OfNumber(l) else None
    case WCut(m) => if name == "mode" then OfText(m) else None
    case WQRCode(c, s, e) =>
      if name == "content" then OfText(c) else if name == "size" then OfNumber(s)
      else if name == "error_correction" then OfText(e) else None
    case WBarcode(c, s, h, t) =>
      if name == "content" then OfText(c) else if name == "symbology" then OfText(s)
      else if name == "height" then OfNumber(h) else if name == "show_text" then OfFlag(t) else None
    case WAsset(n, wd, a) =>
      if name == "name" then OfText(n) else if name == "width" then OfNumber(wd) else if name == "align" then OfText(a) else None
    case WImage(d) => if name == "data" then OfText(d) else None
    case _ => None
  }

  function OfText(t: Option<Str>): Option<Value> { if t == None then None else Some(Txt(t.value)) }
  function OfNumber(n: Option<int>): Option<Value> { if n == None then None else Some(Num(n.value)) }
  function OfFlag(on: bool): Option<Value> { if on then Some(Flag(true)) else None }

  /** What the form's field of that name holds. */
  function FormField(f: Form, name: string): Option<Value> {
    match name
    case "content" => if f.TextForm? || f.HeadingForm? || f.QRCodeForm? || f.BarcodeForm? then Some(Txt(f.content)) else None
    case "align" => if f.TextForm? || f.AssetForm? then Some(Txt(f.align)) else None
    case "bold" => if f.TextForm? then Some(Flag(f.bold)) else None
    case "italic" => if f.TextForm? then Some(Flag(f.italic)) else None
    case "underline" => if f.TextForm? then Some(Flag(f.underline)) else None
    case "strikethrough" => if f.TextForm? then Some(Flag(f.strikethrough)) else None
    case "size" => if f.TextForm? || f.DividerForm? || f.QRCodeForm? then Some(Num(f.size)) else None
    case "style" => if f.DividerForm? then Some(Txt(f.style)) else None
    case "height" => if f.SpacerForm? || f.BarcodeForm? then Some(Num(f.height)) else None
    case "lines" => if f.FeedForm? then Some(Num(f.lines)) else None
    case "mode" => if f.CutForm? then Some(Txt(f.mode)) else None
    case "error_correction" => if f.QRCodeForm? then Some(Txt(f.errorCorrection)) else None
    case "symbology" => if f.BarcodeForm? then Some(Txt(f.symbology)) else None
    case "show_text" => if f.BarcodeForm? then Some(Flag(f.showText)) else None
    case "name" => if f.AssetForm? then Some(Txt(f.name)) else None
    case "width" => if f.AssetForm? then Some(Num(f.width)) else None
    case "data" => if f.ImageForm? then Some(Txt(f.data)) else None
    case _ => None
  }

  /** Every property on the wire is the form's field of that name, and a flag that is off stays off the wire. */
  ghost predicate Agree(w: Wire, f: Form, name: string) {
    && (WireProperty(w, name).Some? ==> FormField(f, name) == WireProperty(w, name))
    && (FormField(f, name).Some? && FormField(f, name).value.Flag? ==>
          (FormField(f, name).value.on <==> WireProperty(w, name).Some?))
  }

  /** Loading a leaf keeps every property under its name. */
  lemma LoadingShows(w: Wire, f: Form, name: string)
    requires Normalize(w) == Some(f) && !w.WTable? && !w.WList? && !w.WColumns? && !w.WColumnsAbsent?
    ensures Agree(w, f, name)
  {}

  /** Writing one does too, and leaves out none but flags that are off. */
  lemma WritingShows(f: Form, name: string)
    requires !f.TableForm? && !f.ListForm? && !f.ColumnsForm?
    ensures Agree(Serialize(f), f, name)
    ensures FormField(f, name).Some? && !FormField(f, name).value.Flag? ==> WireProperty(Serialize(f), name).Some?
  {}

  // ------------------------------------------------------------------ the round trips

  /** Loading and serializing a wire table loses its rows without cells, and nothing else. */
  lemma TableKeepsCells(headers: seq<Str>, rows: seq<seq<Str>>)
    ensures var w := WTable(Some(headers), Some(rows));
      Normalize(w).Some? && Serialize(Normalize(w).value) == WTable(Some(headers), Some(WithCells(rows)))
  {
    FormatThenSplit(headers);
    FormatThenParse(rows);
  }

  /** It survives exactly when every row has a cell. */
  lemma TableSurvivesIff(headers: seq<Str>, rows: seq<seq<Str>>)
    ensures var w := WTable(Some(headers), Some(rows));
      Normalize(w).Some? && (Serialize(Normalize(w).value) == w <==> NonEmptyRows(rows))
  {
    TableKeepsCells(headers, rows);
    WithCellsKeepsAllIff(rows);
  }

  /** A table with one row of no cells comes back without it. */
  lemma EmptyRowIsLost(headers: seq<Str>)
    ensures var w := WTable(Some(headers), Some([[]]));
      Normalize(w).Some? && Serialize(Normalize(w).value) != w
  {
    var rows: seq<seq<Str>> := [[]];
    assert rows[0] == [] && !NonEmptyRows(rows);
    TableSurvivesIff(headers, rows);
  }

  /** What Table.Validate accepts: headers, at least one row, and no ragged row. */
  predicate ValidTable(headers: seq<Str>, rows: seq<seq<Str>>) {
    headers != [] && rows != [] && forall i | 0 <= i < |rows| :: |rows[i]| == |headers|
  }

  lemma ValidTableSurvives(headers: seq<Str>, rows: seq<seq<Str>>)
    requires ValidTable(headers, rows)
    ensures var w := WTable(Some(headers), Some(rows));
      Normalize(w).Some? && Serialize(Normalize(w).value) == w
  {
    TableSurvivesIff(headers, rows);
    forall i | 0 <= i < |rows|
      ensures rows[i] != []
    {
      assert |rows[i]| == |headers|;
    }
  }

  lemma {:induction false} ItemsSurvive(items: seq<FormItem>)
    ensures NormalizeItems(SerializeItems(items)) == items
  {
    if items != [] {
      var ws := SerializeItems(items);
      assert ws[0] == SerializeItem(items[0]) && ws[1..] == SerializeItems(items[1..]);
      ItemsSurvive(items[1..]);
    }
  }

  lemma TableStable(f: Form)
    requires f.TableForm?
    ensures Normalize(Serialize(f)).Some? && Serialize(Normalize(Serialize(f)).value) == Serialize(f)
  {
    ParseFormatParse(f.rowsRaw);
    FormatThenSplit(SplitLine(f.headersRaw));
  }

  lemma LeafStable(f: Form)
    requires !f.TableForm? && !f.ListForm? && !f.ColumnsForm?
    ensures Normalize(Serialize(f)) == Some(f)
  {}

  /**
    Serializing, loading and serializing again gives the same wire element, for
    every form state however deeply its columns nest.
   */
  lemma {:induction false} SerializeStable(f: Form)
    ensures Normalize(Serialize(f)).Some? && Serialize(Normalize(Serialize(f)).value) == Serialize(f)
    decreases f
  {
    if f.TableForm? {
      TableStable(f);
    } else if f.ListForm? {
      ItemsSurvive(f.items);
    } else if f.ColumnsForm? {
      ColumnsStable(f.columns);
    } else {
      LeafStable(f);
    }
  }

  lemma {:induction false} AllStable(fs: seq<Form>)
    ensures NormalizeAll(SerializeAll(fs)).Some?
    ensures SerializeAll(NormalizeAll(SerializeAll(fs)).value) == SerializeAll(fs)
    decreases fs
  {
    if fs != [] {
      SerializeStable(fs[0]);
      AllStable(fs[1..]);
      var ws := SerializeAll(fs);
      assert ws[0] == Serialize(fs[0]) && ws[1..] == SerializeAll(fs[1..]);
      var back := NormalizeAll(ws).value;
      assert back[0] == Normalize(ws[0]).value && back[1..] == NormalizeAll(ws[1..]).value;
    }
  }

  lemma {:induction false} ColumnsStable(cs: seq<FormColumn>)
    ensures NormalizeColumns(SerializeColumns(cs)).Some?
    ensures SerializeColumns(NormalizeColumns(SerializeColumns(cs)).value) == SerializeColumns(cs)
    decreases cs
  {
    if cs != [] {
      AllStable(cs[0].elements);
      ColumnsStable(cs[1..]);
      var ws := SerializeColumns(cs);
      assert ws[1..] == SerializeColumns(cs[1..]);
      var back := NormalizeColumns(ws).value;
      assert back[1..] == NormalizeColumns(ws[1..]).value;
    }
  }
}
