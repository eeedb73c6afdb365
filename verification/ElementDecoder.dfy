/**
  Decoding an element tree whose columns nest: dispatch through the registry with
  a running depth, so recursion stops at the depth bound whatever the input.
 */
module ElementDecoder {
  import opened Receipts

  const MAX_ELEMENT_DEPTH: nat := 32

  datatype WireColumn = WireColumn(weight: int, elements: seq<Wire>)

  /** A raw element: its type, its JSON, and its columns if that property is well formed. */
  datatype Wire = NotAnObject | Object(typ: string, json: string, columnsOk: bool, columns: seq<WireColumn>)

  datatype DecodeError = TooDeep | Malformed | UnknownType

  /** The decoders registered by the leaf elements, and their encoders. */
  datatype Registry = Registry(
    knows: string -> bool,
    decode: (string, string) -> Option<Element>,
    encode: Element -> string)
  {
    /** Each leaf's decoder undoes its encoder. */
    ghost predicate Faithful() {
      forall e: Element | !e.Columns? :: knows(TypeOf(e)) && decode(TypeOf(e), encode(e)) == Some(e)
    }
  }

  function TypeOf(e: Element): string {
    match e
    case Text(_, _, _, _, _, _, _) => "text"
    case Heading(_) => "heading"
    case Spacer(_) => "spacer"
    case Divider(_, _) => "divider"
    case Feed(_) => "feed"
    case Cut(_) => "cut"
    case Image(_) => "image"
    case Asset(_, _, _) => "asset"
    case QRCode(_, _, _) => "qrcode"
    case Barcode(_, _, _, _) => "barcode"
    case Table(_, _) => "table"
    case List(_, _) => "list"
    case Columns(_) => "columns"
  }

  // ------------------------------------------------------------------ decoding

  /** The steps left before the depth bound cuts recursion off. */
  function StepsLeft(depth: nat): nat {
    if depth > MAX_ELEMENT_DEPTH then 0 else MAX_ELEMENT_DEPTH + 1 - depth
  }

  /** Terminates by the depth alone, not by the size of the input. */
  function Decode(r: Registry, w: Wire, depth: nat): Result<Element, DecodeError>
    decreases StepsLeft(depth), 0, 0
  {
    if depth > MAX_ELEMENT_DEPTH then Err(TooDeep)
    else if w.NotAnObject? then Err(Malformed)
    else if w.typ == "columns" then
      if !w.columnsOk then Err(Malformed)
      else
        var cs := DecodeColumns(r, w.columns, depth);
        if cs.Err? then Err(cs.error) else Ok(Columns(cs.value))
    else if !r.knows(w.typ) then Err(UnknownType)
    else
      var e := r.decode(w.typ, w.json);
      if e == None then Err(Malformed) else Ok(e.value)
  }

  function DecodeAll(r: Registry, ws: seq<Wire>, depth: nat): Result<seq<Element>, DecodeError>
    decreases StepsLeft(depth), 1, |ws|
  {
    if ws == [] then Ok([])
    else
      var before := DecodeAll(r, ws[..|ws| - 1], depth);
      if before.Err? then before
      else
        var last := Decode(r, ws[|ws| - 1], depth);
        if last.Err? then Err(last.error) else Ok(before.value + [last.value])
  }

  function DecodeColumns(r: Registry, cs: seq<WireColumn>, depth: nat): Result<seq<Column>, DecodeError>
    requires depth <= MAX_ELEMENT_DEPTH
    decreases StepsLeft(depth + 1), 2, |cs|
  {
    if cs == [] then Ok([])
    else
      var before := DecodeColumns(r, cs[..|cs| - 1], depth);
      if before.Err? then before
      else
        var c := cs[|cs| - 1];
        var elements := DecodeAll(r, c.elements, depth + 1);
        if elements.Err? then Err(elements.error) else Ok(before.value + [Column(c.weight, elements.value)])
  }

  lemma {:induction false} AllErrorSticks(r: Registry, ws: seq<Wire>, depth: nat, n: nat)
    requires n <= |ws| && DecodeAll(r, ws[..n], depth).Err?
    ensures DecodeAll(r, ws, depth) == DecodeAll(r, ws[..n], depth)
    decreases |ws|
  {
    if n == |ws| {
      assert ws[..n] == ws;
    } else {
      assert ws[..|ws| - 1][..n] == ws[..n];
      AllErrorSticks(r, ws[..|ws| - 1], depth, n);
    }
  }

  lemma {:induction false} ColumnsErrorSticks(r: Registry, cs: seq<WireColumn>, depth: nat, n: nat)
    requires depth <= MAX_ELEMENT_DEPTH && n <= |cs| && DecodeColumns(r, cs[..n], depth).Err?
    ensures DecodeColumns(r, cs, depth) == DecodeColumns(r, cs[..n], depth)
    decreases |cs|
  {
    if n == |cs| {
      assert cs[..n] == cs;
    } else {
      assert cs[..|cs| - 1][..n] == cs[..n];
      ColumnsErrorSticks(r, cs[..|cs| - 1], depth, n);
    }
  }

  /** Dispatch on one raw element. */
  method DecodeElement(r: Registry, w: Wire, depth: nat) returns (result: Result<Element, DecodeError>)
    ensures result == Decode(r, w, depth)
    decreases StepsLeft(depth), 0, 0
  {
    if depth > MAX_ELEMENT_DEPTH {
      return Err(TooDeep);
    }
    if w.NotAnObject? {
      return Err(Malformed);
    }
    if w.typ == "columns" {
      if !w.columnsOk {
        return Err(Malformed);
      }
      var columns := UnmarshalColumns(r, w.columns, depth);
      return if columns.Err? then Err(columns.error) else Ok(Columns(columns.value));
    }
    if !r.knows(w.typ) {
      return Err(UnknownType);
    }
    var e := r.decode(w.typ, w.json);
    result := if e == None then Err(Malformed) else Ok(e.value);
  }

  method UnmarshalElements(r: Registry, raws: seq<Wire>, depth: nat) returns (result: Result<seq<Element>, DecodeError>)
    ensures result == DecodeAll(r, raws, depth)
    decreases StepsLeft(depth), 1, |raws|
  {
    var elements := [];
    for j := 0 to |raws|
      invariant DecodeAll(r, raws[..j], depth) == Ok(elements)
    {
      assert raws[..j + 1][..j] == raws[..j];
      var e := DecodeElement(r, raws[j], depth);
      if e.Err? {
        AllErrorSticks(r, raws, depth, j + 1);
        return Err(e.error);
      }
      elements := elements + [e.value];
    }
    assert raws[..|raws|] == raws;
    result := Ok(elements);
  }

  method UnmarshalColumns(r: Registry, wire: seq<WireColumn>, depth: nat) returns (result: Result<seq<Column>, DecodeError>)
    requires depth <= MAX_ELEMENT_DEPTH
    ensures result == DecodeColumns(r, wire, depth)
    decreases StepsLeft(depth + 1), 2, |wire|
  {
    var cols := [];
    for i := 0 to |wire|
      invariant DecodeColumns(r, wire[..i], depth) == Ok(cols)
    {
      assert wire[..i + 1][..i] == wire[..i];
      var elements := UnmarshalElements(r, wire[i].elements, depth + 1);
      if elements.Err? {
        ColumnsErrorSticks(r, wire, depth, i + 1);
        return Err(elements.error);
      }
      cols := cols + [Column(wire[i].weight, elements.value)];
    }
    assert wire[..|wire|] == wire;
    result := Ok(cols);
  }

  // ------------------------------------------------------------------ encoding

  function Encode(r: Registry, e: Element): Wire
    decreases e, 0
  {
    match e
    case Columns(columns) => Object("columns", "", true, EncodeColumns(r, columns))
    case _ => Object(TypeOf(e), r.encode(e), true, [])
  }

  function EncodeAll(r: Registry, es: seq<Element>): (ws: seq<Wire>)
    ensures |ws| == |es|
    decreases es, 0
  {
    if es == [] then [] else EncodeAll(r, es[..|es| - 1]) + [Encode(r, es[|es| - 1])]
  }

  function EncodeColumns(r: Registry, cs: seq<Column>): (ws: seq<WireColumn>)
    ensures |ws| == |cs|
    decreases cs, 0
  {
    if cs == [] then []
    else EncodeColumns(r, cs[..|cs| - 1]) + [WireColumn(cs[|cs| - 1].weight, EncodeAll(r, cs[|cs| - 1].elements))]
  }

  // ------------------------------------------------------------------ how deep elements sit

  function Max(a: nat, b: nat): nat {
    if a > b then a else b
  }

  /** The level of the deepest element of the tree, the element itself being at `depth`. */
  function Deepest(e: Element, depth: nat): (d: nat)
    ensures d >= depth
    decreases e, 0
  {
    match e
    case Columns(columns) => DeepestInColumns(columns, depth)
    case _ => depth
  }

  function DeepestOf(es: seq<Element>, depth: nat, floor: nat): (d: nat)
    ensures d >= floor
    decreases es, 0
  {
    if es == [] then floor
    else Max(DeepestOf(es[..|es| - 1], depth, floor), Deepest(es[|es| - 1], depth))
  }

  function DeepestInColumns(cs: seq<Column>, depth: nat): (d: nat)
    ensures d >= depth
    decreases cs, 0
  {
    if cs == [] then depth
    else Max(DeepestInColumns(cs[..|cs| - 1], depth), DeepestOf(cs[|cs| - 1].elements, depth + 1, depth))
  }

  // ------------------------------------------------------------------ the main result

  /**
    Decoding an encoded element gives the same element exactly when nothing in it
    sits deeper than the bound; otherwise it is refused as too deep.
   */
  lemma {:induction false} DecodeOfEncode(r: Registry, e: Element, depth: nat)
    requires r.Faithful()
    ensures Decode(r, Encode(r, e), depth) == if Deepest(e, depth) <= MAX_ELEMENT_DEPTH then Ok(e) else Err(TooDeep)
    decreases e, 0
  {
    if depth <= MAX_ELEMENT_DEPTH && e.Columns? {
      DecodeOfEncodeColumns(r, e.columns, depth);
    }
  }

  lemma LastEncoded(r: Registry, es: seq<Element>)
    requires es != []
    ensures EncodeAll(r, es)[..|es| - 1] == EncodeAll(r, es[..|es| - 1])
    ensures EncodeAll(r, es)[|es| - 1] == Encode(r, es[|es| - 1])
  {}

  lemma {:induction false} DecodeOfEncodeAll(r: Registry, es: seq<Element>, depth: nat, floor: nat)
    requires r.Faithful() && floor <= MAX_ELEMENT_DEPTH
    ensures DecodeAll(r, EncodeAll(r, es), depth)
         == if DeepestOf(es, depth, floor) <= MAX_ELEMENT_DEPTH then Ok(es) else Err(TooDeep)
    decreases es, 0
  {
    if es != [] {
      var n := |es| - 1;
      DecodeOfEncodeAll(r, es[..n], depth, floor);
      DecodeOfEncode(r, es[n], depth);
      LastEncoded(r, es);
      assert es == es[..n] + [es[n]];
    }
  }

  lemma {:induction false} DecodeOfEncodeColumns(r: Registry, cs: seq<Column>, depth: nat)
    requires r.Faithful() && depth <= MAX_ELEMENT_DEPTH
    ensures DecodeColumns(r, EncodeColumns(r, cs), depth)
         == if DeepestInColumns(cs, depth) <= MAX_ELEMENT_DEPTH then Ok(cs) else Err(TooDeep)
    decreases cs, 0
  {
    if cs != [] {
      var n := |cs| - 1;
      DecodeOfEncodeColumns(r, cs[..n], depth);
      DecodeOfEncodeAll(r, cs[n].elements, depth + 1, depth);
      var ws := EncodeColumns(r, cs);
      assert ws[..n] == EncodeColumns(r, cs[..n]);
      assert ws[n] == WireColumn(cs[n].weight, EncodeAll(r, cs[n].elements));
      assert cs == cs[..n] + [cs[n]];
    }
  }

  /** A receipt's element list, each at level 0. */
  lemma ReceiptRoundTrip(r: Registry, es: seq<Element>)
    requires r.Faithful()
    ensures DecodeAll(r, EncodeAll(r, es), 0)
         == if DeepestOf(es, 0, 0) <= MAX_ELEMENT_DEPTH then Ok(es) else Err(TooDeep)
  {
    DecodeOfEncodeAll(r, es, 0, 0);
  }

  // ------------------------------------------------------------------ bounded recursion

  /** How many calls of the dispatcher are on the stack at once, at most. */
  function Frames(w: Wire, depth: nat): nat
    decreases w, 0
  {
    if depth > MAX_ELEMENT_DEPTH || w.NotAnObject? || w.typ != "columns" || !w.columnsOk then 1
    else 1 + ColumnFrames(w.columns, depth)
  }

  function ElementFrames(ws: seq<Wire>, depth: nat): nat
    decreases ws, 0
  {
    if ws == [] then 0 else Max(ElementFrames(ws[..|ws| - 1], depth), Frames(ws[|ws| - 1], depth))
  }

  function ColumnFrames(cs: seq<WireColumn>, depth: nat): nat
    decreases cs, 0
  {
    if cs == [] then 0 else Max(ColumnFrames(cs[..|cs| - 1], depth), ElementFrames(cs[|cs| - 1].elements, depth + 1))
  }

  /** For every input, well formed or not: one frame, plus one per level left above the bound. */
  lemma {:induction false} FramesBounded(w: Wire, depth: nat)
    ensures Frames(w, depth) <= 1 + StepsLeft(depth)
    decreases w, 0
  {
    if depth <= MAX_ELEMENT_DEPTH && w.Object? { ColumnFramesBounded(w.columns, depth); }
  }

  lemma {:induction false} ElementFramesBounded(ws: seq<Wire>, depth: nat)
    ensures ElementFrames(ws, depth) <= 1 + StepsLeft(depth)
    decreases ws, 0
  {
    if ws != [] {
      ElementFramesBounded(ws[..|ws| - 1], depth);
      FramesBounded(ws[|ws| - 1], depth);
    }
  }

  lemma {:induction false} ColumnFramesBounded(cs: seq<WireColumn>, depth: nat)
    requires depth <= MAX_ELEMENT_DEPTH
    ensures ColumnFrames(cs, depth) <= StepsLeft(depth)
    decreases cs, 0
  {
    if cs != [] {
      ColumnFramesBounded(cs[..|cs| - 1], depth);
      ElementFramesBounded(cs[|cs| - 1].elements, depth + 1);
    }
  }
}
