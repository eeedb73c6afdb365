/**
  The printer-agnostic receipt model: the closed set of elements a receipt is
  made of, and the number of copies a queued receipt asks for.
 */
module Receipts {

  datatype Option<+T> = None | Some(value: T) {
    function GetOr(default: T): T {
      if Some? then value else default
    }
  }

  datatype Result<+T, +E> = Ok(value: T) | Err(error: E)

  datatype ListItem = ListItem(content: string, checked: bool, indent: int)

  /** One side-by-side segment of a Columns element; a nil and an empty list of elements are one. */
  datatype Column = Column(weight: int, elements: seq<Element>)

  datatype Element =
    | Text(content: string, align: string, bold: bool, italic: bool,
           underline: bool, strikethrough: bool, size: int)
    | Heading(content: string)
    | Spacer(height: int)
    | Divider(style: string, size: int)
    | Feed(lines: int)
    | Cut(mode: string)
    | Image(data: seq<bv8>)
    | Asset(name: string, width: int, align: string)
    | QRCode(content: string, size: int, errorCorrection: string)
    | Barcode(content: string, symbology: string, height: int, showText: bool)
    | Table(headers: seq<string>, rows: seq<seq<string>>)
    | List(kind: string, items: seq<ListItem>)
    | Columns(columns: seq<Column>)

  datatype Receipt = Receipt(version: int, copies: int, elements: seq<Element>)

  const MAX_COPIES: nat := 100

  /** How many times the encoded receipt is sent: never none, never more than MAX_COPIES. */
  function EffectiveCopies(r: Receipt): (n: nat)
    ensures 1 <= n <= MAX_COPIES
    ensures n == r.copies <==> 1 <= r.copies <= MAX_COPIES
    ensures r.copies < 1 <==> n > r.copies
    ensures n > r.copies ==> n == 1
    ensures n < r.copies ==> n == MAX_COPIES
  {
    if r.copies < 1 then 1
    else if r.copies > MAX_COPIES then MAX_COPIES
    else r.copies
  }
}
