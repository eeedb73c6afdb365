/**
  Encoding a canvas as ESC/POS bytes, and an ESC/POS interpreter that says what
  paper those bytes mean.
 */
module Escpos {
  import opened Receipts
  import opened Bitmaps
  import opened Painting

  /** The printer capabilities the encoder reads. */
  datatype Profile = Profile(supportsCut: bool, defaultCut: string, maxImageHeightDots: int)

  const INIT: seq<bv8> := [0x1B, 0x40]
  const RASTER: seq<bv8> := [0x1D, 0x76, 0x30, 0x00]
  const DEFAULT_FEED_LINES: nat := 4

  // ------------------------------------------------------------------ the paper

  /** What the printer does: reset, print one row of dots, feed lines, cut. */
  datatype Op = ResetPrinter | PrintRow(dots: seq<bv8>) | FeedPaper(lines: nat) | CutPaper(full: bool)

  /** `count` consecutive rows of `width` bytes each. */
  function Rows(data: seq<bv8>, width: nat, count: nat): seq<Op>
    requires |data| == RowStart(width, count)
  {
    if count == 0 then []
    else [PrintRow(data[..width])] + Rows(data[width..], width, count - 1)
  }

  function Word(lo: bv8, hi: bv8): nat {
    lo as nat + 256 * (hi as nat)
  }

  /**
    The command `bytes` begins with, as operations and a length: ESC @ resets,
    GS v 0 prints a raster image of the given byte width and row count, ESC d feeds,
    GS V cuts. Anything else, a command cut short, or an image of more rows than
    the printer can `buffer` is not understood.
   */
  function FirstCommand(bytes: seq<bv8>, buffer: nat): (c: Option<(seq<Op>, nat)>)
    ensures c.Some? ==> 0 < c.value.1 <= |bytes|
  {
    if |bytes| >= 2 && bytes[0] == 0x1B && bytes[1] == 0x40 then Some(([ResetPrinter], 2))
    else if |bytes| >= 3 && bytes[0] == 0x1B && bytes[1] == 0x64 then Some(([FeedPaper(bytes[2] as nat)], 3))
    else if |bytes| >= 3 && bytes[0] == 0x1D && bytes[1] == 0x56 && bytes[2] <= 1 then Some(([CutPaper(bytes[2] == 0)], 3))
    else if |bytes| >= 8 && bytes[..4] == RASTER then
      var width, count := Word(bytes[4], bytes[5]), Word(bytes[6], bytes[7]);
      var size := RowStart(width, count);
      if 8 + size > |bytes| || count > buffer then None
      else Some((Rows(bytes[8..8 + size], width, count), 8 + size))
    else None
  }

  /** A stream of ESC/POS commands as a printer reads it. */
  function Interpret(bytes: seq<bv8>, buffer: nat): Option<seq<Op>>
    decreases |bytes|
  {
    if bytes == [] then Some([])
    else
      var c := FirstCommand(bytes, buffer);
      if c == None then None else Then(c.value.0, Interpret(bytes[c.value.1..], buffer))
  }

  function Then(ops: seq<Op>, rest: Option<seq<Op>>): Option<seq<Op>> {
    if rest == None then None else Some(ops + rest.value)
  }

  // ------------------------------------------------------------------ the encoder

  function Low(n: nat): bv8 { (n % 256) as bv8 }

  /** The little-endian 16-bit pair; higher bits are lost. */
  function LoHi(n: nat): seq<bv8> {
    [Low(n), Low(n / 256)]
  }

  function FeedCommand(lines: int): seq<bv8>
  {
    [0x1B, 0x64, (lines % 256) as bv8]
  }

  function CutCommand(mode: string): Option<seq<bv8>> {
    if mode == "full" then Some([0x1D, 0x56, 0x00])
    else if mode == "partial" then Some([0x1D, 0x56, 0x01])
    else None
  }

  function ControlCommand(e: Element, profile: Profile): Option<seq<bv8>> {
    match e
    case Feed(lines) => Some(FeedCommand(lines))
    case Cut(mode) =>
      if !profile.supportsCut then Some([])
      else CutCommand(if mode == "" then profile.defaultCut else mode)
    case _ => None
  }

  predicate EndsWithExplicitCut(controls: seq<Control>) {
    controls != [] && controls[|controls| - 1].terminal && controls[|controls| - 1].element.Cut?
  }

  predicate AutoCuts(controls: seq<Control>, profile: Profile) {
    profile.supportsCut && !EndsWithExplicitCut(controls)
  }

  function BandHeight(height: nat, maxImageHeightDots: int): (band: nat)
    ensures height > 0 ==> 0 < band <= height
    ensures maxImageHeightDots > 0 ==> band <= maxImageHeightDots
    ensures band == height || band == maxImageHeightDots
  {
    if maxImageHeightDots <= 0 || maxImageHeightDots >= height then height else maxImageHeightDots
  }

  /** The most rows the printer takes in one image; without a limit, as many as the command can say. */
  function Buffer(profile: Profile): nat {
    if profile.maxImageHeightDots <= 0 then 0xFFFF else profile.maxImageHeightDots
  }

  /** The rows of the tallest band rows [from, to) are cut into. */
  function TallestBand(band: nat, from: int, to: int): nat {
    if from >= to then 0 else if to - from < band then to - from else band
  }

  /** One GS v 0 command carrying `count` rows. */
  function Band(data: seq<bv8>, width: nat, count: nat): seq<bv8> {
    RASTER + LoHi(width) + LoHi(count) + data
  }

  /** Rows [from, to) of a canvas with `width` bytes a row. */
  function RowBytesOf(bits: seq<bv8>, width: nat, from: nat, to: nat): (data: seq<bv8>)
    requires from <= to && to * width <= |bits|
    ensures |data| == RowStart(width, to - from)
  {
    RangeLength(width, from, to);
    RowStartIsProduct(width, to - from);
    bits[from * width..to * width]
  }

  lemma RangeLength(width: nat, from: nat, to: nat)
    requires from <= to
    ensures from * width <= to * width && to * width - from * width == width * (to - from)
  {}

  function Bands(bits: seq<bv8>, width: nat, band: nat, from: nat, to: nat): seq<bv8>
    requires band > 0 && (from < to ==> to * width <= |bits|)
    decreases if from < to then to - from else 0
  {
    if from >= to then []
    else
      var end := if from + band > to then to else from + band;
      RangeLength(width, end, to);
      Band(RowBytesOf(bits, width, from, end), width, end - from) + Bands(bits, width, band, from + band, to)
  }

  /** The bytes for the controls from row `pos` on, and the rows after the last. */
  function Stream(bits: seq<bv8>, width: nat, height: nat, band: nat, cs: seq<Control>, profile: Profile, pos: int): Option<seq<bv8>>
    requires band > 0 && |bits| == width * height && pos >= 0
    requires forall i | 0 <= i < |cs| :: 0 <= cs[i].y <= height
    decreases |cs|
  {
    if cs == [] then Some(BandsWithin(bits, width, height, band, pos, height))
    else
      var command := ControlCommand(cs[0].element, profile);
      var rest := Stream(bits, width, height, band, cs[1..], profile, cs[0].y);
      if command == None || rest == None then None
      else Some(BandsWithin(bits, width, height, band, pos, cs[0].y) + command.value + rest.value)
  }

  /** Bands of a range that lies within the canvas. */
  function BandsWithin(bits: seq<bv8>, width: nat, height: nat, band: nat, from: nat, to: nat): seq<bv8>
    requires band > 0 && |bits| == width * height && to <= height
  {
    RangeLength(width, to, height);
    Bands(bits, width, band, from, to)
  }

  /** What is appended when no explicit cut ends the document. */
  function Closing(cs: seq<Control>, profile: Profile): Option<seq<bv8>> {
    if !AutoCuts(cs, profile) then Some([])
    else if CutCommand(profile.defaultCut) == None then None
    else Some(FeedCommand(DEFAULT_FEED_LINES) + CutCommand(profile.defaultCut).value)
  }

  /** None is the encoder's permanent error. */
  function Encoded(width: nat, height: nat, bits: seq<bv8>, cs: seq<Control>, profile: Profile): Option<seq<bv8>>
    requires forall i | 0 <= i < |cs| :: 0 <= cs[i].y <= height
  {
    if width == 0 || height == 0 || |bits| != RowBytes(width) * height then None
    else
      var band := BandHeight(height, profile.maxImageHeightDots);
      var body := Stream(bits, RowBytes(width), height, band, cs, profile, 0);
      var closing := Closing(cs, profile);
      if body == None || closing == None then None
      else Some(INIT + body.value + closing.value)
  }

  lemma WithinRange(width: nat, height: nat, to: nat)
    requires to <= height
    ensures to * width <= width * height
  {
    RangeLength(width, to, height);
  }

  method AppendRasterBands(out: seq<bv8>, bits: seq<bv8>, width: nat, ghost height: nat, band: nat, from: nat, to: nat)
    returns (r: seq<bv8>)
    requires band > 0 && |bits| == width * height && to <= height
    ensures r == out + BandsWithin(bits, width, height, band, from, to)
  {
    WithinRange(width, height, to);
    r := AppendBands(out, bits, width, band, from, to);
  }

  /** What the loop has appended, and what is still to come. */
  ghost predicate BandsSoFar(out: seq<bv8>, bits: seq<bv8>, width: nat, band: nat, from: nat, to: nat, start: nat, r: seq<bv8>)
    requires band > 0 && to * width <= |bits|
  {
    r + Bands(bits, width, band, start, to) == out + Bands(bits, width, band, from, to)
  }

  lemma NextBand(out: seq<bv8>, bits: seq<bv8>, width: nat, band: nat, from: nat, to: nat, start: nat, r: seq<bv8>, end: nat)
    requires band > 0 && to * width <= |bits| && start < to && end == (if start + band > to then to else start + band)
    requires BandsSoFar(out, bits, width, band, from, to, start, r)
    ensures end * width <= |bits|
    ensures BandsSoFar(out, bits, width, band, from, to, start + band,
                       r + Band(RowBytesOf(bits, width, start, end), width, end - start))
  {
    RangeLength(width, end, to);
    var first := Band(RowBytesOf(bits, width, start, end), width, end - start);
    var rest := Bands(bits, width, band, start + band, to);
    assert Bands(bits, width, band, start, to) == first + rest;
    assert r + (first + rest) == r + first + rest;
  }

  method AppendBands(out: seq<bv8>, bits: seq<bv8>, width: nat, band: nat, from: nat, to: nat) returns (r: seq<bv8>)
    requires band > 0 && to * width <= |bits|
    ensures r == out + Bands(bits, width, band, from, to)
  {
    r := out;
    var start := from;
    while start < to
      invariant BandsSoFar(out, bits, width, band, from, to, start, r)
      decreases if start < to then to - start else 0
    {
      var rows := band;
      if start + rows > to {
        rows := to - start;
      }
      NextBand(out, bits, width, band, from, to, start, r, start + rows);
      r := r + Band(RowBytesOf(bits, width, start, start + rows), width, rows);
      start := start + band;
    }
  }

  method Encode(width: nat, height: nat, bits: seq<bv8>, cs: seq<Control>, profile: Profile) returns (r: Option<seq<bv8>>)
    requires forall i | 0 <= i < |cs| :: 0 <= cs[i].y <= height
    ensures r == Encoded(width, height, bits, cs, profile)
  {
    if width == 0 || height == 0 {
      return None;
    }
    var rowBytes := (width + 7) / 8;
    if |bits| != rowBytes * height {
      return None;
    }
    var autoFeed, autoCut := [], [];
    if profile.supportsCut && !EndsWithExplicitCut(cs) {
      var cut := CutCommand(profile.defaultCut);
      if cut == None {
        return None;
      }
      autoCut := cut.value;
      autoFeed := FeedCommand(DEFAULT_FEED_LINES);
    }
    var band := BandHeight(height, profile.maxImageHeightDots);
    var out := AppendBody(INIT, bits, rowBytes, height, band, cs, profile);
    if out == None {
      return None;
    }
    r := Some(out.value + autoFeed + autoCut);
    assert out.value + autoFeed + autoCut == out.value + (autoFeed + autoCut);
  }

  /** The bands with the controls spliced between them, after `init`. */
  method AppendBody(init: seq<bv8>, bits: seq<bv8>, width: nat, height: nat, band: nat, cs: seq<Control>, profile: Profile)
    returns (r: Option<seq<bv8>>)
    requires band > 0 && |bits| == width * height && forall i | 0 <= i < |cs| :: 0 <= cs[i].y <= height
    ensures r == Prepend(init, Stream(bits, width, height, band, cs, profile, 0))
  {
    var out := init;
    var pos := 0;
    for i := 0 to |cs|
      invariant 0 <= pos <= height
      invariant Prepend(init, Stream(bits, width, height, band, cs, profile, 0))
             == Prepend(out, Stream(bits, width, height, band, cs[i..], profile, pos))
    {
      assert cs[i..][1..] == cs[i + 1..];
      ghost var rest := Stream(bits, width, height, band, cs[i + 1..], profile, cs[i].y);
      ghost var before, bands := out, BandsWithin(bits, width, height, band, pos, cs[i].y);
      out := AppendRasterBands(out, bits, width, height, band, pos, cs[i].y);
      pos := cs[i].y;
      var command := ControlCommand(cs[i].element, profile);
      if command == None {
        return None;
      }
      out := out + command.value;
      assert out == before + (bands + command.value);
      PrependTwice(before, bands + command.value, rest);
    }
    out := AppendRasterBands(out, bits, width, height, band, pos, height);
    r := Some(out);
  }

  ghost function Prepend(a: seq<bv8>, b: Option<seq<bv8>>): Option<seq<bv8>> {
    if b == None then None else Some(a + b.value)
  }

  lemma PrependTwice(a: seq<bv8>, b: seq<bv8>, c: Option<seq<bv8>>)
    ensures Prepend(a, Prepend(b, c)) == Prepend(a + b, c)
  {
    if c.Some? { assert a + (b + c.value) == a + b + c.value; }
  }
}
