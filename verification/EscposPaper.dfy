/**
  The bytes mean the paper: as long as its sizes fit the raster command, interpreting
  what the encoder emits yields the canvas's rows, however they are cut into bands,
  once each and in order, with every control where it belongs.
 */
module EscposPaper {
  import opened Receipts
  import opened Bitmaps
  import opened Painting
  import opened Escpos
  import opened Bytes

  // ------------------------------------------------------------------ reading commands back

  /** The pair holds a 16-bit number exactly. */
  lemma WordOfLoHi(n: nat)
    requires n < 0x1_0000
    ensures Word(LoHi(n)[0], LoHi(n)[1]) == n
  {
    SmallQuotient(n);
    ByteValue(n % 256);
    ByteValue(n / 256);
  }

  lemma SmallQuotient(n: nat)
    requires n < 0x1_0000
    ensures n / 256 < 256 && n / 256 % 256 == n / 256 && n == 256 * (n / 256) + n % 256
  {}

  lemma ThenThen(a: seq<Op>, b: seq<Op>, c: Option<seq<Op>>)
    ensures Then(a, Then(b, c)) == Then(a + b, c)
  {
    if c.Some? { assert a + (b + c.value) == a + b + c.value; }
  }

  lemma ReadBand(data: seq<bv8>, width: nat, count: nat, rest: seq<bv8>, buffer: nat)
    requires width < 0x1_0000 && count < 0x1_0000 && count <= buffer && |data| == RowStart(width, count)
    ensures Interpret(Band(data, width, count) + rest, buffer) == Then(Rows(data, width, count), Interpret(rest, buffer))
  {
    var bytes := Band(data, width, count) + rest;
    assert bytes[..4] == RASTER;
    assert bytes[4] == LoHi(width)[0] && bytes[5] == LoHi(width)[1];
    assert bytes[6] == LoHi(count)[0] && bytes[7] == LoHi(count)[1];
    WordOfLoHi(width);
    WordOfLoHi(count);
    assert bytes[8..8 + |data|] == data;
    assert bytes[8 + |data|..] == rest;
  }

  lemma ReadInit(rest: seq<bv8>, buffer: nat)
    ensures Interpret(INIT + rest, buffer) == Then([ResetPrinter], Interpret(rest, buffer))
  {
    var bytes := INIT + rest;
    assert bytes[0] == 0x1B && bytes[1] == 0x40 && bytes[2..] == rest;
  }

  lemma ReadFeed(lines: int, rest: seq<bv8>, buffer: nat)
    requires 0 <= lines < 256
    ensures Interpret(FeedCommand(lines) + rest, buffer) == Then([FeedPaper(lines)], Interpret(rest, buffer))
  {
    ByteValue(lines);
    var bytes := FeedCommand(lines) + rest;
    assert bytes[0] == 0x1B && bytes[1] == 0x64 && bytes[2] == (lines % 256) as bv8 && bytes[3..] == rest;
  }

  lemma ReadCut(mode: string, rest: seq<bv8>, buffer: nat)
    requires CutCommand(mode).Some?
    ensures Interpret(CutCommand(mode).value + rest, buffer) == Then([CutPaper(mode == "full")], Interpret(rest, buffer))
  {
    var bytes := CutCommand(mode).value + rest;
    assert bytes[0] == 0x1D && bytes[1] == 0x56 && bytes[3..] == rest;
  }

  // ------------------------------------------------------------------ readers of single commands

  /** What a printer makes of a stream. */
  type Reader = seq<bv8> -> Option<seq<Op>>

  ghost predicate ReadsBand(read: Reader, data: seq<bv8>, width: nat, count: nat, rest: seq<bv8>)
    requires |data| == RowStart(width, count)
  {
    read(Band(data, width, count) + rest) == Then(Rows(data, width, count), read(rest))
  }

  ghost predicate ReadsFeed(read: Reader, lines: int, rest: seq<bv8>) {
    read(FeedCommand(lines) + rest) == Then([FeedPaper(if lines >= 0 then lines else 0)], read(rest))
  }

  ghost predicate ReadsCut(read: Reader, mode: string, rest: seq<bv8>)
    requires CutCommand(mode).Some?
  {
    read(CutCommand(mode).value + rest) == Then([CutPaper(mode == "full")], read(rest))
  }

  ghost predicate ReadsInit(read: Reader, rest: seq<bv8>) {
    read(INIT + rest) == Then([ResetPrinter], read(rest))
  }

  /** The reader takes each command the encoder emits for what it means, one after the other. */
  ghost predicate IsPrinter(read: Reader, buffer: nat) {
    && read([]) == Some([])
    && (forall rest :: ReadsInit(read, rest))
    && (forall lines, rest | 0 <= lines < 256 :: ReadsFeed(read, lines, rest))
    && (forall mode, rest | CutCommand(mode).Some? :: ReadsCut(read, mode, rest))
    && (forall data, width: nat, count: nat, rest |
          width < 0x1_0000 && count < 0x1_0000 && count <= buffer && |data| == RowStart(width, count) ::
          ReadsBand(read, data, width, count, rest))
  }

  /** The interpreter is such a reader. */
  lemma InterpreterIsPrinter(buffer: nat)
    ensures IsPrinter(bytes => Interpret(bytes, buffer), buffer)
  {
    var read: Reader := bytes => Interpret(bytes, buffer);
    forall rest
      ensures ReadsInit(read, rest)
    {
      ReadInit(rest, buffer);
    }
    forall lines, rest | 0 <= lines < 256
      ensures ReadsFeed(read, lines, rest)
    {
      ReadFeed(lines, rest, buffer);
    }
    forall mode, rest | CutCommand(mode).Some?
      ensures ReadsCut(read, mode, rest)
    {
      ReadCut(mode, rest, buffer);
    }
    forall data, width: nat, count: nat, rest |
      width < 0x1_0000 && count < 0x1_0000 && count <= buffer && |data| == RowStart(width, count)
      ensures ReadsBand(read, data, width, count, rest)
    {
      ReadBand(data, width, count, rest, buffer);
    }
  }

  // ------------------------------------------------------------------ the paper a canvas means

  /** The rows [from, to) of a canvas, one operation each. */
  function CanvasRows(bits: seq<bv8>, width: nat, height: nat, from: nat, to: nat): (ops: seq<Op>)
    requires |bits| == width * height && to <= height
    ensures |ops| == if from < to then to - from else 0
    decreases if from < to then to - from else 0
  {
    if from >= to then []
    else
      WithinRange(width, height, from + 1);
      [PrintRow(RowBytesOf(bits, width, from, from + 1))] + CanvasRows(bits, width, height, from + 1, to)
  }

  /** What a control does to the paper; a cut does nothing without a cutter. */
  function ControlOps(e: Element, profile: Profile): seq<Op> {
    match e
    case Feed(lines) => if lines >= 0 then [FeedPaper(lines)] else []
    case Cut(mode) =>
      if !profile.supportsCut then []
      else [CutPaper((if mode == "" then profile.defaultCut else mode) == "full")]
    case _ => []
  }

  function BodyPaper(bits: seq<bv8>, width: nat, height: nat, cs: seq<Control>, profile: Profile, pos: nat): seq<Op>
    requires |bits| == width * height && forall i | 0 <= i < |cs| :: 0 <= cs[i].y <= height
    decreases |cs|
  {
    if cs == [] then CanvasRows(bits, width, height, pos, height)
    else
      CanvasRows(bits, width, height, pos, cs[0].y) + ControlOps(cs[0].element, profile)
      + BodyPaper(bits, width, height, cs[1..], profile, cs[0].y)
  }

  function ClosingPaper(cs: seq<Control>, profile: Profile): seq<Op> {
    if AutoCuts(cs, profile) then [FeedPaper(DEFAULT_FEED_LINES), CutPaper(profile.defaultCut == "full")] else []
  }

  /** Nothing here mentions bands. */
  function Paper(bits: seq<bv8>, width: nat, height: nat, cs: seq<Control>, profile: Profile): seq<Op>
    requires |bits| == width * height && forall i | 0 <= i < |cs| :: 0 <= cs[i].y <= height
  {
    [ResetPrinter] + BodyPaper(bits, width, height, cs, profile, 0) + ClosingPaper(cs, profile)
  }

  // ------------------------------------------------------------------ bands print their rows

  lemma {:induction false} RowsAreCanvasRows(bits: seq<bv8>, width: nat, height: nat, from: nat, to: nat)
    requires |bits| == width * height && from <= to <= height
    ensures to * width <= |bits|
    ensures Rows(RowBytesOf(bits, width, from, to), width, to - from) == CanvasRows(bits, width, height, from, to)
    decreases if from < to then to - from else 0
  {
    WithinRange(width, height, to);
    if from < to {
      WithinRange(width, height, from + 1);
      var data := RowBytesOf(bits, width, from, to);
      FirstRow(bits, width, from, to);
      RowsAreCanvasRows(bits, width, height, from + 1, to);
    }
  }

  lemma FirstRow(bits: seq<bv8>, width: nat, from: nat, to: nat)
    requires from < to && to * width <= |bits|
    ensures (from + 1) * width <= |bits|
    ensures width <= |RowBytesOf(bits, width, from, to)|
    ensures RowBytesOf(bits, width, from, to)[..width] == RowBytesOf(bits, width, from, from + 1)
    ensures RowBytesOf(bits, width, from, to)[width..] == RowBytesOf(bits, width, from + 1, to)
  {
    RangeLength(width, from, from + 1);
    RangeLength(width, from + 1, to);
    assert (from + 1) * width == from * width + width;
  }

  lemma {:induction false} CanvasRowsSplit(bits: seq<bv8>, width: nat, height: nat, from: nat, mid: nat, to: nat)
    requires |bits| == width * height && from <= mid <= to <= height
    ensures CanvasRows(bits, width, height, from, to)
         == CanvasRows(bits, width, height, from, mid) + CanvasRows(bits, width, height, mid, to)
    decreases mid - from
  {
    if from < mid { CanvasRowsSplit(bits, width, height, from + 1, mid, to); }
  }

  /** GS v 0 can say, and the printer buffer, every band of rows [from, to). */
  predicate BandsFit(band: nat, from: int, to: int, buffer: nat) {
    TallestBand(band, from, to) < 0x1_0000 && TallestBand(band, from, to) <= buffer
  }

  lemma BandsUnfold(bits: seq<bv8>, width: nat, height: nat, band: nat, from: nat, to: nat, end: nat)
    requires band > 0 && |bits| == width * height && from < to <= height
    requires end == if from + band > to then to else from + band
    ensures end * width <= |bits|
    ensures BandsWithin(bits, width, height, band, from, to)
         == Band(RowBytesOf(bits, width, from, end), width, end - from) + BandsWithin(bits, width, height, band, from + band, to)
  {
    WithinRange(width, height, to);
    WithinRange(width, height, end);
  }

  lemma {:induction false} BandsPrintRows(bits: seq<bv8>, width: nat, height: nat, band: nat, from: nat, to: nat, rest: seq<bv8>, read: Reader, buffer: nat)
    requires IsPrinter(read, buffer)
    requires 0 < band && BandsFit(band, from, to, buffer) && width < 0x1_0000 && |bits| == width * height && to <= height
    ensures read(BandsWithin(bits, width, height, band, from, to) + rest)
         == Then(CanvasRows(bits, width, height, from, to), read(rest))
    decreases if from < to then to - from else 0
  {
    if from >= to {
      NoBands(bits, width, height, band, from, to, rest, read, buffer);
    } else {
      BandsPrintRows(bits, width, height, band, from + band, to, rest, read, buffer);
      FirstAndRest(bits, width, height, band, from, to, rest, read, buffer);
    }
  }

  lemma FirstAndRest(bits: seq<bv8>, width: nat, height: nat, band: nat, from: nat, to: nat, rest: seq<bv8>, read: Reader, buffer: nat)
    requires IsPrinter(read, buffer)
    requires 0 < band && BandsFit(band, from, to, buffer) && width < 0x1_0000 && |bits| == width * height && from < to <= height
    requires read(BandsWithin(bits, width, height, band, from + band, to) + rest)
          == Then(CanvasRows(bits, width, height, from + band, to), read(rest))
    ensures read(BandsWithin(bits, width, height, band, from, to) + rest)
         == Then(CanvasRows(bits, width, height, from, to), read(rest))
  {
    var end := if from + band > to then to else from + band;
    FirstBandPrints(bits, width, height, band, from, to, end, rest, read, buffer);
    JoinRows(bits, width, height, from, end, from + band, to,
             read(BandsWithin(bits, width, height, band, from, to) + rest),
             read(BandsWithin(bits, width, height, band, from + band, to) + rest), read(rest));
  }

  lemma NoBands(bits: seq<bv8>, width: nat, height: nat, band: nat, from: nat, to: nat, rest: seq<bv8>, read: Reader, buffer: nat)
    requires IsPrinter(read, buffer)
    requires 0 < band && |bits| == width * height && to <= height && from >= to
    ensures read(BandsWithin(bits, width, height, band, from, to) + rest)
         == Then(CanvasRows(bits, width, height, from, to), read(rest))
  {
    WithinRange(width, height, to);
    assert [] + rest == rest;
    if read(rest).Some? { assert [] + read(rest).value == read(rest).value; }
  }

  lemma FirstBandPrints(bits: seq<bv8>, width: nat, height: nat, band: nat, from: nat, to: nat, end: nat, rest: seq<bv8>, read: Reader, buffer: nat)
    requires IsPrinter(read, buffer)
    requires 0 < band && BandsFit(band, from, to, buffer) && width < 0x1_0000 && |bits| == width * height && from < to <= height
    requires end == if from + band > to then to else from + band
    ensures read(BandsWithin(bits, width, height, band, from, to) + rest)
         == Then(CanvasRows(bits, width, height, from, end),
                 read(BandsWithin(bits, width, height, band, from + band, to) + rest))
  {
    BandsUnfold(bits, width, height, band, from, to, end);
    var first := Band(RowBytesOf(bits, width, from, end), width, end - from);
    var more := BandsWithin(bits, width, height, band, from + band, to);
    assert first + more + rest == first + (more + rest);
    assert ReadsBand(read, RowBytesOf(bits, width, from, end), width, end - from, more + rest);
    RowsAreCanvasRows(bits, width, height, from, end);
  }

  lemma JoinRows(bits: seq<bv8>, width: nat, height: nat, from: nat, end: nat, next: nat, to: nat,
                 whole: Option<seq<Op>>, more: Option<seq<Op>>, rest: Option<seq<Op>>)
    requires |bits| == width * height && from <= end <= to <= height && (next == end || (end == to && next >= to))
    requires whole == Then(CanvasRows(bits, width, height, from, end), more)
    requires more == Then(CanvasRows(bits, width, height, next, to), rest)
    ensures whole == Then(CanvasRows(bits, width, height, from, to), rest)
  {
    CanvasRowsSplit(bits, width, height, from, end, to);
    assert CanvasRows(bits, width, height, next, to) == CanvasRows(bits, width, height, end, to);
    ThenThen(CanvasRows(bits, width, height, from, end), CanvasRows(bits, width, height, end, to), rest);
  }

  // ------------------------------------------------------------------ the main result

  /** What layout and painting give the encoder: a picture, controls in row order, feeds of one byte. */
  ghost predicate Drawn(width: nat, height: nat, bits: seq<bv8>, cs: seq<Control>) {
    && width > 0 && height > 0 && |bits| == RowBytes(width) * height
    && (forall i | 0 <= i < |cs| :: 0 <= cs[i].y <= height)
    && (forall i, j | 0 <= i < j < |cs| :: cs[i].y <= cs[j].y)
    && (forall i | 0 <= i < |cs| && cs[i].element.Feed? :: 0 <= cs[i].element.lines < 256)
  }

  /** The bands of every gap between consecutive controls, and of the rows after the last, fit. */
  predicate GapsFit(band: nat, height: nat, cs: seq<Control>, pos: int, buffer: nat)
    decreases |cs|
  {
    if cs == [] then BandsFit(band, pos, height, buffer)
    else BandsFit(band, pos, cs[0].y, buffer) && GapsFit(band, height, cs[1..], cs[0].y, buffer)
  }

  /** The rows and bands of a canvas fit the raster command's two 16-bit sizes. */
  predicate Expressible(width: nat, height: nat, cs: seq<Control>, profile: Profile) {
    && RowBytes(width) < 0x1_0000
    && GapsFit(BandHeight(height, profile.maxImageHeightDots), height, cs, 0, Buffer(profile))
  }

  ghost predicate Encodable(width: nat, height: nat, bits: seq<bv8>, cs: seq<Control>, profile: Profile) {
    Drawn(width, height, bits, cs) && Expressible(width, height, cs, profile)
  }

  lemma ControlMeans(e: Element, profile: Profile, rest: seq<bv8>, read: Reader, buffer: nat)
    requires IsPrinter(read, buffer)
    requires ControlCommand(e, profile).Some? && (e.Feed? ==> 0 <= e.lines < 256)
    ensures read(ControlCommand(e, profile).value + rest) == Then(ControlOps(e, profile), read(rest))
  {
    match e
    case Feed(lines) => assert ReadsFeed(read, lines, rest);
    case Cut(mode) =>
      if profile.supportsCut {
        assert ReadsCut(read, if mode == "" then profile.defaultCut else mode, rest);
      } else {
        assert [] + rest == rest;
        if read(rest).Some? { assert [] + read(rest).value == read(rest).value; }
      }
  }

  lemma {:induction false} StreamMeans(bits: seq<bv8>, width: nat, height: nat, band: nat, cs: seq<Control>,
                                       profile: Profile, pos: nat, rest: seq<bv8>, read: Reader, buffer: nat)
    requires IsPrinter(read, buffer)
    requires 0 < band && width < 0x1_0000 && |bits| == width * height && GapsFit(band, height, cs, pos, buffer)
    requires forall i | 0 <= i < |cs| :: 0 <= cs[i].y <= height
    requires forall i | 0 <= i < |cs| && cs[i].element.Feed? :: 0 <= cs[i].element.lines < 256
    requires Stream(bits, width, height, band, cs, profile, pos).Some?
    ensures read(Stream(bits, width, height, band, cs, profile, pos).value + rest)
         == Then(BodyPaper(bits, width, height, cs, profile, pos), read(rest))
    decreases |cs|
  {
    if cs == [] {
      BandsPrintRows(bits, width, height, band, pos, height, rest, read, buffer);
    } else {
      var y := cs[0].y;
      StreamSplits(bits, width, height, band, cs, profile, pos, rest);
      var more := Stream(bits, width, height, band, cs[1..], profile, y).value;
      RowsThenControl(bits, width, height, band, pos, y, cs[0].element, profile, more + rest, read, buffer);
      StreamMeans(bits, width, height, band, cs[1..], profile, y, rest, read, buffer);
      ThenThen(CanvasRows(bits, width, height, pos, y) + ControlOps(cs[0].element, profile),
               BodyPaper(bits, width, height, cs[1..], profile, y), read(rest));
    }
  }

  lemma Regroup<T>(a: seq<T>, b: seq<T>, c: seq<T>, d: seq<T>)
    ensures a + b + c + d == a + (b + (c + d))
  {}

  lemma StreamSplits(bits: seq<bv8>, width: nat, height: nat, band: nat, cs: seq<Control>,
                     profile: Profile, pos: nat, rest: seq<bv8>)
    requires 0 < band && |bits| == width * height && cs != [] && forall i | 0 <= i < |cs| :: 0 <= cs[i].y <= height
    requires Stream(bits, width, height, band, cs, profile, pos).Some?
    ensures Stream(bits, width, height, band, cs[1..], profile, cs[0].y).Some?
    ensures ControlCommand(cs[0].element, profile).Some?
    ensures Stream(bits, width, height, band, cs, profile, pos).value + rest
         == BandsWithin(bits, width, height, band, pos, cs[0].y)
            + (ControlCommand(cs[0].element, profile).value
               + (Stream(bits, width, height, band, cs[1..], profile, cs[0].y).value + rest))
  {
    Regroup(BandsWithin(bits, width, height, band, pos, cs[0].y), ControlCommand(cs[0].element, profile).value,
            Stream(bits, width, height, band, cs[1..], profile, cs[0].y).value, rest);
  }

  /** The rows above a control, then the control itself. */
  lemma RowsThenControl(bits: seq<bv8>, width: nat, height: nat, band: nat, from: nat, to: nat, e: Element,
                        profile: Profile, rest: seq<bv8>, read: Reader, buffer: nat)
    requires IsPrinter(read, buffer)
    requires 0 < band && BandsFit(band, from, to, buffer) && width < 0x1_0000 && |bits| == width * height && to <= height
    requires ControlCommand(e, profile).Some? && (e.Feed? ==> 0 <= e.lines < 256)
    ensures read(BandsWithin(bits, width, height, band, from, to) + (ControlCommand(e, profile).value + rest))
         == Then(CanvasRows(bits, width, height, from, to) + ControlOps(e, profile), read(rest))
  {
    BandsPrintRows(bits, width, height, band, from, to, ControlCommand(e, profile).value + rest, read, buffer);
    ControlMeans(e, profile, rest, read, buffer);
    ThenThen(CanvasRows(bits, width, height, from, to), ControlOps(e, profile), read(rest));
  }

  lemma ClosingMeans(cs: seq<Control>, profile: Profile, read: Reader, buffer: nat)
    requires IsPrinter(read, buffer)
    requires Closing(cs, profile).Some?
    ensures read(Closing(cs, profile).value) == Some(ClosingPaper(cs, profile))
  {
    if AutoCuts(cs, profile) {
      var cut := CutCommand(profile.defaultCut).value;
      assert ReadsFeed(read, DEFAULT_FEED_LINES, cut);
      assert cut + [] == cut;
      assert ReadsCut(read, profile.defaultCut, []);
      var full := profile.defaultCut == "full";
      assert [CutPaper(full)] + [] == [CutPaper(full)];
      assert [FeedPaper(DEFAULT_FEED_LINES)] + [CutPaper(full)] == [FeedPaper(DEFAULT_FEED_LINES), CutPaper(full)];
    }
  }

  /** Any reader of the single commands reads the encoder's bytes as the paper of the canvas. */
  lemma EncodedReads(width: nat, height: nat, bits: seq<bv8>, cs: seq<Control>, profile: Profile, read: Reader)
    requires IsPrinter(read, Buffer(profile))
    requires Encodable(width, height, bits, cs, profile) && Encoded(width, height, bits, cs, profile).Some?
    ensures read(Encoded(width, height, bits, cs, profile).value)
         == Some(Paper(bits, RowBytes(width), height, cs, profile))
  {
    var band, buffer := BandHeight(height, profile.maxImageHeightDots), Buffer(profile);
    var body := Stream(bits, RowBytes(width), height, band, cs, profile, 0).value;
    var closing := Closing(cs, profile).value;
    assert INIT + body + closing == INIT + (body + closing);
    assert ReadsInit(read, body + closing);
    StreamMeans(bits, RowBytes(width), height, band, cs, profile, 0, closing, read, buffer);
    ClosingMeans(cs, profile, read, buffer);
    ThenThen([ResetPrinter], BodyPaper(bits, RowBytes(width), height, cs, profile, 0), read(closing));
  }

  /**
    A printer that buffers no more rows than the profile allows reads the encoder's
    bytes as exactly the paper of the canvas.
   */
  lemma EncodedMeansPaper(width: nat, height: nat, bits: seq<bv8>, cs: seq<Control>, profile: Profile)
    requires Encodable(width, height, bits, cs, profile) && Encoded(width, height, bits, cs, profile).Some?
    ensures Interpret(Encoded(width, height, bits, cs, profile).value, Buffer(profile))
         == Some(Paper(bits, RowBytes(width), height, cs, profile))
  {
    InterpreterIsPrinter(Buffer(profile));
    EncodedReads(width, height, bits, cs, profile, bytes => Interpret(bytes, Buffer(profile)));
  }

  /** Chunking is invisible: two limits on the image height print the same paper. */
  lemma ChunkingInvisible(width: nat, height: nat, bits: seq<bv8>, cs: seq<Control>, profile: Profile, limit: int)
    requires Encodable(width, height, bits, cs, profile)
    requires Encodable(width, height, bits, cs, profile.(maxImageHeightDots := limit))
    ensures var other := profile.(maxImageHeightDots := limit);
      && (Encoded(width, height, bits, cs, profile).Some? <==> Encoded(width, height, bits, cs, other).Some?)
      && (Encoded(width, height, bits, cs, profile).Some? ==>
            Interpret(Encoded(width, height, bits, cs, profile).value, Buffer(profile))
            == Interpret(Encoded(width, height, bits, cs, other).value, Buffer(other)))
  {
    var other := profile.(maxImageHeightDots := limit);
    EncodingIgnoresLimit(width, height, bits, cs, profile, limit);
    if Encoded(width, height, bits, cs, profile).Some? {
      EncodedMeansPaper(width, height, bits, cs, profile);
      EncodedMeansPaper(width, height, bits, cs, other);
      BodyPaperIgnoresLimit(bits, RowBytes(width), height, cs, profile, limit, 0);
    }
  }

  lemma EncodingIgnoresLimit(width: nat, height: nat, bits: seq<bv8>, cs: seq<Control>, profile: Profile, limit: int)
    requires width > 0 && height > 0 && |bits| == RowBytes(width) * height
    requires forall i | 0 <= i < |cs| :: 0 <= cs[i].y <= height
    ensures var other := profile.(maxImageHeightDots := limit);
      Encoded(width, height, bits, cs, profile).Some? <==> Encoded(width, height, bits, cs, other).Some?
  {
    var other := profile.(maxImageHeightDots := limit);
    StreamSucceeds(bits, RowBytes(width), height, BandHeight(height, profile.maxImageHeightDots), cs, profile, 0);
    StreamSucceeds(bits, RowBytes(width), height, BandHeight(height, limit), cs, other, 0);
    assert forall i | 0 <= i < |cs| ::
        ControlCommand(cs[i].element, profile).Some? <==> ControlCommand(cs[i].element, other).Some?;
  }

  lemma {:induction false} BodyPaperIgnoresLimit(bits: seq<bv8>, width: nat, height: nat, cs: seq<Control>, profile: Profile,
                                                 limit: int, pos: nat)
    requires |bits| == width * height && forall i | 0 <= i < |cs| :: 0 <= cs[i].y <= height
    ensures BodyPaper(bits, width, height, cs, profile, pos)
         == BodyPaper(bits, width, height, cs, profile.(maxImageHeightDots := limit), pos)
    decreases |cs|
  {
    if cs != [] { BodyPaperIgnoresLimit(bits, width, height, cs[1..], profile, limit, cs[0].y); }
  }

  lemma {:induction false} StreamSucceeds(bits: seq<bv8>, width: nat, height: nat, band: nat, cs: seq<Control>,
                                          profile: Profile, pos: nat)
    requires 0 < band && |bits| == width * height && forall i | 0 <= i < |cs| :: 0 <= cs[i].y <= height
    ensures Stream(bits, width, height, band, cs, profile, pos).Some?
       <==> forall i | 0 <= i < |cs| :: ControlCommand(cs[i].element, profile).Some?
    decreases |cs|
  {
    if cs != [] {
      StreamSucceeds(bits, width, height, band, cs[1..], profile, cs[0].y);
      assert forall i | 1 <= i < |cs| :: cs[i] == cs[1..][i - 1];
    }
  }

  /** Encoding fails exactly for an empty or mis-sized canvas, or a control or closing cut without a command. */
  lemma EncodeFailsIff(width: nat, height: nat, bits: seq<bv8>, cs: seq<Control>, profile: Profile)
    requires forall i | 0 <= i < |cs| :: 0 <= cs[i].y <= height
    ensures Encoded(width, height, bits, cs, profile) == None <==>
      || width == 0 || height == 0 || |bits| != RowBytes(width) * height
      || (AutoCuts(cs, profile) && profile.defaultCut != "full" && profile.defaultCut != "partial")
      || exists i :: 0 <= i < |cs| && ControlCommand(cs[i].element, profile) == None
  {
    if width > 0 && height > 0 && |bits| == RowBytes(width) * height {
      StreamSucceeds(bits, RowBytes(width), height, BandHeight(height, profile.maxImageHeightDots), cs, profile, 0);
    }
  }

  // ------------------------------------------------------------------ reading the paper

  /** Just the printed rows. */
  function Printed(ops: seq<Op>): seq<Op> {
    if ops == [] then [] else (if ops[0].PrintRow? then [ops[0]] else []) + Printed(ops[1..])
  }

  /** Every other operation, with the number of rows printed before it. */
  function Marks(ops: seq<Op>, row: nat): seq<(nat, Op)> {
    if ops == [] then []
    else if ops[0].PrintRow? then Marks(ops[1..], row + 1)
    else [(row, ops[0])] + Marks(ops[1..], row)
  }

  lemma {:induction false} PrintedConcat(a: seq<Op>, b: seq<Op>)
    ensures Printed(a + b) == Printed(a) + Printed(b)
  {
    if a == [] {
      assert a + b == b;
    } else {
      assert (a + b)[1..] == a[1..] + b;
      PrintedConcat(a[1..], b);
    }
  }

  lemma {:induction false} MarksConcat(a: seq<Op>, b: seq<Op>, row: nat)
    ensures Marks(a + b, row) == Marks(a, row) + Marks(b, row + |Printed(a)|)
    decreases |a|
  {
    if a == [] {
      assert a + b == b;
    } else {
      assert (a + b)[1..] == a[1..] + b;
      MarksConcat(a[1..], b, if a[0].PrintRow? then row + 1 else row);
    }
  }

  lemma ThreeReads(a: seq<Op>, b: seq<Op>, c: seq<Op>, row: nat)
    ensures Printed(a + b + c) == Printed(a) + Printed(b) + Printed(c)
    ensures Marks(a + b + c, row)
         == Marks(a, row) + Marks(b, row + |Printed(a)|) + Marks(c, row + |Printed(a)| + |Printed(b)|)
  {
    PrintedConcat(a + b, c);
    PrintedConcat(a, b);
    MarksConcat(a + b, c, row);
    MarksConcat(a, b, row);
  }

  lemma {:induction false} RowsOnly(bits: seq<bv8>, width: nat, height: nat, from: nat, to: nat, row: nat)
    requires |bits| == width * height && to <= height
    ensures var ops := CanvasRows(bits, width, height, from, to); Printed(ops) == ops && Marks(ops, row) == []
    decreases if from < to then to - from else 0
  {
    if from < to {
      RowsOnly(bits, width, height, from + 1, to, row + 1);
      var ops := CanvasRows(bits, width, height, from, to);
      assert ops[1..] == CanvasRows(bits, width, height, from + 1, to);
    }
  }

  /** `count` marks at one row. */
  function At(row: nat, ops: seq<Op>): seq<(nat, Op)> {
    seq(|ops|, i requires 0 <= i < |ops| => (row, ops[i]))
  }

  lemma ControlMarks(e: Element, profile: Profile, row: nat)
    ensures Printed(ControlOps(e, profile)) == [] && Marks(ControlOps(e, profile), row) == At(row, ControlOps(e, profile))
  {
    var ops := ControlOps(e, profile);
    if ops != [] { assert ops[1..] == []; }
  }

  function ControlMarksOf(cs: seq<Control>, profile: Profile): seq<(nat, Op)>
    requires forall i | 0 <= i < |cs| :: cs[i].y >= 0
  {
    if cs == [] then [] else At(cs[0].y, ControlOps(cs[0].element, profile)) + ControlMarksOf(cs[1..], profile)
  }

  lemma {:induction false} BodyReads(bits: seq<bv8>, width: nat, height: nat, cs: seq<Control>, profile: Profile, pos: nat)
    requires |bits| == width * height && pos <= height
    requires forall i | 0 <= i < |cs| :: pos <= cs[i].y <= height
    requires forall i, j | 0 <= i < j < |cs| :: cs[i].y <= cs[j].y
    ensures var ops := BodyPaper(bits, width, height, cs, profile, pos);
      && Printed(ops) == CanvasRows(bits, width, height, pos, height)
      && Marks(ops, pos) == ControlMarksOf(cs, profile)
    decreases |cs|
  {
    if cs == [] {
      RowsOnly(bits, width, height, pos, height, pos);
    } else {
      var y := cs[0].y;
      var a, b := CanvasRows(bits, width, height, pos, y), ControlOps(cs[0].element, profile);
      var c := BodyPaper(bits, width, height, cs[1..], profile, y);
      ControlMarks(cs[0].element, profile, y);
      RowsOnly(bits, width, height, pos, y, pos);
      BodyReads(bits, width, height, cs[1..], profile, y);
      ThreeReads(a, b, c, pos);
      CanvasRowsSplit(bits, width, height, pos, y, height);
    }
  }

  /**
    On the paper of a canvas with sorted controls, the printed rows are all the
    canvas's rows, once each and in order; the marks are the reset at the top, each
    control after exactly the rows above it, and at the bottom the feed and cut
    that close a document with no terminal cut on a printer that cuts.
   */
  lemma PaperReads(width: nat, height: nat, bits: seq<bv8>, cs: seq<Control>, profile: Profile)
    requires Drawn(width, height, bits, cs)
    ensures var paper := Paper(bits, RowBytes(width), height, cs, profile);
      && Printed(paper) == CanvasRows(bits, RowBytes(width), height, 0, height)
      && Marks(paper, 0) == [(0, ResetPrinter)] + ControlMarksOf(cs, profile) + At(height, ClosingPaper(cs, profile))
  {
    var body, closing := BodyPaper(bits, RowBytes(width), height, cs, profile, 0), ClosingPaper(cs, profile);
    BodyReads(bits, RowBytes(width), height, cs, profile, 0);
    ClosingMarks(cs, profile, height);
    BetweenReads(body, closing);
  }

  /** Reading what comes after the reset and before the closing. */
  lemma BetweenReads(body: seq<Op>, closing: seq<Op>)
    ensures Printed([ResetPrinter] + body + closing) == Printed(body) + Printed(closing)
    ensures Marks([ResetPrinter] + body + closing, 0)
         == [(0, ResetPrinter)] + Marks(body, 0) + Marks(closing, |Printed(body)|)
  {
    ResetReads(body);
    PrintedConcat([ResetPrinter] + body, closing);
    MarksConcat([ResetPrinter] + body, closing, 0);
  }

  lemma ResetReads(body: seq<Op>)
    ensures Printed([ResetPrinter] + body) == Printed(body)
    ensures Marks([ResetPrinter] + body, 0) == [(0, ResetPrinter)] + Marks(body, 0)
  {
    assert ([ResetPrinter] + body)[1..] == body;
  }

  lemma ClosingMarks(cs: seq<Control>, profile: Profile, row: nat)
    ensures Printed(ClosingPaper(cs, profile)) == []
    ensures Marks(ClosingPaper(cs, profile), row) == At(row, ClosingPaper(cs, profile))
  {
    var ops := ClosingPaper(cs, profile);
    if ops != [] {
      assert ops[1..] == [ops[1]] && ops[1..][1..] == [];
      assert Marks(ops[1..], row) == [(row, ops[1])];
      assert Printed(ops[1..]) == [];
    }
  }

  /** Row `k` of the rows printed is byte row `k` of the canvas. */
  lemma {:induction false} CanvasRowAt(bits: seq<bv8>, width: nat, height: nat, from: nat, k: nat)
    requires |bits| == width * height && from <= k < height
    ensures (k + 1) * width <= |bits|
    ensures CanvasRows(bits, width, height, from, height)[k - from] == PrintRow(RowBytesOf(bits, width, k, k + 1))
    decreases k - from
  {
    WithinRange(width, height, k + 1);
    if from < k { CanvasRowAt(bits, width, height, from + 1, k); }
  }

  lemma MultipleHasZeroWord(count: nat)
    requires count % 0x1_0000 == 0
    ensures LoHi(count) == [0, 0]
  {
    var q := count / 0x1_0000;
    assert count == 0x1_0000 * q;
    assert count % 256 == 0 && count / 256 == 256 * q;
    assert count / 256 % 256 == 0;
  }

  lemma UnknownCommand(data: seq<bv8>, buffer: nat)
    requires data != [] && data[0] == 0
    ensures Interpret(data, buffer) == None
  {
    assert |data| >= 8 ==> data[..4][0] == 0 && RASTER[0] == 0x1D;
  }

  lemma EmptyImage(width: nat, data: seq<bv8>, buffer: nat)
    ensures Interpret(RASTER + LoHi(width) + [0, 0] + data, buffer) == Then([], Interpret(data, buffer))
  {
    var b := RASTER + LoHi(width) + [0, 0] + data;
    assert b[..4] == RASTER && b[6] == 0 && b[7] == 0 && b[8..] == data;
    var w := Word(b[4], b[5]);
    assert Word(b[6], b[7]) == 0 && w * 0 == 0;
  }

  /** A row count of 65536 or a multiple is sent as 0, and the image is read as commands. */
  lemma LostRowCount(data: seq<bv8>, width: nat, count: nat, buffer: nat)
    requires count % 0x1_0000 == 0 && data != [] && data[0] == 0
    ensures Interpret(Band(data, width, count), buffer) == None
  {
    MultipleHasZeroWord(count);
    EmptyImage(width, data, buffer);
    UnknownCommand(data, buffer);
  }

  lemma OneBand(bits: seq<bv8>, width: nat, height: nat)
    requires |bits| == width * height && height > 0
    ensures BandsWithin(bits, width, height, height, 0, height) == Band(bits, width, height)
  {
    BandsUnfold(bits, width, height, height, 0, height, height);
    WithinRange(width, height, height);
    assert RowBytesOf(bits, width, 0, height) == bits;
    assert BandsWithin(bits, width, height, height, height, height) == [];
  }

  /**
    Bands of 65536 rows or a multiple are beyond the command's 16-bit row count:
    a canvas that tall with a blank top left corner, sent unchunked, is not understood at all.
   */
  lemma TallBandIsMisread(width: nat, height: nat, bits: seq<bv8>, profile: Profile)
    requires width > 0 && height > 0 && height % 0x1_0000 == 0
    requires |bits| == RowBytes(width) * height && bits != [] && bits[0] == 0
    requires profile.maxImageHeightDots <= 0 && !profile.supportsCut
    ensures Encoded(width, height, bits, [], profile).Some?
    ensures Interpret(Encoded(width, height, bits, [], profile).value, Buffer(profile)) == None
  {
    var buffer := Buffer(profile);
    OneBand(bits, RowBytes(width), height);
    LostRowCount(bits, RowBytes(width), height, buffer);
    ReadInit(Band(bits, RowBytes(width), height), buffer);
    assert INIT + Band(bits, RowBytes(width), height) + [] == INIT + Band(bits, RowBytes(width), height);
  }
}
