/**
  Where the encoder's bytes stop meaning the paper. GS v 0 has 16 bits for each of
  its sizes; a row or a band beyond them is misread, whatever the picture holds.
  The proof counts bytes: every image a printer reads costs it an eight-byte header.
 */
module EscposLimits {
  import opened Receipts
  import opened Bitmaps
  import opened Painting
  import opened Escpos
  import opened EscposPaper
  import opened Bytes

  /** The most rows one raster command can carry. */
  const MAX_ROWS: nat := 0xFFFF

  // ------------------------------------------------------------------ what paper costs

  /** The bytes the operations take, image headers aside. */
  function Cost(ops: seq<Op>): nat {
    if ops == [] then 0
    else (match ops[0]
          case PrintRow(dots) => |dots|
          case ResetPrinter => 2
          case FeedPaper(_) => 3
          case CutPaper(_) => 3)
         + Cost(ops[1..])
  }

  /** The fewest images that print the operations' rows when the open one has `room` for more. */
  function Images(ops: seq<Op>, room: nat): nat {
    if ops == [] then 0
    else if !ops[0].PrintRow? then Images(ops[1..], 0)
    else if room > 0 then Images(ops[1..], room - 1)
    else 1 + Images(ops[1..], MAX_ROWS - 1)
  }

  lemma {:induction false} CostConcat(a: seq<Op>, b: seq<Op>)
    ensures Cost(a + b) == Cost(a) + Cost(b)
  {
    if a == [] {
      assert a + b == b;
    } else {
      assert (a + b)[1..] == a[1..] + b;
      CostConcat(a[1..], b);
    }
  }

  /** Less room costs at most one image more. */
  lemma {:induction false} RoomHelps(ops: seq<Op>, less: nat, more: nat)
    requires less <= more < MAX_ROWS
    ensures Images(ops, more) <= Images(ops, less) <= 1 + Images(ops, more)
  {
    if ops != [] && ops[0].PrintRow? {
      if less > 0 {
        RoomHelps(ops[1..], less - 1, more - 1);
      } else if more > 0 {
        RoomHelps(ops[1..], more - 1, MAX_ROWS - 1);
      }
    }
  }

  predicate AllRows(ops: seq<Op>) {
    forall i | 0 <= i < |ops| :: ops[i].PrintRow?
  }

  /** No image can go on into these operations. */
  predicate StartsAnew(ops: seq<Op>) {
    ops == [] || !ops[0].PrintRow?
  }

  lemma {:induction false} RowsInRoom(rows: seq<Op>, rest: seq<Op>, room: nat)
    requires AllRows(rows) && |rows| <= room
    ensures Images(rows + rest, room) == Images(rest, room - |rows|)
    decreases |rows|
  {
    if rows == [] {
      assert rows + rest == rest;
    } else {
      assert (rows + rest)[1..] == rows[1..] + rest;
      RowsInRoom(rows[1..], rest, room - 1);
    }
  }

  /** One image's worth of rows costs at most one image. */
  lemma OneImage(rows: seq<Op>, rest: seq<Op>)
    requires AllRows(rows) && |rows| <= MAX_ROWS
    ensures Images(rows + rest, 0) <= 1 + Images(rest, 0)
  {
    if rows == [] {
      assert rows + rest == rest;
    } else {
      assert (rows + rest)[1..] == rows[1..] + rest;
      RowsInRoom(rows[1..], rest, MAX_ROWS - 1);
      RoomHelps(rest, 0, MAX_ROWS - |rows|);
    }
  }

  /** The images `n` rows need. */
  function ImagesFor(n: nat): nat {
    if n == 0 then 0 else if n <= MAX_ROWS then 1 else 1 + ImagesFor(n - MAX_ROWS)
  }

  lemma {:induction false} MoreRowsMoreImages(m: nat, n: nat)
    requires m <= n
    ensures ImagesFor(m) <= ImagesFor(n)
    ensures n > m + MAX_ROWS ==> ImagesFor(m) < ImagesFor(n)
    decreases n
  {
    if m > MAX_ROWS {
      MoreRowsMoreImages(m - MAX_ROWS, n - MAX_ROWS);
    } else if n > m + MAX_ROWS && n > MAX_ROWS {
      MoreRowsMoreImages(m, n - MAX_ROWS);
    }
  }

  lemma {:induction false} RowsNeed(rows: seq<Op>, rest: seq<Op>)
    requires AllRows(rows) && StartsAnew(rest)
    ensures Images(rows + rest, 0) == ImagesFor(|rows|) + Images(rest, 0)
    decreases |rows|
  {
    if rows == [] {
      assert rows + rest == rest;
    } else if |rows| <= MAX_ROWS {
      assert (rows + rest)[1..] == rows[1..] + rest;
      RowsInRoom(rows[1..], rest, MAX_ROWS - 1);
      AnyRoom(rest, MAX_ROWS - |rows|);
    } else {
      var first, more := rows[..MAX_ROWS], rows[MAX_ROWS..];
      assert rows + rest == first + (more + rest);
      assert (first + (more + rest))[1..] == first[1..] + (more + rest);
      forall i | 0 <= i < |first[1..]|
        ensures first[1..][i].PrintRow?
      {
        assert first[1..][i] == rows[i + 1];
      }
      RowsInRoom(first[1..], more + rest, MAX_ROWS - 1);
      RowsNeed(more, rest);
    }
  }

  lemma AnyRoom(ops: seq<Op>, room: nat)
    requires StartsAnew(ops)
    ensures Images(ops, room) == Images(ops, 0)
  {}

  // ------------------------------------------------------------------ what reading takes

  lemma {:induction false} RowsCost(data: seq<bv8>, width: nat, count: nat)
    requires |data| == RowStart(width, count)
    ensures Cost(Rows(data, width, count)) == |data|
    ensures AllRows(Rows(data, width, count)) && |Rows(data, width, count)| == count
    ensures forall i | 0 <= i < count :: |Rows(data, width, count)[i].dots| == width
    decreases count
  {
    if count > 0 {
      RowsCost(data[width..], width, count - 1);
      assert Rows(data, width, count)[1..] == Rows(data[width..], width, count - 1);
    }
  }

  /** The whole of a paper was read from at least its cost and a header for each image it needs. */
  ghost predicate Afforded(bytes: seq<bv8>, ops: seq<Op>) {
    |bytes| >= Cost(ops) + 8 * Images(ops, 0)
  }

  lemma CommandAffords(size: nat, op: Op, rest: seq<bv8>, ops: seq<Op>, bytes: seq<bv8>)
    requires !op.PrintRow? && Cost([op]) <= size && |bytes| == size + |rest| && Afforded(rest, ops)
    ensures Afforded(bytes, [op] + ops)
  {
    CostConcat([op], ops);
    assert ([op] + ops)[1..] == ops;
  }

  lemma ImageAffords(data: seq<bv8>, width: nat, count: nat, rest: seq<bv8>, ops: seq<Op>, bytes: seq<bv8>)
    requires |data| == RowStart(width, count) && count <= MAX_ROWS
    requires |bytes| == 8 + |data| + |rest| && Afforded(rest, ops)
    ensures Afforded(bytes, Rows(data, width, count) + ops)
  {
    RowsCost(data, width, count);
    CostConcat(Rows(data, width, count), ops);
    OneImage(Rows(data, width, count), ops);
  }

  /** No row a printer prints is wider than the command can say. */
  predicate Narrow(ops: seq<Op>) {
    forall i | 0 <= i < |ops| && ops[i].PrintRow? :: |ops[i].dots| < 0x1_0000
  }

  lemma WordInRange(lo: bv8, hi: bv8)
    ensures Word(lo, hi) < 0x1_0000
  {}

  lemma ReadImage(bytes: seq<bv8>, buffer: nat)
    returns (width: nat, count: nat, data: seq<bv8>, rest: seq<bv8>)
    requires |bytes| >= 8 && bytes[..4] == RASTER && Interpret(bytes, buffer).Some?
    ensures width < 0x1_0000 && count < 0x1_0000 && |data| == RowStart(width, count)
    ensures width == Word(bytes[4], bytes[5]) && count == Word(bytes[6], bytes[7])
    ensures |bytes| == 8 + |data| + |rest| && data == bytes[8..8 + |data|] && rest == bytes[8 + |data|..]
    ensures Interpret(bytes, buffer) == Then(Rows(data, width, count), Interpret(rest, buffer))
  {
    width, count := Word(bytes[4], bytes[5]), Word(bytes[6], bytes[7]);
    WordInRange(bytes[4], bytes[5]);
    WordInRange(bytes[6], bytes[7]);
    var size := RowStart(width, count);
    assert bytes[0] == 0x1D && bytes[1] == 0x76;
    data, rest := bytes[8..8 + size], bytes[8 + size..];
  }

  /** The other commands, one at a time. */
  lemma ReadCommand(bytes: seq<bv8>, buffer: nat) returns (op: Op, size: nat)
    requires bytes != [] && Interpret(bytes, buffer).Some? && !(|bytes| >= 8 && bytes[..4] == RASTER)
    ensures !op.PrintRow? && 0 < size <= |bytes| && Cost([op]) == size
    ensures Interpret(bytes, buffer) == Then([op], Interpret(bytes[size..], buffer))
  {
    if |bytes| >= 2 && bytes[0] == 0x1B && bytes[1] == 0x40 {
      op, size := ResetPrinter, 2;
    } else if |bytes| >= 3 && bytes[0] == 0x1B && bytes[1] == 0x64 {
      op, size := FeedPaper(bytes[2] as nat), 3;
    } else {
      op, size := CutPaper(bytes[2] == 0), 3;
    }
    assert [op][1..] == [];
  }

  /** Whatever bytes a printer understands, they pay for the paper and its rows are narrow. */
  lemma {:induction false} ReadingPays(bytes: seq<bv8>, buffer: nat)
    requires Interpret(bytes, buffer).Some?
    ensures Afforded(bytes, Interpret(bytes, buffer).value) && Narrow(Interpret(bytes, buffer).value)
    decreases |bytes|
  {
    if |bytes| >= 8 && bytes[..4] == RASTER {
      var width, count, data, rest := ReadImage(bytes, buffer);
      ReadingPays(rest, buffer);
      ImageAffords(data, width, count, rest, Interpret(rest, buffer).value, bytes);
      RowsCost(data, width, count);
    } else if bytes != [] {
      var op, size := ReadCommand(bytes, buffer);
      ReadingPays(bytes[size..], buffer);
      CommandAffords(size, op, bytes[size..], Interpret(bytes[size..], buffer).value, bytes);
    }
  }

  // ------------------------------------------------------------------ what the encoder spends

  lemma {:induction false} CanvasRowsCost(bits: seq<bv8>, width: nat, height: nat, from: nat, to: nat)
    requires |bits| == width * height && from <= to <= height
    ensures Cost(CanvasRows(bits, width, height, from, to)) == RowStart(width, to - from)
    ensures AllRows(CanvasRows(bits, width, height, from, to))
    decreases if from < to then to - from else 0
  {
    if from < to {
      WithinRange(width, height, from + 1);
      CanvasRowsCost(bits, width, height, from + 1, to);
      assert CanvasRows(bits, width, height, from, to)[1..] == CanvasRows(bits, width, height, from + 1, to);
    }
  }

  lemma {:induction false} RowStartAdds(width: nat, a: nat, b: nat)
    ensures RowStart(width, a + b) == RowStart(width, a) + RowStart(width, b)
    decreases b
  {
    if b > 0 { RowStartAdds(width, a, b - 1); }
  }

  lemma BandLength(data: seq<bv8>, width: nat, count: nat)
    ensures |Band(data, width, count)| == 8 + |data|
  {}

  lemma FirstBandLength(bits: seq<bv8>, width: nat, height: nat, band: nat, from: nat, to: nat, end: nat)
    requires band > 0 && |bits| == width * height && from < to <= height
    requires end == if from + band > to then to else from + band
    ensures |BandsWithin(bits, width, height, band, from, to)|
         == 8 + RowStart(width, end - from) + |BandsWithin(bits, width, height, band, from + band, to)|
  {
    BandsUnfold(bits, width, height, band, from, to, end);
    BandLength(RowBytesOf(bits, width, from, end), width, end - from);
  }

  /** A band of `n - m` rows before `m` more. */
  lemma BandSpends(width: nat, n: nat, m: nat)
    requires m < n && (m == 0 || n > m + MAX_ROWS)
    ensures 8 + RowStart(width, n - m) + RowStart(width, m) + 8 * ImagesFor(m) <= RowStart(width, n) + 8 * ImagesFor(n)
  {
    RowStartAdds(width, n - m, m);
    if m > 0 { MoreRowsMoreImages(m, n); }
  }

  function RowsBetween(from: nat, to: nat): nat {
    if from < to then to - from else 0
  }

  /** Bands of more rows than an image can carry are no more than the images needed. */
  lemma {:induction false} BandsSpend(bits: seq<bv8>, width: nat, height: nat, band: nat, from: nat, to: nat)
    requires band > MAX_ROWS && |bits| == width * height && to <= height
    ensures |BandsWithin(bits, width, height, band, from, to)|
         <= RowStart(width, RowsBetween(from, to)) + 8 * ImagesFor(RowsBetween(from, to))
    decreases if from < to then to - from else 0
  {
    if from < to {
      var end := if from + band > to then to else from + band;
      FirstBandLength(bits, width, height, band, from, to, end);
      BandsSpend(bits, width, height, band, from + band, to);
      BandSpends(width, to - from, RowsBetween(from + band, to));
    } else {
      WithinRange(width, height, to);
    }
  }

  /** Every control puts a command between the rows: no cut is dropped for want of a cutter. */
  predicate AllAct(cs: seq<Control>, profile: Profile) {
    forall i | 0 <= i < |cs| :: cs[i].element.Feed? || (cs[i].element.Cut? && profile.supportsCut)
  }

  lemma ControlSpends(e: Element, profile: Profile)
    requires e.Feed? || (e.Cut? && profile.supportsCut)
    requires ControlCommand(e, profile).Some? && (e.Feed? ==> 0 <= e.lines < 256)
    ensures |ControlCommand(e, profile).value| == Cost(ControlOps(e, profile)) && |ControlOps(e, profile)| == 1
    ensures !ControlOps(e, profile)[0].PrintRow?
  {
    assert ControlOps(e, profile)[1..] == [];
  }

  lemma ClosingSpends(cs: seq<Control>, profile: Profile)
    requires Closing(cs, profile).Some?
    ensures |Closing(cs, profile).value| == Cost(ClosingPaper(cs, profile)) && StartsAnew(ClosingPaper(cs, profile))
    ensures Images(ClosingPaper(cs, profile), 0) == 0
  {
    var ops := ClosingPaper(cs, profile);
    if ops != [] {
      assert ops[1..] == [ops[1]] && ops[1..][1..] == [];
      assert Cost(ops[1..]) == 3 && Images(ops[1..], 0) == 0;
    }
  }

  /** Bytes that spend no more than `ops` must cost. */
  ghost predicate Thrifty(bytes: seq<bv8>, ops: seq<Op>) {
    |bytes| <= Cost(ops) + 8 * Images(ops, 0)
  }

  /** A gap's bands, then what follows it. */
  lemma GapThrifty(bits: seq<bv8>, width: nat, height: nat, band: nat, from: nat, to: nat, after: seq<bv8>, ops: seq<Op>)
    requires band > MAX_ROWS && |bits| == width * height && from <= to <= height
    requires StartsAnew(ops) && Thrifty(after, ops)
    ensures Thrifty(BandsWithin(bits, width, height, band, from, to) + after, CanvasRows(bits, width, height, from, to) + ops)
  {
    BandsSpend(bits, width, height, band, from, to);
    RowsPriced(bits, width, height, from, to, ops);
  }

  lemma ActThrifty(e: Element, profile: Profile, after: seq<bv8>, ops: seq<Op>)
    requires e.Feed? || (e.Cut? && profile.supportsCut)
    requires ControlCommand(e, profile).Some? && (e.Feed? ==> 0 <= e.lines < 256) && Thrifty(after, ops)
    ensures Thrifty(ControlCommand(e, profile).value + after, ControlOps(e, profile) + ops)
    ensures StartsAnew(ControlOps(e, profile) + ops)
  {
    ControlSpends(e, profile);
    CostConcat(ControlOps(e, profile), ops);
    assert (ControlOps(e, profile) + ops)[1..] == ops;
  }

  ghost predicate Streamed(bits: seq<bv8>, width: nat, height: nat, band: nat, cs: seq<Control>, profile: Profile, pos: nat) {
    && band > 0 && |bits| == width * height && pos <= height
    && (forall i | 0 <= i < |cs| :: pos <= cs[i].y <= height)
    && (forall i, j | 0 <= i < j < |cs| :: cs[i].y <= cs[j].y)
    && (forall i | 0 <= i < |cs| && cs[i].element.Feed? :: 0 <= cs[i].element.lines < 256)
    && Stream(bits, width, height, band, cs, profile, pos).Some?
  }

  lemma StreamedTail(bits: seq<bv8>, width: nat, height: nat, band: nat, cs: seq<Control>, profile: Profile, pos: nat)
    requires Streamed(bits, width, height, band, cs, profile, pos) && cs != []
    ensures Streamed(bits, width, height, band, cs[1..], profile, cs[0].y)
    ensures ControlCommand(cs[0].element, profile).Some?
  {}

  lemma {:induction false} StreamThrifty(bits: seq<bv8>, width: nat, height: nat, band: nat, cs: seq<Control>,
                                         profile: Profile, pos: nat, after: seq<bv8>, ops: seq<Op>)
    requires Streamed(bits, width, height, band, cs, profile, pos) && AllAct(cs, profile) && band > MAX_ROWS
    requires StartsAnew(ops) && Thrifty(after, ops)
    ensures Thrifty(Stream(bits, width, height, band, cs, profile, pos).value + after,
                    BodyPaper(bits, width, height, cs, profile, pos) + ops)
    decreases |cs|
  {
    if cs == [] {
      GapThrifty(bits, width, height, band, pos, height, after, ops);
    } else {
      StreamedTail(bits, width, height, band, cs, profile, pos);
      var y, e := cs[0].y, cs[0].element;
      var more, paper := Stream(bits, width, height, band, cs[1..], profile, y).value, BodyPaper(bits, width, height, cs[1..], profile, y);
      StreamThrifty(bits, width, height, band, cs[1..], profile, y, after, ops);
      ActThrifty(e, profile, more + after, paper + ops);
      GapThrifty(bits, width, height, band, pos, y, ControlCommand(e, profile).value + (more + after),
                 ControlOps(e, profile) + (paper + ops));
      StreamParts(bits, width, height, band, cs, profile, pos, after, ops);
    }
  }

  lemma StreamParts(bits: seq<bv8>, width: nat, height: nat, band: nat, cs: seq<Control>,
                    profile: Profile, pos: nat, after: seq<bv8>, ops: seq<Op>)
    requires Streamed(bits, width, height, band, cs, profile, pos) && cs != []
    ensures Stream(bits, width, height, band, cs[1..], profile, cs[0].y).Some?
    ensures ControlCommand(cs[0].element, profile).Some?
    ensures Stream(bits, width, height, band, cs, profile, pos).value + after
         == BandsWithin(bits, width, height, band, pos, cs[0].y)
            + (ControlCommand(cs[0].element, profile).value
               + (Stream(bits, width, height, band, cs[1..], profile, cs[0].y).value + after))
    ensures BodyPaper(bits, width, height, cs, profile, pos) + ops
         == CanvasRows(bits, width, height, pos, cs[0].y)
            + (ControlOps(cs[0].element, profile) + (BodyPaper(bits, width, height, cs[1..], profile, cs[0].y) + ops))
  {
    StreamSplits(bits, width, height, band, cs, profile, pos, after);
    Regroup(CanvasRows(bits, width, height, pos, cs[0].y), ControlOps(cs[0].element, profile),
            BodyPaper(bits, width, height, cs[1..], profile, cs[0].y), ops);
  }

  // ------------------------------------------------------------------ a band too tall

  lemma LowDigits(n: nat)
    ensures Low(n) as nat == n % 256
  {
    ByteValue(n % 256);
  }

  /** The pair keeps what is left after multiples of 65536. */
  lemma WordLoses(n: nat)
    ensures Word(LoHi(n)[0], LoHi(n)[1]) == n % 0x1_0000
  {
    LowDigits(n);
    LowDigits(n / 256);
    Digits(n);
  }

  lemma Digits(n: nat)
    ensures n % 256 + 256 * (n / 256 % 256) == n % 0x1_0000
  {
    var low, middle, high := n % 256, n / 256 % 256, n / 256 / 256;
    assert n == 0x1_0000 * high + (256 * middle + low);
  }

  lemma HeaderOf(data: seq<bv8>, width: nat, count: nat, rest: seq<bv8>)
    requires width < 0x1_0000
    ensures var bytes := Band(data, width, count) + rest;
      && |bytes| == 8 + |data| + |rest| && bytes[..4] == RASTER && bytes[8..] == data + rest
      && Word(bytes[4], bytes[5]) == width && Word(bytes[6], bytes[7]) == count % 0x1_0000
  {
    WordLoses(count);
    WordOfLoHi(width);
    var bytes := Band(data, width, count) + rest;
    assert bytes[4] == LoHi(width)[0] && bytes[5] == LoHi(width)[1];
    assert bytes[6] == LoHi(count)[0] && bytes[7] == LoHi(count)[1];
  }

  lemma CutAt(bytes: seq<bv8>, data: seq<bv8>, rest: seq<bv8>, size: nat)
    requires |bytes| >= 8 && bytes[8..] == data + rest && size <= |data|
    ensures bytes[8..8 + size] == data[..size] && bytes[8 + size..] == data[size..] + rest
  {
    assert bytes[8..8 + size] == bytes[8..][..size];
    assert bytes[8 + size..] == bytes[8..][size..];
  }

  lemma Remainder(count: nat)
    requires count >= 0x1_0000
    ensures count % 0x1_0000 + 0x1_0000 <= count
  {}

  /**
    The image read from a band's header holds only the rows its row count still
    says; the bytes after those pay for the rest of what was read.
   */
  lemma BandMisread(data: seq<bv8>, width: nat, count: nat, rest: seq<bv8>, all: seq<Op>, buffer: nat)
    requires width < 0x1_0000 && count >= 0x1_0000 && |data| == RowStart(width, count)
    ensures Interpret(Band(data, width, count) + rest, buffer) == Some(all) ==>
      PaysLater(data, width, count, rest, all, count % 0x1_0000)
  {
    var bytes := Band(data, width, count) + rest;
    if Interpret(bytes, buffer) == Some(all) {
      HeaderOf(data, width, count, rest);
      var w, read, image, tail := ReadImage(bytes, buffer);
      Remainder(count);
      RowStartAdds(width, read, count - read);
      CutAt(bytes, data, rest, RowStart(width, read));
      RowsCost(image, w, read);
      ReadingPays(tail, buffer);
      assert (Rows(image, w, read) + Interpret(tail, buffer).value)[read..] == Interpret(tail, buffer).value;
    }
  }

  ghost predicate PaysLater(data: seq<bv8>, width: nat, count: nat, rest: seq<bv8>, all: seq<Op>, read: nat) {
    && read + 0x1_0000 <= count && RowStart(width, read) <= |data| && read <= |all|
    && |data| - RowStart(width, read) + |rest| >= Cost(all[read..]) + 8 * Images(all[read..], 0)
  }

  /** After a misread band the rest of the bytes cannot pay for the rest of the paper. */
  lemma TooFewBytes(bits: seq<bv8>, width: nat, height: nat, band: nat, from: nat, to: nat, end: nat, read: nat,
                    after: seq<bv8>, ops: seq<Op>)
    requires band > MAX_ROWS && |bits| == width * height && from < end <= to <= height
    requires end == if from + band > to then to else from + band
    requires from + read + 0x1_0000 <= end && StartsAnew(ops) && Thrifty(after, ops)
    ensures RowStart(width, end - from) - RowStart(width, read)
            + |BandsWithin(bits, width, height, band, from + band, to) + after|
         < Cost(CanvasRows(bits, width, height, from + read, to) + ops)
           + 8 * Images(CanvasRows(bits, width, height, from + read, to) + ops, 0)
  {
    RowsPriced(bits, width, height, from + read, to, ops);
    RestSpends(bits, width, height, band, from, to, end, after, ops);
    LostRows(width, to - from, to - end, read);
  }

  lemma RestSpends(bits: seq<bv8>, width: nat, height: nat, band: nat, from: nat, to: nat, end: nat,
                   after: seq<bv8>, ops: seq<Op>)
    requires band > MAX_ROWS && |bits| == width * height && from < end <= to <= height
    requires end == if from + band > to then to else from + band
    requires Thrifty(after, ops)
    ensures |BandsWithin(bits, width, height, band, from + band, to) + after|
         <= RowStart(width, to - end) + 8 * ImagesFor(to - end) + Cost(ops) + 8 * Images(ops, 0)
  {
    BandsSpend(bits, width, height, band, from + band, to);
    assert RowsBetween(from + band, to) == to - end;
  }

  lemma RowsPriced(bits: seq<bv8>, width: nat, height: nat, from: nat, to: nat, ops: seq<Op>)
    requires |bits| == width * height && from <= to <= height && StartsAnew(ops)
    ensures var all := CanvasRows(bits, width, height, from, to) + ops;
      && Cost(all) == RowStart(width, to - from) + Cost(ops)
      && Images(all, 0) == ImagesFor(to - from) + Images(ops, 0)
  {
    var rows := CanvasRows(bits, width, height, from, to);
    CanvasRowsCost(bits, width, height, from, to);
    CostConcat(rows, ops);
    RowsNeed(rows, ops);
  }

  lemma LostRows(width: nat, n: nat, m: nat, read: nat)
    requires m + read + 0x1_0000 <= n
    ensures RowStart(width, n - m) - RowStart(width, read) + RowStart(width, m) + 8 * ImagesFor(m)
         < RowStart(width, n - read) + 8 * ImagesFor(n - read)
  {
    RowStartAdds(width, n - m, m);
    RowStartAdds(width, read, n - read);
    MoreRowsMoreImages(m, n - read);
  }

  lemma RowsFrom(bits: seq<bv8>, width: nat, height: nat, from: nat, mid: nat, to: nat)
    requires |bits| == width * height && from <= mid <= to <= height
    ensures CanvasRows(bits, width, height, from, to)[mid - from..] == CanvasRows(bits, width, height, mid, to)
  {
    CanvasRowsSplit(bits, width, height, from, mid, to);
  }

  lemma RestOfRows(bits: seq<bv8>, width: nat, height: nat, from: nat, mid: nat, to: nat, ops: seq<Op>)
    requires |bits| == width * height && from <= mid <= to <= height
    ensures (CanvasRows(bits, width, height, from, to) + ops)[mid - from..] == CanvasRows(bits, width, height, mid, to) + ops
  {
    RowsFrom(bits, width, height, from, mid, to);
    var rows := CanvasRows(bits, width, height, from, to);
    assert (rows + ops)[mid - from..] == rows[mid - from..] + ops;
  }

  /** Paying for the rest of the gap's paper and what follows takes more bytes than there are. */
  lemma CannotPay(bits: seq<bv8>, width: nat, height: nat, band: nat, from: nat, to: nat, end: nat, read: nat,
                  after: seq<bv8>, ops: seq<Op>)
    requires band > MAX_ROWS && |bits| == width * height && from < end <= to <= height
    requires end == if from + band > to then to else from + band
    requires StartsAnew(ops) && Thrifty(after, ops)
    ensures end * width <= |bits|
    ensures !PaysLater(RowBytesOf(bits, width, from, end), width, end - from,
                       BandsWithin(bits, width, height, band, from + band, to) + after,
                       CanvasRows(bits, width, height, from, to) + ops, read)
  {
    WithinRange(width, height, end);
    if from + read + 0x1_0000 <= end {
      TooFewBytes(bits, width, height, band, from, to, end, read, after, ops);
      RestOfRows(bits, width, height, from, from + read, to, ops);
    }
  }

  lemma FirstOfGap(bits: seq<bv8>, width: nat, height: nat, band: nat, from: nat, to: nat, end: nat, after: seq<bv8>)
    requires band > 0 && |bits| == width * height && from < to <= height
    requires end == if from + band > to then to else from + band
    ensures end * width <= |bits|
    ensures BandsWithin(bits, width, height, band, from, to) + after
         == Band(RowBytesOf(bits, width, from, end), width, end - from)
            + (BandsWithin(bits, width, height, band, from + band, to) + after)
  {
    BandsUnfold(bits, width, height, band, from, to, end);
  }

  lemma TallBandMisread(bits: seq<bv8>, width: nat, height: nat, band: nat, from: nat, to: nat, end: nat,
                        after: seq<bv8>, ops: seq<Op>, buffer: nat)
    requires width < 0x1_0000 && |bits| == width * height && from < to <= height
    requires end == if from + band > to then to else from + band
    requires end - from >= 0x1_0000 && StartsAnew(ops) && Thrifty(after, ops)
    ensures end * width <= |bits|
    ensures Interpret(Band(RowBytesOf(bits, width, from, end), width, end - from)
                      + (BandsWithin(bits, width, height, band, from + band, to) + after), buffer)
         != Some(CanvasRows(bits, width, height, from, to) + ops)
  {
    WithinRange(width, height, end);
    BandMisread(RowBytesOf(bits, width, from, end), width, end - from,
                BandsWithin(bits, width, height, band, from + band, to) + after,
                CanvasRows(bits, width, height, from, to) + ops, buffer);
    CannotPay(bits, width, height, band, from, to, end, (end - from) % 0x1_0000, after, ops);
  }

  /** Whatever the picture holds, a gap with a band too tall is not read as its paper. */
  lemma TallGapMisread(bits: seq<bv8>, width: nat, height: nat, band: nat, from: nat, to: nat,
                       after: seq<bv8>, ops: seq<Op>, buffer: nat)
    requires width < 0x1_0000 && |bits| == width * height && from < to <= height
    requires TallestBand(band, from, to) >= 0x1_0000 && StartsAnew(ops) && Thrifty(after, ops)
    ensures Interpret(BandsWithin(bits, width, height, band, from, to) + after, buffer)
         != Some(CanvasRows(bits, width, height, from, to) + ops)
  {
    var end := if from + band > to then to else from + band;
    FirstOfGap(bits, width, height, band, from, to, end, after);
    TallBandMisread(bits, width, height, band, from, to, end, after, ops, buffer);
  }

  // ------------------------------------------------------------------ the exact condition

  lemma CancelPrefix(a: seq<Op>, rest: Option<seq<Op>>, b: seq<Op>)
    ensures Then(a, rest) == Some(a + b) <==> rest == Some(b)
  {
    if Then(a, rest) == Some(a + b) {
      assert (a + rest.value)[|a|..] == rest.value;
      assert (a + b)[|a|..] == b;
    }
  }

  /** Misreading what follows a gap that fits is misreading the whole. */
  lemma LaterMisread(bits: seq<bv8>, width: nat, height: nat, band: nat, from: nat, to: nat, e: Element, profile: Profile,
                     after: seq<bv8>, ops: seq<Op>, buffer: nat)
    requires 0 < band && BandsFit(band, from, to, buffer) && width < 0x1_0000 && |bits| == width * height && to <= height
    requires ControlCommand(e, profile).Some? && (e.Feed? ==> 0 <= e.lines < 256)
    requires Interpret(after, buffer) != Some(ops)
    ensures Interpret(BandsWithin(bits, width, height, band, from, to) + (ControlCommand(e, profile).value + after), buffer)
         != Some(CanvasRows(bits, width, height, from, to) + (ControlOps(e, profile) + ops))
  {
    InterpreterIsPrinter(buffer);
    RowsThenControl(bits, width, height, band, from, to, e, profile, after, bytes => Interpret(bytes, buffer), buffer);
    StillMisread(CanvasRows(bits, width, height, from, to), ControlOps(e, profile), Interpret(after, buffer), ops);
  }

  lemma StillMisread(a: seq<Op>, b: seq<Op>, rest: Option<seq<Op>>, ops: seq<Op>)
    requires rest != Some(ops)
    ensures Then(a + b, rest) != Some(a + (b + ops))
  {
    CancelPrefix(a + b, rest, ops);
    assert a + (b + ops) == a + b + ops;
  }

  /** A gap that fits is read; so the stream is misread where the first tall gap begins. */
  lemma {:induction false} TallStreamMisread(bits: seq<bv8>, width: nat, height: nat, band: nat, cs: seq<Control>,
                                             profile: Profile, pos: nat, after: seq<bv8>, ops: seq<Op>, buffer: nat)
    requires Streamed(bits, width, height, band, cs, profile, pos) && AllAct(cs, profile) && width < 0x1_0000
    requires (band <= buffer || buffer == MAX_ROWS) && !GapsFit(band, height, cs, pos, buffer)
    requires StartsAnew(ops) && Thrifty(after, ops)
    ensures Interpret(Stream(bits, width, height, band, cs, profile, pos).value + after, buffer)
         != Some(BodyPaper(bits, width, height, cs, profile, pos) + ops)
    decreases |cs|
  {
    if cs == [] {
      TallGapMisread(bits, width, height, band, pos, height, after, ops, buffer);
    } else {
      StreamedTail(bits, width, height, band, cs, profile, pos);
      StreamParts(bits, width, height, band, cs, profile, pos, after, ops);
      var y, e := cs[0].y, cs[0].element;
      var bytes := Stream(bits, width, height, band, cs[1..], profile, y).value + after;
      var paper := BodyPaper(bits, width, height, cs[1..], profile, y) + ops;
      if BandsFit(band, pos, y, buffer) {
        TallStreamMisread(bits, width, height, band, cs[1..], profile, y, after, ops, buffer);
        LaterMisread(bits, width, height, band, pos, y, e, profile, bytes, paper, buffer);
      } else {
        StreamThrifty(bits, width, height, band, cs[1..], profile, y, after, ops);
        ActThrifty(e, profile, bytes, paper);
        TallGapMisread(bits, width, height, band, pos, y, ControlCommand(e, profile).value + bytes,
                       ControlOps(e, profile) + paper, buffer);
      }
    }
  }

  lemma {:induction false} PrintedNarrow(ops: seq<Op>)
    requires Narrow(ops)
    ensures Narrow(Printed(ops))
  {
    if ops != [] {
      forall i | 0 <= i < |ops[1..]| && ops[1..][i].PrintRow?
        ensures |ops[1..][i].dots| < 0x1_0000
      {
        assert ops[1..][i] == ops[i + 1];
      }
      PrintedNarrow(ops[1..]);
    }
  }

  /** A canvas's first row is as wide as the canvas. */
  lemma FirstRowWide(width: nat, height: nat, bits: seq<bv8>, cs: seq<Control>, profile: Profile)
    requires Drawn(width, height, bits, cs) && RowBytes(width) >= 0x1_0000
    ensures !Narrow(Printed(Paper(bits, RowBytes(width), height, cs, profile)))
  {
    var rows := Printed(Paper(bits, RowBytes(width), height, cs, profile));
    PaperReads(width, height, bits, cs, profile);
    CanvasRowAt(bits, RowBytes(width), height, 0, 0);
    assert rows[0].PrintRow?;
    OneRow(RowBytes(width));
    assert |rows[0].dots| == RowBytes(width);
  }

  lemma OneRow(width: nat)
    ensures RowStart(width, 1) == width
  {
    assert RowStart(width, 0) == 0;
  }

  /** A canvas too wide for the command has rows no command prints. */
  lemma WideMisread(width: nat, height: nat, bits: seq<bv8>, cs: seq<Control>, profile: Profile, bytes: seq<bv8>, buffer: nat)
    requires Drawn(width, height, bits, cs) && RowBytes(width) >= 0x1_0000
    ensures Interpret(bytes, buffer) != Some(Paper(bits, RowBytes(width), height, cs, profile))
  {
    FirstRowWide(width, height, bits, cs, profile);
    if Interpret(bytes, buffer).Some? {
      ReadingPays(bytes, buffer);
      PrintedNarrow(Interpret(bytes, buffer).value);
    }
  }

  lemma TallMisread(width: nat, height: nat, bits: seq<bv8>, cs: seq<Control>, profile: Profile)
    requires Drawn(width, height, bits, cs) && AllAct(cs, profile) && RowBytes(width) < 0x1_0000
    requires Encoded(width, height, bits, cs, profile).Some? && !Expressible(width, height, cs, profile)
    ensures Interpret(Encoded(width, height, bits, cs, profile).value, Buffer(profile))
         != Some(Paper(bits, RowBytes(width), height, cs, profile))
  {
    var w, band, buffer := RowBytes(width), BandHeight(height, profile.maxImageHeightDots), Buffer(profile);
    var body, closing := Stream(bits, w, height, band, cs, profile, 0).value, Closing(cs, profile).value;
    var paper, end := BodyPaper(bits, w, height, cs, profile, 0), ClosingPaper(cs, profile);
    ClosingSpends(cs, profile);
    TallStreamMisread(bits, w, height, band, cs, profile, 0, closing, end, buffer);
    assert INIT + body + closing == INIT + (body + closing);
    ReadInit(body + closing, buffer);
    assert [ResetPrinter] + paper + end == [ResetPrinter] + (paper + end);
    CancelPrefix([ResetPrinter], Interpret(body + closing, buffer), paper + end);
  }

  /**
    Exactly when the bytes mean the paper: a printer that buffers what the profile
    allows reads back the canvas just when a row's bytes and every band's rows fit
    in 16 bits. Bands are counted gap by gap, so a tall canvas with a control in
    every 65535 rows is fine even unchunked.
   */
  lemma MeansPaperIff(width: nat, height: nat, bits: seq<bv8>, cs: seq<Control>, profile: Profile)
    requires Drawn(width, height, bits, cs) && AllAct(cs, profile) && Encoded(width, height, bits, cs, profile).Some?
    ensures Interpret(Encoded(width, height, bits, cs, profile).value, Buffer(profile))
              == Some(Paper(bits, RowBytes(width), height, cs, profile))
       <==> Expressible(width, height, cs, profile)
  {
    if Expressible(width, height, cs, profile) {
      EncodedMeansPaper(width, height, bits, cs, profile);
    } else if RowBytes(width) >= 0x1_0000 {
      WideMisread(width, height, bits, cs, profile, Encoded(width, height, bits, cs, profile).value, Buffer(profile));
    } else {
      TallMisread(width, height, bits, cs, profile);
    }
  }

  // ------------------------------------------------------------------ on the catalogued printer

  /** A printer that cuts and takes images of any height, as the catalogued one does. */
  const CUTTING_UNLIMITED := Profile(true, "partial", 0)

  /** 70000 rows at a time are too many for it, whatever the 576 dots of each row show. */
  lemma SeventyThousandRowsMisread(width: nat, height: nat, bits: seq<bv8>)
    requires width == 576 && height == 70000 && |bits| == RowBytes(width) * height
    ensures Encoded(width, height, bits, [], CUTTING_UNLIMITED).Some?
    ensures Interpret(Encoded(width, height, bits, [], CUTTING_UNLIMITED).value, Buffer(CUTTING_UNLIMITED))
         != Some(Paper(bits, RowBytes(width), height, [], CUTTING_UNLIMITED))
  {
    EncodeFailsIff(width, height, bits, [], CUTTING_UNLIMITED);
    MeansPaperIff(width, height, bits, [], CUTTING_UNLIMITED);
  }

  lemma OneFeedFits(width: nat, height: nat, cs: seq<Control>)
    requires width == 576 && height == 70000 && cs == [Control(30000, Feed(1), false)]
    ensures Expressible(width, height, cs, CUTTING_UNLIMITED) && AllAct(cs, CUTTING_UNLIMITED)
  {
    assert cs[1..] == [];
    assert GapsFit(height, height, cs[1..], cs[0].y, MAX_ROWS);
    assert BandsFit(height, 0, cs[0].y, MAX_ROWS);
  }

  /** With one feed at row 30000 it reads the same rows correctly. */
  lemma OneFeedSavesThem(width: nat, height: nat, bits: seq<bv8>, cs: seq<Control>)
    requires width == 576 && height == 70000 && |bits| == RowBytes(width) * height
    requires cs == [Control(30000, Feed(1), false)]
    ensures Encoded(width, height, bits, cs, CUTTING_UNLIMITED).Some?
    ensures Interpret(Encoded(width, height, bits, cs, CUTTING_UNLIMITED).value, Buffer(CUTTING_UNLIMITED))
         == Some(Paper(bits, RowBytes(width), height, cs, CUTTING_UNLIMITED))
  {
    OneFeedFits(width, height, cs);
    EncodeFailsIff(width, height, bits, cs, CUTTING_UNLIMITED);
    MeansPaperIff(width, height, bits, cs, CUTTING_UNLIMITED);
  }
}
