/**
  The feeds and cuts of a receipt, from its elements to the paper: each comes once,
  in order, after exactly the rows above it, and the closing cut is there exactly
  when the document does not itself end with one.
 */
module DocumentControls {
  import opened Receipts
  import opened Bitmaps
  import opened Layout
  import opened Painting
  import opened Escpos
  import opened EscposPaper

  // ------------------------------------------------------------------ from elements to controls

  /** The receipt's own feeds and cuts. */
  function FeedsAndCuts(es: seq<Element>): seq<Element> {
    if es == [] then []
    else FeedsAndCuts(es[..|es| - 1]) + if es[|es| - 1].Feed? || es[|es| - 1].Cut? then [es[|es| - 1]] else []
  }

  function Controls(items: seq<Item>): seq<Element> {
    if items == [] then []
    else
      var last := items[|items| - 1];
      Controls(items[..|items| - 1]) + if IsControl(last.element) then [last.element.element] else []
  }

  function Elements(cs: seq<Control>): (es: seq<Element>)
    ensures |es| == |cs| && forall i | 0 <= i < |cs| :: es[i] == cs[i].element
  {
    seq(|cs|, i requires 0 <= i < |cs| => cs[i].element)
  }

  lemma {:induction false} ControlsConcat(a: seq<Item>, b: seq<Item>)
    ensures Controls(a + b) == Controls(a) + Controls(b)
    decreases |b|
  {
    if b == [] {
      assert a + b == a;
    } else {
      assert (a + b)[..|a + b| - 1] == a + b[..|b| - 1];
      ControlsConcat(a, b[..|b| - 1]);
    }
  }

  lemma {:induction false} NoControls(items: seq<Item>)
    requires forall i | 0 <= i < |items| :: !IsControl(items[i].element)
    ensures Controls(items) == []
  {
    if items != [] { NoControls(items[..|items| - 1]); }
  }

  lemma LaidControls(e: Element, p: Page)
    requires Validated(e) && p.font.advance(' ') > 0 && Laid(e, p).Ok?
    ensures Controls(Laid(e, p).value) == if e.Feed? || e.Cut? then [e] else []
  {
    var items := Laid(e, p).value;
    if e.Feed? || e.Cut? {
      assert items[..0] == [];
    } else {
      NoControls(items);
    }
  }

  lemma {:induction false} LaidAllControls(es: seq<Element>, p: Page)
    requires p.font.advance(' ') > 0 && (forall i | 0 <= i < |es| :: Validated(es[i])) && LaidAll(es, p).Ok?
    ensures Controls(LaidAll(es, p).value) == FeedsAndCuts(es)
    decreases |es|
  {
    if es != [] {
      var init, last := es[..|es| - 1], es[|es| - 1];
      LaidAllControls(init, p);
      LaidControls(last, p);
      ControlsConcat(LaidAll(init, p).value, Laid(last, p).value);
    }
  }

  lemma {:induction false} BlockControls(blocks: seq<Block>, n: nat)
    requires n <= |blocks|
    ensures Elements(ControlsTo(blocks, n)) == Controls(ItemsOf(blocks)[..n])
    decreases n
  {
    if n > 0 {
      BlockControls(blocks, n - 1);
      var items := ItemsOf(blocks);
      assert items[..n][..n - 1] == items[..n - 1];
    }
  }

  /** The controls painted for a receipt are its feeds and cuts, once each and in order. */
  lemma ControlsAreFeedsAndCuts(es: seq<Element>, p: Page, blocks: seq<Block>)
    requires p.font.advance(' ') > 0 && forall i | 0 <= i < |es| :: Validated(es[i])
    requires LaidAll(es, p) == Ok(ItemsOf(blocks))
    ensures Elements(ControlsTo(blocks, |blocks|)) == FeedsAndCuts(es)
  {
    BlockControls(blocks, |blocks|);
    assert ItemsOf(blocks)[..|blocks|] == ItemsOf(blocks);
    LaidAllControls(es, p);
  }

  // ------------------------------------------------------------------ where a control is

  /** The control blocks among the first `n`. */
  function ControlCount(blocks: seq<Block>, n: nat): (c: nat)
    requires n <= |blocks|
    ensures c <= n
  {
    if n == 0 then 0 else ControlCount(blocks, n - 1) + if IsControl(blocks[n - 1].element) then 1 else 0
  }

  /** A control block's command is painted at the block's row, after those of the blocks before it. */
  lemma {:induction false} ControlOfBlock(blocks: seq<Block>, n: nat, i: nat)
    requires i < n <= |blocks| && IsControl(blocks[i].element)
    ensures |ControlsTo(blocks, n)| == ControlCount(blocks, n) > ControlCount(blocks, i)
    ensures ControlsTo(blocks, n)[ControlCount(blocks, i)]
         == Control(blocks[i].y, blocks[i].element.element, i == |blocks| - 1)
    decreases n
  {
    ControlsCounted(blocks, n);
    ControlsCounted(blocks, n - 1);
    if i < n - 1 { ControlOfBlock(blocks, n - 1, i); }
  }

  lemma {:induction false} ControlsCounted(blocks: seq<Block>, n: nat)
    requires n <= |blocks|
    ensures |ControlsTo(blocks, n)| == ControlCount(blocks, n)
    decreases n
  {
    if n > 0 { ControlsCounted(blocks, n - 1); }
  }

  // ------------------------------------------------------------------ the closing cut

  predicate EndsWithCut(blocks: seq<Block>) {
    blocks != [] && blocks[|blocks| - 1].element.Source? && blocks[|blocks| - 1].element.element.Cut?
  }

  predicate UsableCut(mode: string) {
    mode == "full" || mode == "partial"
  }

  lemma {:induction false} NotTerminal(blocks: seq<Block>, n: nat)
    requires n < |blocks|
    ensures forall i | 0 <= i < |ControlsTo(blocks, n)| :: !ControlsTo(blocks, n)[i].terminal
    decreases n
  {
    if n > 0 { NotTerminal(blocks, n - 1); }
  }

  lemma AutoCutsIff(blocks: seq<Block>, profile: Profile)
    ensures AutoCuts(ControlsTo(blocks, |blocks|), profile) <==> profile.supportsCut && !EndsWithCut(blocks)
  {
    if blocks != [] { NotTerminal(blocks, |blocks| - 1); }
  }

  const FEED_FOUR: seq<bv8> := [0x1B, 0x64, 0x04]
  const CUT_FULL: seq<bv8> := [0x1D, 0x56, 0x00]
  const CUT_PARTIAL: seq<bv8> := [0x1D, 0x56, 0x01]

  lemma FeedsFour()
    ensures FeedCommand(DEFAULT_FEED_LINES) == FEED_FOUR
  {}

  /**
    On a cutting printer with a usable default cut, nothing is appended exactly when
    the document's last block is a cut; otherwise ESC d 4 and GS V with the default.
   */
  lemma ClosingIff(blocks: seq<Block>, profile: Profile)
    requires profile.supportsCut && UsableCut(profile.defaultCut)
    ensures Closing(ControlsTo(blocks, |blocks|), profile)
         == Some(if EndsWithCut(blocks) then []
                 else FEED_FOUR + if profile.defaultCut == "full" then CUT_FULL else CUT_PARTIAL)
  {
    AutoCutsIff(blocks, profile);
    FeedsFour();
  }

  /** Text after the last cut: the part below it is fed and cut too. */
  lemma TextAfterCutIsCut(text: Block, cut: Block, more: Block, profile: Profile)
    requires profile.supportsCut && profile.defaultCut == "full"
    requires cut.element == Source(Cut("full")) && text.element.TableLine? && more.element.TableLine?
    ensures Closing(ControlsTo([text, cut, more], 3), profile) == Some(FEED_FOUR + CUT_FULL)
  {
    ClosingIff([text, cut, more], profile);
  }

  // ------------------------------------------------------------------ on the paper

  /** What the receipt itself asks of the paper, element by element. */
  function Asked(es: seq<Element>, profile: Profile): seq<Op> {
    if es == [] then []
    else
      (match es[0]
       case Feed(lines) => [FeedPaper(if lines >= 0 then lines else 0)]
       case Cut(mode) =>
         if profile.supportsCut then [CutPaper(mode == "full" || (mode == "" && profile.defaultCut == "full"))] else []
       case _ => [])
      + Asked(es[1..], profile)
  }

  function Ops(marks: seq<(nat, Op)>): (ops: seq<Op>)
    ensures |ops| == |marks| && forall i | 0 <= i < |marks| :: ops[i] == marks[i].1
  {
    seq(|marks|, i requires 0 <= i < |marks| => marks[i].1)
  }

  lemma OpsConcat(a: seq<(nat, Op)>, b: seq<(nat, Op)>)
    ensures Ops(a + b) == Ops(a) + Ops(b)
  {}

  lemma OpsAt(row: nat, ops: seq<Op>)
    ensures Ops(At(row, ops)) == ops
  {}

  lemma {:induction false} AskedConcat(a: seq<Element>, b: seq<Element>, profile: Profile)
    ensures Asked(a + b, profile) == Asked(a, profile) + Asked(b, profile)
  {
    if a == [] {
      assert a + b == b;
    } else {
      assert (a + b)[1..] == a[1..] + b;
      AskedConcat(a[1..], b, profile);
    }
  }

  lemma {:induction false} OnlyFeedsAndCutsAsk(es: seq<Element>, profile: Profile)
    ensures Asked(FeedsAndCuts(es), profile) == Asked(es, profile)
    decreases |es|
  {
    if es != [] {
      var init, last := es[..|es| - 1], es[|es| - 1];
      OnlyFeedsAndCutsAsk(init, profile);
      assert es == init + [last];
      AskedConcat(init, [last], profile);
      AskedConcat(FeedsAndCuts(init), if last.Feed? || last.Cut? then [last] else [], profile);
      AskedOne(last, profile);
    }
  }

  lemma AskedOne(e: Element, profile: Profile)
    ensures Asked(if e.Feed? || e.Cut? then [e] else [], profile) == Asked([e], profile)
  {}

  lemma {:induction false} MarksAsk(cs: seq<Control>, profile: Profile)
    requires forall i | 0 <= i < |cs| ::
               cs[i].y >= 0 && (cs[i].element.Feed? ==> cs[i].element.lines >= 0) && (cs[i].element.Feed? || cs[i].element.Cut?)
    ensures Ops(ControlMarksOf(cs, profile)) == Asked(Elements(cs), profile)
    decreases |cs|
  {
    if cs != [] {
      MarksAsk(cs[1..], profile);
      var first := At(cs[0].y, ControlOps(cs[0].element, profile));
      OpsConcat(first, ControlMarksOf(cs[1..], profile));
      OpsAt(cs[0].y, ControlOps(cs[0].element, profile));
      assert Elements(cs)[1..] == Elements(cs[1..]);
    }
  }

  /** What follows the last row. */
  function AtTheEnd(blocks: seq<Block>, profile: Profile): seq<Op> {
    if profile.supportsCut && !EndsWithCut(blocks) then [FeedPaper(4), CutPaper(profile.defaultCut == "full")] else []
  }

  /**
    On a receipt's paper the operations besides printed rows are the reset, what the
    receipt's feeds and cuts ask for in order, and at the end, on a cutting printer,
    four lines and the default cut exactly when no cut ends the document.
   */
  lemma PaperDoesWhatIsAsked(es: seq<Element>, p: Page, blocks: seq<Block>, width: nat, end: nat, bits: seq<bv8>, profile: Profile)
    requires p.font.advance(' ') > 0 && forall i | 0 <= i < |es| :: Validated(es[i])
    requires p.Stacked(blocks, 0, end) && LaidAll(es, p) == Ok(ItemsOf(blocks))
    requires Drawn(width, end, bits, ControlsTo(blocks, |blocks|))
    ensures Ops(Marks(Paper(bits, RowBytes(width), end, ControlsTo(blocks, |blocks|), profile), 0))
         == [ResetPrinter] + Asked(es, profile) + AtTheEnd(blocks, profile)
  {
    var cs := ControlsTo(blocks, |blocks|);
    PaperReads(width, end, bits, cs, profile);
    ControlsOrdered(p, blocks, end, |blocks|);
    ControlsAreFeedsAndCuts(es, p, blocks);
    OnlyFeedsAndCutsAsk(es, profile);
    MarksAsk(cs, profile);
    AutoCutsIff(blocks, profile);
    OpsConcat([(0, ResetPrinter)] + ControlMarksOf(cs, profile), At(end, ClosingPaper(cs, profile)));
    OpsConcat([(0, ResetPrinter)], ControlMarksOf(cs, profile));
    OpsAt(end, ClosingPaper(cs, profile));
    assert Ops([(0, ResetPrinter)]) == [ResetPrinter];
  }

  // ------------------------------------------------------------------ when the encoder refuses

  /**
    A validated receipt that is laid out is refused exactly when its canvas is empty,
    or the printer cuts and a default cut that is no cut would be needed: by a cut
    without a mode, or because no cut ends the document.
   */
  lemma RefusedIff(es: seq<Element>, p: Page, blocks: seq<Block>, width: nat, end: nat, bits: seq<bv8>, profile: Profile)
    requires p.font.advance(' ') > 0 && forall i | 0 <= i < |es| :: Validated(es[i])
    requires p.Stacked(blocks, 0, end) && LaidAll(es, p) == Ok(ItemsOf(blocks)) && |bits| == RowBytes(width) * end
    requires forall i | 0 <= i < |ControlsTo(blocks, |blocks|)| :: 0 <= ControlsTo(blocks, |blocks|)[i].y <= end
    ensures Encoded(width, end, bits, ControlsTo(blocks, |blocks|), profile) == None
       <==> width == 0 || end == 0
            || (profile.supportsCut && !UsableCut(profile.defaultCut) && (!EndsWithCut(blocks) || Cut("") in es))
  {
    var cs := ControlsTo(blocks, |blocks|);
    EncodeFailsIff(width, end, bits, cs, profile);
    AutoCutsIff(blocks, profile);
    ControlsAreFeedsAndCuts(es, p, blocks);
    FeedsAndCutsHold(es);
    if profile.supportsCut && !UsableCut(profile.defaultCut) && Cut("") in es {
      var i :| 0 <= i < |Elements(cs)| && Elements(cs)[i] == Cut("");
      assert ControlCommand(cs[i].element, profile) == None;
    }
    forall i | 0 <= i < |cs| && ControlCommand(cs[i].element, profile) == None
      ensures profile.supportsCut && !UsableCut(profile.defaultCut) && Cut("") in es
    {
      assert Elements(cs)[i] in es;
    }
  }

  lemma {:induction false} FeedsAndCutsHold(es: seq<Element>)
    ensures forall e :: e in FeedsAndCuts(es) <==> e in es && (e.Feed? || e.Cut?)
    decreases |es|
  {
    if es != [] {
      FeedsAndCutsHold(es[..|es| - 1]);
      assert es == es[..|es| - 1] + [es[|es| - 1]];
    }
  }
}
