/**
  Which element trees decode, whatever their input: exactly those in which every node
  is sound. Otherwise the error is the first faulty node's, in document order, so
  an unknown type is never let through.
 */
module DecodeVerdict {
  import opened Receipts
  import opened ElementDecoder

  // ------------------------------------------------------------------ sound trees

  /** A known leaf that decodes, or well-formed columns of sound elements, no deeper than the bound. */
  ghost predicate Sound(r: Registry, w: Wire, depth: nat)
    decreases StepsLeft(depth), 0
  {
    && depth <= MAX_ELEMENT_DEPTH && w.Object?
    && if w.typ == "columns" then w.columnsOk && SoundColumns(r, w.columns, depth)
       else r.knows(w.typ) && r.decode(w.typ, w.json).Some?
  }

  ghost predicate AllSound(r: Registry, ws: seq<Wire>, depth: nat)
    decreases StepsLeft(depth), 1
  {
    forall i | 0 <= i < |ws| :: Sound(r, ws[i], depth)
  }

  ghost predicate SoundColumns(r: Registry, cs: seq<WireColumn>, depth: nat)
    requires depth <= MAX_ELEMENT_DEPTH
    decreases StepsLeft(depth + 1), 2
  {
    forall i | 0 <= i < |cs| :: AllSound(r, cs[i].elements, depth + 1)
  }

  // ------------------------------------------------------------------ the first fault

  /** What is wrong with `w` itself, or with the first faulty element below it. */
  ghost predicate Faulty(r: Registry, w: Wire, depth: nat, error: DecodeError)
    decreases StepsLeft(depth), 0, 0
  {
    if depth > MAX_ELEMENT_DEPTH then error == TooDeep
    else if w.NotAnObject? || (w.typ == "columns" && !w.columnsOk) then error == Malformed
    else if w.typ == "columns" then exists i :: FaultyColumn(r, w.columns, depth, error, i)
    else if !r.knows(w.typ) then error == UnknownType
    else r.decode(w.typ, w.json) == None && error == Malformed
  }

  /** Element `i` is the first that is not sound, and has this fault. */
  ghost predicate FaultyElement(r: Registry, ws: seq<Wire>, depth: nat, error: DecodeError, i: int)
    decreases StepsLeft(depth), 1, 0
  {
    0 <= i < |ws| && Faulty(r, ws[i], depth, error) && forall k | 0 <= k < i :: Sound(r, ws[k], depth)
  }

  ghost predicate SomeFaulty(r: Registry, ws: seq<Wire>, depth: nat, error: DecodeError)
    decreases StepsLeft(depth), 1, 1
  {
    exists i :: FaultyElement(r, ws, depth, error, i)
  }

  ghost predicate FaultyColumn(r: Registry, cs: seq<WireColumn>, depth: nat, error: DecodeError, i: int)
    requires depth <= MAX_ELEMENT_DEPTH
    decreases StepsLeft(depth + 1), 2, 0
  {
    && 0 <= i < |cs|
    && SomeFaulty(r, cs[i].elements, depth + 1, error)
    && forall k | 0 <= k < i :: AllSound(r, cs[k].elements, depth + 1)
  }

  // ------------------------------------------------------------------ what comes out

  /** The element has the tree's shape, column by column, and each leaf is what its decoder made of it. */
  ghost predicate Mirrors(r: Registry, w: Wire, e: Element)
    decreases w, 0
  {
    && w.Object?
    && if w.typ == "columns" then e.Columns? && MirrorsColumns(r, w.columns, e.columns)
       else r.decode(w.typ, w.json) == Some(e)
  }

  ghost predicate MirrorsAll(r: Registry, ws: seq<Wire>, es: seq<Element>)
    decreases ws, 0
  {
    |ws| == |es| && forall i | 0 <= i < |ws| :: Mirrors(r, ws[i], es[i])
  }

  ghost predicate MirrorsColumns(r: Registry, ws: seq<WireColumn>, cs: seq<Column>)
    decreases ws, 0
  {
    && |ws| == |cs|
    && forall i | 0 <= i < |ws| :: ws[i].weight == cs[i].weight && MirrorsAll(r, ws[i].elements, cs[i].elements)
  }

  // ------------------------------------------------------------------ the verdict

  ghost predicate Judged(r: Registry, w: Wire, depth: nat, result: Result<Element, DecodeError>) {
    && (result.Ok? <==> Sound(r, w, depth))
    && (result.Ok? ==> Mirrors(r, w, result.value))
    && (result.Err? ==> Faulty(r, w, depth, result.error))
  }

  ghost predicate JudgedAll(r: Registry, ws: seq<Wire>, depth: nat, result: Result<seq<Element>, DecodeError>) {
    && (result.Ok? <==> AllSound(r, ws, depth))
    && (result.Ok? ==> MirrorsAll(r, ws, result.value))
    && (result.Err? ==> SomeFaulty(r, ws, depth, result.error))
  }

  ghost predicate JudgedColumns(r: Registry, cs: seq<WireColumn>, depth: nat, result: Result<seq<Column>, DecodeError>)
    requires depth <= MAX_ELEMENT_DEPTH
  {
    && (result.Ok? <==> SoundColumns(r, cs, depth))
    && (result.Ok? ==> MirrorsColumns(r, cs, result.value))
    && (result.Err? ==> exists i :: FaultyColumn(r, cs, depth, result.error, i))
  }

  /**
    Decoding succeeds exactly on sound trees, mirrors them, and otherwise reports the
    first fault; for every input, well formed or not.
   */
  lemma {:induction false} DecodeJudges(r: Registry, w: Wire, depth: nat)
    ensures Judged(r, w, depth, Decode(r, w, depth))
    decreases StepsLeft(depth), 0, 0
  {
    if depth <= MAX_ELEMENT_DEPTH && w.Object? && w.typ == "columns" && w.columnsOk {
      DecodeJudgesColumns(r, w.columns, depth);
    }
  }

  lemma {:induction false} DecodeJudgesAll(r: Registry, ws: seq<Wire>, depth: nat)
    ensures JudgedAll(r, ws, depth, DecodeAll(r, ws, depth))
    decreases StepsLeft(depth), 1, |ws|
  {
    if ws != [] {
      var n := |ws| - 1;
      DecodeJudgesAll(r, ws[..n], depth);
      DecodeJudges(r, ws[n], depth);
      var before := DecodeAll(r, ws[..n], depth);
      if before.Err? {
        FaultStays(r, ws, n, depth, before.error);
      } else {
        NextElement(r, ws, depth, before.value, Decode(r, ws[n], depth));
      }
    }
  }

  lemma FaultStays(r: Registry, ws: seq<Wire>, n: nat, depth: nat, error: DecodeError)
    requires n <= |ws| && SomeFaulty(r, ws[..n], depth, error)
    ensures SomeFaulty(r, ws, depth, error)
    ensures !AllSound(r, ws[..n], depth) ==> !AllSound(r, ws, depth)
  {
    var i :| FaultyElement(r, ws[..n], depth, error, i);
    assert ws[..n][i] == ws[i];
    forall k | 0 <= k < i
      ensures Sound(r, ws[k], depth)
    {
      assert ws[..n][k] == ws[k];
    }
    assert FaultyElement(r, ws, depth, error, i);
    if !AllSound(r, ws[..n], depth) {
      var k :| 0 <= k < n && !Sound(r, ws[..n][k], depth);
      assert ws[..n][k] == ws[k];
    }
  }

  lemma NextElement(r: Registry, ws: seq<Wire>, depth: nat, before: seq<Element>, last: Result<Element, DecodeError>)
    requires ws != [] && AllSound(r, ws[..|ws| - 1], depth) && MirrorsAll(r, ws[..|ws| - 1], before)
    requires Judged(r, ws[|ws| - 1], depth, last)
    ensures last.Ok? ==> AllSound(r, ws, depth) && MirrorsAll(r, ws, before + [last.value])
    ensures last.Err? ==> !AllSound(r, ws, depth) && FaultyElement(r, ws, depth, last.error, |ws| - 1)
  {
    forall i | 0 <= i < |ws| - 1
      ensures Sound(r, ws[i], depth) && Mirrors(r, ws[i], before[i])
    {
      assert ws[..|ws| - 1][i] == ws[i];
    }
  }

  lemma {:induction false} DecodeJudgesColumns(r: Registry, cs: seq<WireColumn>, depth: nat)
    requires depth <= MAX_ELEMENT_DEPTH
    ensures JudgedColumns(r, cs, depth, DecodeColumns(r, cs, depth))
    decreases StepsLeft(depth + 1), 2, |cs|
  {
    if cs != [] {
      var n := |cs| - 1;
      DecodeJudgesColumns(r, cs[..n], depth);
      DecodeJudgesAll(r, cs[n].elements, depth + 1);
      var before := DecodeColumns(r, cs[..n], depth);
      if before.Err? {
        ColumnFaultStays(r, cs, n, depth, before.error);
      } else {
        NextColumn(r, cs, depth, before.value, DecodeAll(r, cs[n].elements, depth + 1));
      }
    }
  }

  lemma ColumnFaultStays(r: Registry, cs: seq<WireColumn>, n: nat, depth: nat, error: DecodeError)
    requires depth <= MAX_ELEMENT_DEPTH && n <= |cs| && !SoundColumns(r, cs[..n], depth)
    requires exists i :: FaultyColumn(r, cs[..n], depth, error, i)
    ensures exists i :: FaultyColumn(r, cs, depth, error, i)
    ensures !SoundColumns(r, cs, depth)
  {
    var i :| FaultyColumn(r, cs[..n], depth, error, i);
    assert cs[..n][i] == cs[i];
    forall k | 0 <= k < i
      ensures AllSound(r, cs[k].elements, depth + 1)
    {
      assert cs[..n][k] == cs[k];
    }
    assert FaultyColumn(r, cs, depth, error, i);
    var k :| 0 <= k < n && !AllSound(r, cs[..n][k].elements, depth + 1);
    assert cs[..n][k] == cs[k];
  }

  lemma NextColumn(r: Registry, cs: seq<WireColumn>, depth: nat, before: seq<Column>, last: Result<seq<Element>, DecodeError>)
    requires depth <= MAX_ELEMENT_DEPTH && cs != []
    requires SoundColumns(r, cs[..|cs| - 1], depth) && MirrorsColumns(r, cs[..|cs| - 1], before)
    requires JudgedAll(r, cs[|cs| - 1].elements, depth + 1, last)
    ensures last.Ok? ==>
              && SoundColumns(r, cs, depth)
              && MirrorsColumns(r, cs, before + [Column(cs[|cs| - 1].weight, last.value)])
    ensures last.Err? ==> !SoundColumns(r, cs, depth) && FaultyColumn(r, cs, depth, last.error, |cs| - 1)
  {
    forall i | 0 <= i < |cs| - 1
      ensures AllSound(r, cs[i].elements, depth + 1)
      ensures cs[i].weight == before[i].weight && MirrorsAll(r, cs[i].elements, before[i].elements)
    {
      assert cs[..|cs| - 1][i] == cs[i];
    }
  }

  /** An element of a type nobody registered is refused at every level it is looked at. */
  lemma UnknownTypeRefused(r: Registry, w: Wire, depth: nat)
    requires depth <= MAX_ELEMENT_DEPTH && w.Object? && w.typ != "columns" && !r.knows(w.typ)
    ensures Decode(r, w, depth) == Err(UnknownType)
  {
    DecodeJudges(r, w, depth);
  }
}
