/**
  Delivering one encoded stream: the network printer's keep-writing loop and the
  copies loop around it, over a printer that remembers what each connection received.
 */
module Delivery {
  import opened Receipts

  /** How a single Write call ends: `n` bytes taken, with an error or without. */
  datatype WriteResult = WriteResult(n: nat, failed: bool)

  /** One connection attempt: whether it dials, accepts a deadline, and how its Writes end. */
  datatype Link = Link(dials: bool, deadlineSet: bool, writes: nat -> WriteResult)

  datatype SendError = DialFailed | DeadlineFailed | WriteFailed | ShortWrite

  /** How many of `offered` bytes the `k`-th Write takes. */
  function Takes(link: Link, k: nat, offered: nat): nat {
    if link.writes(k).n <= offered then link.writes(k).n else offered
  }

  // ------------------------------------------------------------------ what a link does to a stream

  /** Writes from the `k`-th on take the `left` last bytes, each at least one of them, without an error. */
  predicate DeliversFrom(link: Link, k: nat, left: nat)
    decreases left
  {
    left == 0
    || (!link.writes(k).failed && Takes(link, k, left) > 0 && DeliversFrom(link, k + 1, left - Takes(link, k, left)))
  }

  /** The link carries `n` bytes to the printer. */
  predicate Delivers(link: Link, n: nat) {
    link.dials && link.deadlineSet && DeliversFrom(link, 0, n)
  }

  /** The same, but the Write that takes the last byte reports an error. */
  predicate LateFrom(link: Link, k: nat, left: nat)
    decreases left
  {
    && left > 0
    && if link.writes(k).failed then link.writes(k).n >= left
       else 0 < Takes(link, k, left) < left && LateFrom(link, k + 1, left - Takes(link, k, left))
  }

  predicate LateAt(link: Link, n: nat) {
    link.dials && link.deadlineSet && LateFrom(link, 0, n)
  }

  /** An error after the last byte is still an error. */
  lemma {:induction false} LateIsNotDelivered(link: Link, k: nat, left: nat)
    requires LateFrom(link, k, left)
    ensures !DeliversFrom(link, k, left)
    decreases left
  {
    if !link.writes(k).failed { LateIsNotDelivered(link, k + 1, left - Takes(link, k, left)); }
  }

  /** The bytes still to go after `m` more successful Writes; 0 when none are, or one of them stops. */
  function Before(link: Link, k: nat, left: nat, m: nat): nat
    decreases m
  {
    if m == 0 then left
    else if left == 0 || link.writes(k).failed || Takes(link, k, left) == 0 then 0
    else Before(link, k + 1, left - Takes(link, k, left), m - 1)
  }

  /** After `m` good Writes some bytes are left; the next Write takes them all and fails. */
  predicate FailsWithLastByte(link: Link, k: nat, left: nat, m: nat) {
    Before(link, k, left, m) > 0 && link.writes(k + m).failed && link.writes(k + m).n >= Before(link, k, left, m)
  }

  lemma {:induction false} LateMeans(link: Link, k: nat, left: nat)
    ensures LateFrom(link, k, left) <==> exists m: nat :: FailsWithLastByte(link, k, left, m)
    decreases left
  {
    if left > 0 && !link.writes(k).failed && 0 < Takes(link, k, left) < left {
      var next, rest := k + 1, left - Takes(link, k, left);
      LateMeans(link, next, rest);
      if m: nat :| FailsWithLastByte(link, next, rest, m) {
        assert FailsWithLastByte(link, k, left, m + 1);
      }
      if m: nat :| FailsWithLastByte(link, k, left, m) {
        assert m > 0;
        assert FailsWithLastByte(link, next, rest, m - 1);
      }
    } else {
      if LateFrom(link, k, left) { assert FailsWithLastByte(link, k, left, 0); }
      if m: nat :| FailsWithLastByte(link, k, left, m) {
        assert m > 0 && left > 0 ==> Before(link, k + 1, 0, m - 1) == 0;
        assert m == 0;
      }
    }
  }

  class NetworkPrinter {
    /** What each dialled connection received, oldest first. */
    ghost var received: seq<seq<bv8>>

    constructor ()
      ensures received == []
    {
      received := [];
    }

    /**
      Writes `data` in full, or fails having delivered a prefix of it on at most
      one new connection. Every failure is one the queue treats as transient.
     */
    method Send(data: seq<bv8>, link: Link) returns (error: Option<SendError>, ghost delivered: nat)
      modifies this
      ensures delivered <= |data|
      ensures received == if error == Some(DialFailed) then old(received) else old(received) + [data[..delivered]]
      ensures error == None <==> Delivers(link, |data|)
      ensures error == None ==> delivered == |data|
      ensures error == Some(DialFailed) || error == Some(DeadlineFailed) ==> delivered == 0
      ensures error == Some(ShortWrite) ==> delivered < |data|
      ensures error == Some(WriteFailed) && delivered == |data| <==> LateAt(link, |data|)
      ensures error == Some(DialFailed) <==> !link.dials
    {
      delivered := 0;
      if !link.dials {
        return Some(DialFailed), 0;
      }
      received := received + [[]];
      assert received == old(received) + [data[..0]];
      if !link.deadlineSet {
        return Some(DeadlineFailed), 0;
      }
      var rest := data;
      var k := 0;
      while |rest| > 0
        invariant delivered <= |data| && rest == data[delivered..]
        invariant received == old(received) + [data[..delivered]]
        invariant DeliversFrom(link, k, |rest|) == DeliversFrom(link, 0, |data|)
        invariant LateFrom(link, k, |rest|) == LateFrom(link, 0, |data|)
        decreases |rest|
      {
        var n := Takes(link, k, |rest|);
        delivered := delivered + n;
        received := old(received) + [data[..delivered]];
        if link.writes(k).failed {
          return Some(WriteFailed), delivered;
        }
        if n == 0 {
          return Some(ShortWrite), delivered;
        }
        rest := rest[n..];
        k := k + 1;
      }
      return None, delivered;
    }
  }

  function Repeat(data: seq<bv8>, n: nat): seq<seq<bv8>> {
    if n == 0 then [] else Repeat(data, n - 1) + [data]
  }

  lemma {:induction false} RepeatAll(data: seq<bv8>, n: nat)
    ensures |Repeat(data, n)| == n && forall i | 0 <= i < n :: Repeat(data, n)[i] == data
  {
    if n > 0 { RepeatAll(data, n - 1); }
  }

  /** How many of the connections got the whole stream. */
  function CompleteCopies(connections: seq<seq<bv8>>, data: seq<bv8>): nat {
    if connections == [] then 0
    else CompleteCopies(connections[..|connections| - 1], data)
         + if connections[|connections| - 1] == data then 1 else 0
  }

  lemma {:induction false} RepeatIsComplete(data: seq<bv8>, n: nat)
    ensures CompleteCopies(Repeat(data, n), data) == n
  {
    if n > 0 {
      assert Repeat(data, n)[..n - 1] == Repeat(data, n - 1) by { RepeatAll(data, n - 1); }
      RepeatAll(data, n);
      RepeatIsComplete(data, n - 1);
    }
  }

  // ------------------------------------------------------------------ all the copies

  /** The first `n` connections deliver the stream. */
  predicate AllDeliver(links: nat -> Link, n: nat, bytes: nat) {
    forall i: nat | i < n :: Delivers(links(i), bytes)
  }

  /** Every copy arrives, but the last one's connection reports an error after its last byte. */
  predicate LastCopyLate(links: nat -> Link, copies: nat, bytes: nat) {
    copies > 0 && AllDeliver(links, copies - 1, bytes) && LateAt(links(copies - 1), bytes)
  }

  /**
    The send loop of Process on one encoded stream. `links` supplies the
    connection of each copy. Success means the printer got exactly the copies
    asked for; failure means it got `complete` whole copies from the sends that
    returned, fewer than asked for, and at most one prefix from the send that failed.
   */
  method Deliver(printer: NetworkPrinter, r: Receipt, data: seq<bv8>, links: nat -> Link)
    returns (error: Option<SendError>, ghost complete: nat, ghost partial: seq<seq<bv8>>)
    modifies printer
    ensures printer.received == old(printer.received) + (Repeat(data, complete) + partial)
    ensures error == None <==> AllDeliver(links, EffectiveCopies(r), |data|)
    ensures error == None <==> complete == EffectiveCopies(r)
    ensures error == None ==> partial == []
    ensures error.Some? ==>
              && complete < EffectiveCopies(r) && AllDeliver(links, complete, |data|) && !Delivers(links(complete), |data|)
              && |partial| <= 1 && (|partial| == 1 ==> partial[0] <= data)
              && (|data| > 0 ==> (|partial| == 1 && partial[0] == data <==> LateAt(links(complete), |data|)))
    ensures |data| > 0 ==>
              var got := printer.received[|old(printer.received)|..];
              (error == None <==> CompleteCopies(got, data) == EffectiveCopies(r))
              <==> !LastCopyLate(links, EffectiveCopies(r), |data|)
  {
    var i := 0;
    complete, partial := 0, [];
    while i < EffectiveCopies(r)
      invariant 0 <= i <= EffectiveCopies(r) && complete == i && AllDeliver(links, i, |data|)
      invariant printer.received == old(printer.received) + Repeat(data, i)
    {
      ghost var delivered;
      error, delivered := printer.Send(data, links(i));
      if error.Some? {
        partial := if error == Some(DialFailed) then [] else [data[..delivered]];
        assert error.value.DialFailed? || error.value.DeadlineFailed? || error.value.WriteFailed? || error.value.ShortWrite?;
        assert data[..delivered] == data <==> delivered == |data|;
        SuccessIffAllCopies(data, links, EffectiveCopies(r), complete, partial);
        assert printer.received == old(printer.received) + (Repeat(data, complete) + partial);
        return;
      }
      assert data[..delivered] == data;
      i := i + 1;
      complete := i;
    }
    error := None;
    SuccessIffAllCopies(data, links, EffectiveCopies(r), complete, partial);
    assert Repeat(data, complete) + partial == Repeat(data, complete);
  }

  /** How one attempt at `copies` copies can end, as the links have it. */
  ghost predicate Attempted(data: seq<bv8>, links: nat -> Link, copies: nat, complete: nat, partial: seq<seq<bv8>>) {
    && complete <= copies && AllDeliver(links, complete, |data|)
    && (complete == copies ==> partial == [])
    && (complete < copies ==>
          && !Delivers(links(complete), |data|) && |partial| <= 1
          && (|partial| == 1 && partial[0] == data <==> LateAt(links(complete), |data|)))
  }

  /**
    Judged by what the printer received in an attempt, all copies delivered and no
    link failing coincide, exactly unless the last copy's Write reports an error
    after taking its last byte. The condition speaks of the links alone.
   */
  lemma SuccessIffAllCopies(data: seq<bv8>, links: nat -> Link, copies: nat, complete: nat, partial: seq<seq<bv8>>)
    requires |data| > 0 ==> Attempted(data, links, copies, complete, partial)
    ensures |data| > 0 ==>
      ((AllDeliver(links, copies, |data|) <==> CompleteCopies(Repeat(data, complete) + partial, data) == copies)
       <==> !LastCopyLate(links, copies, |data|))
  {
    if |data| > 0 {
      RepeatIsComplete(data, complete);
      var all := Repeat(data, complete) + partial;
      if partial == [] {
        assert all == Repeat(data, complete);
      } else {
        assert all[..|all| - 1] == Repeat(data, complete);
      }
      if copies > 0 && LateAt(links(copies - 1), |data|) { LateIsNotDelivered(links(copies - 1), 0, |data|); }
    }
  }

  /** A link whose first Write takes everything and still reports an error. */
  const LATE_LINK := Link(true, true, _ => WriteResult(1000, true))

  /** One copy over it: the printer has the whole receipt, and the attempt has failed. */
  lemma LateLinkFailsAfterAll(data: seq<bv8>)
    requires 0 < |data| <= 1000
    ensures LastCopyLate(_ => LATE_LINK, 1, |data|) && !AllDeliver(_ => LATE_LINK, 1, |data|)
    ensures Attempted(data, _ => LATE_LINK, 1, 0, [data])
    ensures CompleteCopies(Repeat(data, 0) + [data], data) == 1
  {
    LateIsNotDelivered(LATE_LINK, 0, |data|);
    assert Repeat(data, 0) + [data] == [data] && [data][..0] == [];
    assert !Delivers(LATE_LINK, |data|);
  }
}
