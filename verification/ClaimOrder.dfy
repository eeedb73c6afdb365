/**
  In which order workers get their jobs: a printer with a Pending job can be served
  at once, whatever the other printers are doing, and no job overtakes another of its
  printer that has the smaller ID.
 */
module ClaimOrder {
  import opened Receipts
  import opened Jobs
  import opened StoreSpec
  import opened Protocol
  import opened ProtocolInvariant
  import opened CancelRace

  lemma {:induction false} LeastOf(ids: set<string>) returns (least: string)
    requires ids != {}
    ensures least in ids && forall id | id in ids :: id == least || Less(least, id)
    decreases |ids|
  {
    least :| least in ids;
    var rest := ids - {least};
    if rest != {} {
      var other := LeastOf(rest);
      LessTotal(least, other);
      if Less(other, least) {
        least := other;
      } else {
        forall id | id in rest && id != other
          ensures Less(least, id)
        {
          LessTransitive(least, other, id);
        }
      }
    }
  }

  /** A free worker of a printer that has a Pending job can claim one of that printer's, at the latest that one. */
  lemma PendingIsClaimable(s: State, w: nat, waiting: string, now: int) returns (id: string)
    requires s.phase.Serving? && w !in s.workers && waiting in s.store && s.store[waiting].state == Pending
    ensures Enabled(s, Claim(w, s.store[waiting].printer, id, now))
    ensures id in s.store && s.store[id].state == Pending && s.store[id].printer == s.store[waiting].printer
    ensures id == waiting || Less(id, waiting)
  {
    var printer := s.store[waiting].printer;
    var ids := set k | k in s.store && s.store[k].state == Pending && s.store[k].printer == printer;
    assert waiting in ids;
    id := LeastOf(ids);
  }

  /**
    No overtaking: while a job is Pending, no job of the same printer with a greater
    ID is claimed. Whatever runs, crashes and restarts included, such a claim comes
    after a claim or a cancellation of the job that was waiting.
   */
  lemma NoOvertaking(budget: nat, s: State, run: seq<Action>, waiting: string, i: nat) returns (k: nat)
    requires budget > 0 && Inv(budget, s) && Admissible(budget, s, run) && i < |run|
    requires waiting in s.store && s.store[waiting].state == Pending
    requires run[i].Claim? && run[i].printer == s.store[waiting].printer && Less(waiting, run[i].id)
    ensures k < i && Takes(run[k], waiting)
  {
    PrefixRuns(budget, s, run, i);
    if j: nat :| j < i && Takes(run[j], waiting) {
      k := j;
    } else {
      forall j | 0 <= j < |run[..i]|
        ensures !Takes(run[..i][j], waiting)
      {
        assert run[..i][j] == run[j];
      }
      UntakenStaysAsRead(budget, s, run[..i], waiting);
      LessAsymmetric(waiting, run[i].id);
      LessIrreflexive(waiting);
      assert Claimable(After(budget, s, run[..i]).store[waiting], Some(run[i].printer));
      assert false;
    }
  }
}
