/** Reconciliation as steps of the queue protocol. */
module ReconcileRun {
  import opened Jobs
  import opened StoreSpec
  import opened Protocol
  import opened Queues

  /** The steps that resolve the first `n` listed jobs. */
  function Resolving(listing: seq<Job>, n: nat, now: int): seq<Action>
    requires n <= |listing|
  {
    if n == 0 then []
    else Resolving(listing, n - 1, now)
         + [if listing[n - 1].state == Running then ReconcileSave(now) else ReconcileSkip]
  }

  lemma {:induction false} ResolvingRuns(budget: nat, s: State, listing: seq<Job>, n: nat, now: int)
    requires n <= |listing| && s.phase == Reconciling(listing) && s.maxAttempts == budget
    ensures Admissible(budget, s, Resolving(listing, n, now))
    ensures var s' := After(budget, s, Resolving(listing, n, now));
      && s'.phase == Reconciling(listing[n..]) && s'.workers == s.workers && s'.maxAttempts == budget
      && s'.store == ReconciledPrefix(budget, s.store, listing, n, now)
    decreases n
  {
    if n == 0 {
      assert listing[0..] == listing;
    } else {
      ResolvingRuns(budget, s, listing, n - 1, now);
      var s' := After(budget, s, Resolving(listing, n - 1, now));
      var a := if listing[n - 1].state == Running then ReconcileSave(now) else ReconcileSkip;
      assert listing[n - 1..][0] == listing[n - 1] && listing[n - 1..][1..] == listing[n..];
      OneStep(budget, s', a);
      RunsCompose(budget, s, Resolving(listing, n - 1, now), [a]);
    }
  }

  /** Starting from a stopped daemon, up to the point where `n` jobs are resolved. */
  lemma StartedRuns(budget: nat, s: State, listing: seq<Job>, n: nat, now: int)
    requires budget > 0 && s.phase.Down? && IsListing(s.store, listing) && n <= |listing|
    ensures var run := [Boot(listing, budget)] + Resolving(listing, n, now);
      && Admissible(budget, s, run)
      && var s' := After(budget, s, run);
         && s'.phase == Reconciling(listing[n..]) && s'.workers == s.workers
         && s'.store == ReconciledPrefix(budget, s.store, listing, n, now)
  {
    OneStep(budget, s, Boot(listing, budget));
    var s' := s.(phase := Reconciling(listing), maxAttempts := budget);
    ResolvingRuns(budget, s', listing, n, now);
    RunsCompose(budget, s, [Boot(listing, budget)], Resolving(listing, n, now));
  }

  /** A startup whose Saves all commit is a protocol run from Down to Serving. */
  lemma StartupIsProtocolRun(budget: nat, s: State, listing: seq<Job>, now: int)
    requires budget > 0 && s.phase.Down? && WellKeyed(s.store) && IsListing(s.store, listing)
    ensures var run := [Boot(listing, budget)] + Resolving(listing, |listing|, now) + [StartWorkers];
      && Admissible(budget, s, run)
      && After(budget, s, run).phase == Serving(false)
      && After(budget, s, run).store == Reconciled(budget, s.store, now)
  {
    var run := [Boot(listing, budget)] + Resolving(listing, |listing|, now);
    StartedRuns(budget, s, listing, |listing|, now);
    OneStep(budget, After(budget, s, run), StartWorkers);
    RunsCompose(budget, s, run, [StartWorkers]);
    PrefixComplete(budget, s.store, listing, now);
  }

  /** One that a failing Save ends at job `n` is a run that leaves the daemon down, the jobs before it resolved. */
  lemma FailedStartupIsProtocolRun(budget: nat, s: State, listing: seq<Job>, n: nat, now: int)
    requires budget > 0 && s.phase.Down? && WellKeyed(s.store) && IsListing(s.store, listing)
    requires n < |listing| && listing[n].state == Running
    ensures var run := [Boot(listing, budget)] + Resolving(listing, n, now) + [ReconcileSaveFails(false, now)];
      && Admissible(budget, s, run)
      && After(budget, s, run).phase.Down?
      && After(budget, s, run).store == ReconciledPrefix(budget, s.store, listing, n, now)
  {
    var run := [Boot(listing, budget)] + Resolving(listing, n, now);
    StartedRuns(budget, s, listing, n, now);
    assert listing[n..][0] == listing[n];
    OneStep(budget, After(budget, s, run), ReconcileSaveFails(false, now));
    RunsCompose(budget, s, run, [ReconcileSaveFails(false, now)]);
  }
}
