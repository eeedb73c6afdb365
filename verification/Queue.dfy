/**
  The queue's own methods over the durable store: enqueueing, the per-printer
  claim-and-process call, its retry loop, and startup reconciliation.
 */
module Queues {
  import opened Receipts
  import opened Jobs
  import opened JobCells
  import opened StoreSpec
  import opened BoltStores
  import opened Protocol
  import opened RetryLoop

  // --------------------------------------------- reconciliation's specification

  /** Every Running job resolved, every other job left alone. */
  ghost function Reconciled(budget: nat, m: Store, now: int): Store {
    map id | id in m :: if m[id].state == Running then AfterInterruption(budget, m[id], now) else m[id]
  }

  /** The orphan is given another chance (`retried`), or its budget is exhausted. */
  predicate IsOrphan(budget: nat, j: Job, retried: bool) {
    j.state == Running && retried == (j.attempts + 1 < budget)
  }

  ghost function Orphans(budget: nat, m: Store, retried: bool): set<string> {
    set id | id in m && IsOrphan(budget, m[id], retried)
  }

  /** The job is the one found Running, with one more attempt and the interruption on record. */
  ghost predicate OneAttemptMore(budget: nat, found: Job, left: Job, now: int) {
    && left.SameIdentity(found) && left.attempts == found.attempts + 1
    && left.lastError == Interrupted(found.attempts + 1, budget) && left.updatedAt == now
  }

  /** Orphans with attempts left are Pending again, the others Failed, and no other job has changed. */
  ghost predicate OrphansResolved(budget: nat, m: Store, m': Store, now: int) {
    && m'.Keys == m.Keys
    && (forall id | id in Orphans(budget, m, true) :: m'[id].state == Pending && OneAttemptMore(budget, m[id], m'[id], now))
    && (forall id | id in Orphans(budget, m, false) :: m'[id].state == Failed && OneAttemptMore(budget, m[id], m'[id], now))
    && (forall id | id in m && m[id].state != Running :: m'[id] == m[id])
  }

  lemma ReconciledMeans(budget: nat, m: Store, now: int)
    ensures OrphansResolved(budget, m, Reconciled(budget, m, now), now)
    ensures Orphans(budget, m, true) !! Orphans(budget, m, false)
    ensures forall id | id in m && m[id].state == Running :: id in Orphans(budget, m, true) + Orphans(budget, m, false)
  {}

  /** A second reconciliation finds nothing to do. */
  lemma ReconcileIdempotent(budget: nat, m: Store, now: int, later: int)
    ensures Reconciled(budget, Reconciled(budget, m, now), later) == Reconciled(budget, m, now)
    ensures forall retried :: Orphans(budget, Reconciled(budget, m, now), retried) == {}
  {}

  /** The store when the first `n` listed jobs have been reconciled. */
  ghost function ReconciledPrefix(budget: nat, m: Store, listing: seq<Job>, n: nat, now: int): Store
    requires n <= |listing|
  {
    if n == 0 then m
    else
      var before := ReconciledPrefix(budget, m, listing, n - 1, now);
      var j := listing[n - 1];
      if j.state == Running then before[j.id := AfterInterruption(budget, j, now)] else before
  }

  ghost predicate Before(listing: seq<Job>, n: nat, id: string)
    requires n <= |listing|
  {
    exists i :: 0 <= i < n && listing[i].id == id
  }

  lemma {:induction false} PrefixKeys(budget: nat, m: Store, listing: seq<Job>, n: nat, now: int)
    requires IsListing(m, listing) && n <= |listing|
    ensures ReconciledPrefix(budget, m, listing, n, now).Keys == m.Keys
    decreases n
  {
    if n > 0 {
      PrefixKeys(budget, m, listing, n - 1, now);
      UpdateKeepsKeys(ReconciledPrefix(budget, m, listing, n - 1, now), listing[n - 1].id,
                      AfterInterruption(budget, listing[n - 1], now));
    }
  }

  lemma UpdateKeepsKeys(m: Store, id: string, j: Job)
    requires id in m
    ensures m[id := j].Keys == m.Keys
  {}

  /** The prefix resolves exactly the Running jobs listed before position `n`. */
  lemma {:induction false} PrefixMeaning(budget: nat, m: Store, listing: seq<Job>, n: nat, now: int, id: string)
    requires WellKeyed(m) && IsListing(m, listing) && n <= |listing| && id in m
    ensures var p := ReconciledPrefix(budget, m, listing, n, now);
      && id in p
      && p[id] == if m[id].state == Running && Before(listing, n, id) then AfterInterruption(budget, m[id], now) else m[id]
    decreases n
  {
    PrefixKeys(budget, m, listing, n, now);
    if n > 0 {
      PrefixMeaning(budget, m, listing, n - 1, now, id);
      var j := listing[n - 1];
      if id == j.id {
        assert j == m[id];
        assert Before(listing, n, id);
      } else {
        assert Before(listing, n, id) <==> Before(listing, n - 1, id);
      }
    }
  }

  /** Listed job `i` after the first `n` were reconciled: a Running one among them is resolved, any other as listed. */
  ghost predicate ListedResolved(budget: nat, listing: seq<Job>, n: nat, i: nat, m: Store, now: int)
    requires i < |listing|
  {
    var found := listing[i];
    && found.id in m
    && if i < n && found.state == Running then
         && OneAttemptMore(budget, found, m[found.id], now)
         && m[found.id].state == if found.attempts + 1 < budget then Pending else Failed
       else m[found.id] == found
  }

  lemma PrefixResolved(budget: nat, m: Store, listing: seq<Job>, n: nat, now: int)
    requires WellKeyed(m) && IsListing(m, listing) && n <= |listing|
    ensures forall i | 0 <= i < |listing| ::
              ListedResolved(budget, listing, n, i, ReconciledPrefix(budget, m, listing, n, now), now)
  {
    forall i | 0 <= i < |listing|
      ensures ListedResolved(budget, listing, n, i, ReconciledPrefix(budget, m, listing, n, now), now)
    {
      PrefixMeaning(budget, m, listing, n, now, listing[i].id);
      if Before(listing, n, listing[i].id) {
        var k :| 0 <= k < n && listing[k].id == listing[i].id;
        ListedOnce(m, listing, k, i);
      }
    }
  }

  lemma PrefixComplete(budget: nat, m: Store, listing: seq<Job>, now: int)
    requires WellKeyed(m) && IsListing(m, listing)
    ensures ReconciledPrefix(budget, m, listing, |listing|, now) == Reconciled(budget, m, now)
  {
    PrefixKeys(budget, m, listing, |listing|, now);
    forall id | id in m
      ensures ReconciledPrefix(budget, m, listing, |listing|, now)[id] == Reconciled(budget, m, now)[id]
    {
      PrefixMeaning(budget, m, listing, |listing|, now, id);
      var i :| 0 <= i < |listing| && listing[i] == m[id];
      assert listing[i].id == id;
    }
  }

  /** How many of the first `n` listed jobs are orphans of the given kind. */
  ghost function CountTo(budget: nat, listing: seq<Job>, n: nat, retried: bool): nat
    requires n <= |listing|
  {
    if n == 0 then 0
    else CountTo(budget, listing, n - 1, retried) + if IsOrphan(budget, listing[n - 1], retried) then 1 else 0
  }

  ghost function OrphansTo(budget: nat, listing: seq<Job>, n: nat, retried: bool): set<string>
    requires n <= |listing|
  {
    set i | 0 <= i < n && IsOrphan(budget, listing[i], retried) :: listing[i].id
  }

  lemma OrphansAdvance(budget: nat, m: Store, listing: seq<Job>, n: nat, retried: bool)
    requires IsListing(m, listing) && n < |listing|
    ensures listing[n].id !in OrphansTo(budget, listing, n, retried)
    ensures OrphansTo(budget, listing, n + 1, retried)
         == OrphansTo(budget, listing, n, retried)
            + if IsOrphan(budget, listing[n], retried) then {listing[n].id} else {}
  {
    if listing[n].id in OrphansTo(budget, listing, n, retried) {
      var i :| 0 <= i < n && listing[i].id == listing[n].id;
      ListedOnce(m, listing, i, n);
    }
  }

  lemma {:induction false} CountIsCardinality(budget: nat, m: Store, listing: seq<Job>, n: nat, retried: bool)
    requires IsListing(m, listing) && n <= |listing|
    ensures CountTo(budget, listing, n, retried) == |OrphansTo(budget, listing, n, retried)|
    decreases n
  {
    if n > 0 {
      CountIsCardinality(budget, m, listing, n - 1, retried);
      OrphansAdvance(budget, m, listing, n - 1, retried);
    }
  }

  /** Counting along the listing counts the jobs of the store. */
  lemma ListingCounts(budget: nat, m: Store, listing: seq<Job>, retried: bool)
    requires WellKeyed(m) && IsListing(m, listing)
    ensures CountTo(budget, listing, |listing|, retried) == |Orphans(budget, m, retried)|
  {
    CountIsCardinality(budget, m, listing, |listing|, retried);
    forall id | id in Orphans(budget, m, retried)
      ensures id in OrphansTo(budget, listing, |listing|, retried)
    {
      var i :| 0 <= i < |listing| && listing[i] == m[id];
      assert listing[i].id == id;
    }
    assert OrphansTo(budget, listing, |listing|, retried) == Orphans(budget, m, retried);
  }

  /** The loop on job `j` has done `events` of the trace `whole`, and the rest is still to come. */
  ghost predicate Midway(budget: nat, m: Store, contents: Store, whole: seq<Event>, events: seq<Event>,
                         j: Job, backoff: nat, env: Env, round: nat)
  {
    whole == events + Loop(budget, j, backoff, env, round) && contents == Written(m, events)
  }

  /** The loop has done the whole trace, the store holds its writes, and `ok` says that its last Save did not fail. */
  ghost predicate Finished(m: Store, contents: Store, whole: seq<Event>, events: seq<Event>, ok: bool) {
    whole == events && contents == Written(m, events) && events != [] && (ok <==> !events[|events| - 1].SaveFailed?)
  }

  /** Reconciliation has dealt with the first `n` listed jobs. */
  ghost predicate ReconciledTo(budget: nat, m: Store, contents: Store, listing: seq<Job>, n: nat, now: int,
                               retried: nat, failed: nat)
  {
    && n <= |listing|
    && contents == ReconciledPrefix(budget, m, listing, n, now)
    && retried == CountTo(budget, listing, n, true) && failed == CountTo(budget, listing, n, false)
  }

  /** One more when it is a hit. */
  function Tally(count: nat, hit: bool): nat {
    if hit then count + 1 else count
  }

  lemma NextReconciled(budget: nat, m: Store, contents: Store, listing: seq<Job>, n: nat, now: int, retried: nat, failed: nat)
    requires n < |listing| && ReconciledTo(budget, m, contents, listing, n, now, retried, failed)
    ensures listing[n].state != Running ==>
              ReconciledTo(budget, m, contents, listing, n + 1, now, retried, failed)
    ensures listing[n].state == Running ==>
              var retry := listing[n].attempts + 1 < budget;
              var j := AfterInterruption(budget, listing[n], now);
              && ReconciledTo(budget, m, contents[listing[n].id := j], listing, n + 1, now,
                              Tally(retried, retry), Tally(failed, !retry))
              && Tally(retried, retry) == CountTo(budget, listing, n + 1, true)
              && Tally(failed, !retry) == CountTo(budget, listing, n + 1, false)
  {}

  lemma ReconcileComplete(budget: nat, m: Store, contents: Store, listing: seq<Job>, now: int, retried: nat, failed: nat)
    requires WellKeyed(m) && IsListing(m, listing)
    requires ReconciledTo(budget, m, contents, listing, |listing|, now, retried, failed)
    ensures contents == Reconciled(budget, m, now)
    ensures retried == |Orphans(budget, m, true)| && failed == |Orphans(budget, m, false)|
  {
    PrefixComplete(budget, m, listing, now);
    ListingCounts(budget, m, listing, true);
    ListingCounts(budget, m, listing, false);
  }

  lemma LoopStarts(budget: nat, m: Store, j: Job, backoff: nat, env: Env) returns (whole: seq<Event>)
    ensures whole == Loop(budget, j, backoff, env, 0)
    ensures Midway(budget, m, m, whole, [], j, backoff, env, 0)
  {
    whole := Loop(budget, j, backoff, env, 0);
    assert [] + whole == whole;
  }

  lemma RoundWritten(budget: nat, m: Store, events: seq<Event>, j: Job, backoff: nat, env: Env, round: nat)
    ensures Written(m, events + Round(budget, j, backoff, env, round))
         == if env.commits(round) then Put(Written(m, events), Persisted(budget, j, env, round)) else Written(m, events)
  {
    var r := Round(budget, j, backoff, env, round);
    RoundWrites(budget, Written(m, events), j, backoff, env, round);
    WrittenConcat(m, events, r);
  }

  lemma LastEvent(budget: nat, events: seq<Event>, j: Job, backoff: nat, env: Env, round: nat)
    ensures var all := events + Round(budget, j, backoff, env, round);
      all != [] && (all[|all| - 1].SaveFailed? <==> !env.commits(round))
  {}

  lemma LoopRound(budget: nat, events: seq<Event>, j: Job, backoff: nat, env: Env, round: nat)
    ensures events + Loop(budget, j, backoff, env, round)
         == if LastRound(budget, j, env, round) then events + Round(budget, j, backoff, env, round)
            else events + Round(budget, j, backoff, env, round)
                 + Loop(budget, Persisted(budget, j, env, round), 2 * backoff, env, round + 1)
  {}

  /** A round takes the loop to its end or to the next round. */
  lemma RoundAdvances(budget: nat, m: Store, contents: Store, contents': Store, whole: seq<Event>, events: seq<Event>,
                      j: Job, backoff: nat, env: Env, round: nat) returns (events': seq<Event>)
    requires Midway(budget, m, contents, whole, events, j, backoff, env, round)
    requires contents' == if env.commits(round) then Put(contents, Persisted(budget, j, env, round)) else contents
    ensures if LastRound(budget, j, env, round) then Finished(m, contents', whole, events', env.commits(round))
            else Midway(budget, m, contents', whole, events', Persisted(budget, j, env, round), 2 * backoff, env, round + 1)
  {
    events' := events + Round(budget, j, backoff, env, round);
    RoundWritten(budget, m, events, j, backoff, env, round);
    LastEvent(budget, events, j, backoff, env, round);
    LoopRound(budget, events, j, backoff, env, round);
  }

  // ------------------------------------------------------------------ the queue

  class Queue {
    const store: BoltStore
    const maxAttempts: nat
    const baseBackoff: nat

    constructor (store: BoltStore, maxAttempts: nat, baseBackoff: nat)
      ensures this.store == store && this.maxAttempts == maxAttempts && this.baseBackoff == baseBackoff
    {
      this.store, this.maxAttempts, this.baseBackoff := store, maxAttempts, baseBackoff;
    }

    method Enqueue(j: JobCell, freshId: Option<string>, now: int, commits: bool) returns (ok: bool)
      requires store.Valid()
      modifies j, store
      ensures store.Valid() && ok == (commits && freshId.Some?)
      ensures store.contents == if ok then Put(old(store.contents), Fresh(old(j.Value()), freshId.value, now))
                                else old(store.contents)
    {
      if freshId == None {
        return false;
      }
      j.id, j.state := freshId.value, Pending;
      j.createdAt, j.updatedAt := now, now;
      ok := store.Save(j, commits);
    }

    /** Counts and settles one attempt on the record itself. */
    method SettleAttempt(next: JobCell, outcome: Outcome, now: int) returns (done: bool)
      modifies next
      ensures done == IsFinal(maxAttempts, RetryLoop.Counted(old(next.Value())), outcome)
      ensures next.Value() == AfterAttempt(maxAttempts, RetryLoop.Counted(old(next.Value())), outcome, now)
    {
      next.attempts := next.attempts + 1;
      done := !outcome.Transient? || next.attempts >= maxAttempts;
      if done {
        if !outcome.Success? {
          next.state := Failed;
          next.lastError := ProcessError(outcome.message);
        } else {
          next.state := Done;
        }
      }
      next.updatedAt := now;
    }

    /** One attempt, settled and persisted. */
    method Attempt(next: JobCell, env: Env, round: nat) returns (saved: bool, done: bool)
      requires store.Valid()
      modifies next, store
      ensures store.Valid()
      ensures next.Value() == Persisted(maxAttempts, old(next.Value()), env, round)
      ensures saved == env.commits(round) && done == IsFinal(maxAttempts, Counted(old(next.Value())), env.process(round))
      ensures store.contents == if saved then Put(old(store.contents), next.Value()) else old(store.contents)
    {
      done := SettleAttempt(next, env.process(round), env.clock(round));
      saved := store.Save(next, env.commits(round));
    }

    /**
      The body shared by every way of claiming a job: attempt, persist, back off,
      until the job is settled, a Save fails or the wait is cancelled.
     */
    method RunClaimedJob(next: JobCell, env: Env) returns (ok: bool, ghost events: seq<Event>)
      requires store.Valid()
      modifies next, store
      ensures store.Valid()
      ensures Finished(old(store.contents), store.contents, Loop(maxAttempts, old(next.Value()), baseBackoff, env, 0), events, ok)
    {
      var backoff := baseBackoff;
      var round := 0;
      ghost var whole := LoopStarts(maxAttempts, store.contents, next.Value(), baseBackoff, env);
      events := [];
      while true
        invariant store.Valid()
        invariant Midway(maxAttempts, old(store.contents), store.contents, whole, events, next.Value(), backoff, env, round)
        decreases if next.attempts < maxAttempts then maxAttempts - next.attempts else 0
      {
        ghost var before, contents := next.Value(), store.contents;
        var saved, done := Attempt(next, env, round);
        events := RoundAdvances(maxAttempts, old(store.contents), contents, store.contents, whole, events,
                                before, backoff, env, round);
        if !saved || done || env.cancelled(round) {
          return saved, events;
        }
        backoff := backoff * 2;
        round := round + 1;
      }
    }

    /** Claims the least-ID pending job of `printer` and runs it to its end. */
    method ProcessNextForPrinter(printer: string, now: int, commits: bool, env: Env)
      returns (ok: bool, claimed: Option<string>, ghost events: seq<Event>)
      requires store.Valid()
      modifies store
      ensures store.Valid()
      ensures claimed == None ==> store.contents == old(store.contents)
      ensures claimed == None && ok ==> NothingToClaim(old(store.contents), Some(printer))
      ensures claimed.Some? ==>
                && IsNext(old(store.contents), Some(printer), claimed.value)
                && old(store.contents)[claimed.value].state == Pending && old(store.contents)[claimed.value].printer == printer
                && var j := Claimed(old(store.contents)[claimed.value], now);
                   && events == Loop(maxAttempts, j, baseBackoff, env, 0)
                   && store.contents == Written(old(store.contents)[claimed.value := j], events)
    {
      var next, found := store.ClaimNextPending(printer, now, commits);
      if next == null {
        return found, None, [];
      }
      claimed := Some(next.id);
      ok, events := RunClaimedJob(next, env);
    }

    /** One orphan resolved and saved. */
    method ResolveOrphan(orphan: Job, now: int, commits: bool) returns (saved: bool, retry: bool)
      requires store.Valid()
      modifies store
      ensures store.Valid() && saved == commits && retry == (orphan.attempts + 1 < maxAttempts)
      ensures store.contents == if saved then old(store.contents)[orphan.id := AfterInterruption(maxAttempts, orphan, now)]
                                else old(store.contents)
      ensures saved ==> orphan.id in store.contents
                        && OneAttemptMore(maxAttempts, orphan, store.contents[orphan.id], now)
                        && store.contents[orphan.id].state == if retry then Pending else Failed
    {
      var j := new JobCell(orphan);
      j.attempts := j.attempts + 1;
      j.lastError := Interrupted(j.attempts, maxAttempts);
      retry := j.attempts < maxAttempts;
      if retry {
        j.state := Pending;
      } else {
        j.state := Failed;
      }
      j.updatedAt := now;
      saved := store.Save(j, commits);
    }

    /** The loop over the listed jobs. */
    method ReconcileListed(jobs: seq<Job>, now: int, commits: nat -> bool)
      returns (retried: nat, failed: nat, ok: bool, ghost resolved: nat)
      requires store.Valid()
      modifies store
      ensures store.Valid() && resolved <= |jobs|
      ensures store.contents == ReconciledPrefix(maxAttempts, old(store.contents), jobs, resolved, now)
      ensures ok ==> resolved == |jobs|
      ensures !ok ==> resolved < |jobs| && jobs[resolved].state == Running
      ensures var counted := if ok then resolved else resolved + 1;
        retried == CountTo(maxAttempts, jobs, counted, true) && failed == CountTo(maxAttempts, jobs, counted, false)
    {
      retried, failed := 0, 0;
      var saves := 0;
      var i := 0;
      while i < |jobs|
        invariant 0 <= i <= |jobs| && store.Valid()
        invariant ReconciledTo(maxAttempts, old(store.contents), store.contents, jobs, i, now, retried, failed)
      {
        var j := jobs[i];
        NextReconciled(maxAttempts, old(store.contents), store.contents, jobs, i, now, retried, failed);
        if j.state == Running {
          var saved, retry := ResolveOrphan(j, now, commits(saves));
          retried, failed := Tally(retried, retry), Tally(failed, !retry);
          saves := saves + 1;
          if !saved {
            ok, resolved := false, i;
            return;
          }
        }
        i := i + 1;
      }
      ok, resolved := true, i;
    }

    /**
      Resolves every job a previous process left Running. `commits` says which
      Save calls, counted from 0, succeed; the first failure ends the pass, with
      the jobs listed before it resolved and no other job touched.
     */
    method Reconcile(now: int, commits: nat -> bool)
      returns (retried: nat, failed: nat, ok: bool, ghost listing: seq<Job>, ghost resolved: nat)
      requires store.Valid()
      modifies store
      ensures store.Valid() && IsListing(old(store.contents), listing) && resolved <= |listing|
      ensures store.contents == ReconciledPrefix(maxAttempts, old(store.contents), listing, resolved, now)
      ensures ok ==>
                && store.contents == Reconciled(maxAttempts, old(store.contents), now)
                && OrphansResolved(maxAttempts, old(store.contents), store.contents, now)
                && retried == |Orphans(maxAttempts, old(store.contents), true)|
                && failed == |Orphans(maxAttempts, old(store.contents), false)|
      ensures !ok ==> resolved < |listing| && listing[resolved].state == Running
      ensures forall i | 0 <= i < |listing| :: ListedResolved(maxAttempts, listing, resolved, i, store.contents, now)
      ensures !ok ==> retried == CountTo(maxAttempts, listing, resolved + 1, true)
                      && failed == CountTo(maxAttempts, listing, resolved + 1, false)
    {
      var jobs := store.List();
      listing := jobs;
      retried, failed, ok, resolved := ReconcileListed(jobs, now, commits);
      PrefixResolved(maxAttempts, old(store.contents), jobs, resolved, now);
      if ok {
        ReconcileComplete(maxAttempts, old(store.contents), store.contents, jobs, now, retried, failed);
        ReconciledMeans(maxAttempts, old(store.contents), now);
      }
    }
  }
}
