/**
  The queue does not work forever: without new activations any schedule with any
  number of crashes and restarts makes finitely many claim, attempt and
  reconciliation writes.
 */
module ProtocolTermination {
  import opened Receipts
  import opened Jobs
  import opened StoreSpec
  import opened Protocol
  import opened ProtocolInvariant
  import opened ProtocolRuns

  /** The writes a job can still cause: two per attempt left, one to leave Pending. */
  ghost function Weight(budget: nat, j: Job): nat {
    if j.attempts > budget then 0
    else if j.state == Pending then 2 * (budget - j.attempts) + 1
    else if j.state == Running then 2 * (budget - j.attempts)
    else 0
  }

  ghost function Potential(budget: nat, m: Store): nat
    decreases |m|
  {
    if m == map[] then 0
    else
      var id :| id in m;
      Weight(budget, m[id]) + Potential(budget, m - {id})
  }

  lemma {:induction false} PotentialSplits(budget: nat, m: Store, id: string)
    requires id in m
    ensures Potential(budget, m) == Weight(budget, m[id]) + Potential(budget, m - {id})
    decreases |m|
  {
    var k :| k in m && Potential(budget, m) == Weight(budget, m[k]) + Potential(budget, m - {k});
    if k != id {
      PotentialSplits(budget, m - {k}, id);
      PotentialSplits(budget, m - {id}, k);
      assert m - {k} - {id} == m - {id} - {k};
    }
  }

  lemma PotentialOfUpdate(budget: nat, m: Store, id: string, j: Job)
    ensures Potential(budget, m[id := j])
         == Potential(budget, m) + Weight(budget, j) - (if id in m then Weight(budget, m[id]) else 0)
  {
    PotentialSplits(budget, m[id := j], id);
    if id in m {
      PotentialSplits(budget, m, id);
      assert m[id := j] - {id} == m - {id};
    } else {
      assert m[id := j] - {id} == m;
    }
  }

  /** The step persists a claim, an attempt or a reconciliation. */
  ghost predicate IsWork(a: Action) {
    match a
    case Claim(_, _, _, _) => true
    case ClaimFails(_, _, applied, _) => applied
    case Save(_) => true
    case SaveFails(_, applied) => applied
    case ReconcileSave(_) => true
    case ReconcileSaveFails(applied, _) => applied
    case _ => false
  }

  ghost predicate IsActivation(s: State, a: Action) {
    a.Enqueue? || (a.EnqueueIdempotent? && (a.pick.Some? ==> Activates(s, a, a.pick.value)))
  }

  lemma ClaimWorks(budget: nat, s: State, w: nat, id: string, now: int)
    requires Inv(budget, s) && id in s.store && s.store[id].state == Pending
    ensures Potential(budget, DoClaim(s, w, id, now).store) < Potential(budget, s.store)
  {
    assert JobOk(budget, s.store[id], s.calls[id], s.sends[id]);
    PotentialOfUpdate(budget, s.store, id, Claimed(s.store[id], now));
  }

  lemma SaveWorks(budget: nat, s: State, w: nat)
    requires Inv(budget, s) && AtSave(s, w)
    ensures Potential(budget, Put(s.store, s.workers[w].job)) < Potential(budget, s.store)
  {
    var k := s.workers[w];
    assert Holds(budget, s, k);
    assert JobOk(budget, s.store[k.job.id], s.calls[k.job.id], s.sends[k.job.id]);
    PotentialOfUpdate(budget, s.store, k.job.id, k.job);
  }

  lemma ReconcileWorks(budget: nat, s: State, now: int)
    requires Inv(budget, s) && AtJob(s) && s.phase.todo[0].state == Running
    ensures Potential(budget, DoReconcileSave(s, now).store) < Potential(budget, s.store)
  {
    var j := s.phase.todo[0];
    assert JobOk(budget, s.store[j.id], s.calls[j.id], s.sends[j.id]);
    PotentialOfUpdate(budget, s.store, j.id, AfterInterruption(s.maxAttempts, j, now));
  }

  /** Every working step lowers the potential. */
  lemma WorkLowersPotential(budget: nat, s: State, a: Action)
    requires Inv(budget, s) && Enabled(s, a) && IsWork(a)
    ensures Potential(budget, Apply(s, a).store) < Potential(budget, s.store)
  {
    match a
    case Claim(w, _, id, now) => ClaimWorks(budget, s, w, id, now);
    case ClaimFails(_, id, _, now) => ClaimWorks(budget, s, 0, id, now);
    case Save(w) => SaveWorks(budget, s, w);
    case SaveFails(w, _) => SaveWorks(budget, s, w);
    case ReconcileSave(now) => ReconcileWorks(budget, s, now);
    case ReconcileSaveFails(_, now) => ReconcileWorks(budget, s, now);
  }

  lemma EnqueueAddsLittle(budget: nat, s: State, a: Action)
    requires Inv(budget, s) && Enabled(s, a) && (a.Enqueue? || a.EnqueueIdempotent?)
    ensures Potential(budget, Apply(s, a).store)
         <= Potential(budget, s.store) + (if IsActivation(s, a) then 2 * budget + 1 else 0)
  {
    match a
    case Enqueue(j, id, now) => PotentialOfUpdate(budget, s.store, id, Fresh(j, id, now));
    case EnqueueIdempotent(j, pick, id, now) =>
      if pick.Some? {
        PotentialOfUpdate(budget, s.store, pick.value, Reactivated(s.store[pick.value], now));
      } else {
        PotentialOfUpdate(budget, s.store, id, Fresh(j, id, now));
      }
  }

  lemma CancelAddsNothing(budget: nat, s: State, id: string, now: int)
    requires id in s.store
    ensures Potential(budget, s.store[id := s.store[id].(state := Cancelled, updatedAt := now)]) <= Potential(budget, s.store)
  {
    PotentialOfUpdate(budget, s.store, id, s.store[id].(state := Cancelled, updatedAt := now));
  }

  lemma OtherStepKeepsStore(budget: nat, s: State, a: Action)
    requires Enabled(s, a) && !IsWork(a) && !a.Enqueue? && !a.EnqueueIdempotent? && !a.Cancel?
    ensures Apply(s, a).store == s.store
  {}

  ghost function Works(run: seq<Action>): nat {
    if run == [] then 0 else (if IsWork(run[0]) then 1 else 0) + Works(run[1..])
  }

  ghost function AllActivations(budget: nat, s: State, run: seq<Action>): nat
    requires Admissible(budget, s, run)
    decreases |run|
  {
    if run == [] then 0
    else (if IsActivation(s, run[0]) then 1 else 0)
         + AllActivations(budget, Apply(s, run[0]), run[1..])
  }

  lemma StepPays(budget: nat, s: State, a: Action)
    requires Inv(budget, s) && Enabled(s, a)
    ensures (if IsWork(a) then 1 else 0) + Potential(budget, Apply(s, a).store)
         <= Potential(budget, s.store) + (if IsActivation(s, a) then 2 * budget + 1 else 0)
  {
    if IsWork(a) {
      WorkLowersPotential(budget, s, a);
    } else if a.Enqueue? || a.EnqueueIdempotent? {
      EnqueueAddsLittle(budget, s, a);
    } else if a.Cancel? {
      CancelAddsNothing(budget, s, a.id, a.now);
    } else {
      OtherStepKeepsStore(budget, s, a);
    }
  }

  /** What a run has written and can still write is paid for by its activations. */
  ghost predicate Paid(budget: nat, share: nat, s: State, run: seq<Action>)
    requires Admissible(budget, s, run)
  {
    Works(run) + Potential(budget, After(budget, s, run).store)
    <= Potential(budget, s.store) + Allowance(share, AllActivations(budget, s, run))
  }

  lemma FirstPays(budget: nat, share: nat, s: State, run: seq<Action>)
    requires budget > 0 && share == 2 * budget + 1 && Inv(budget, s) && Admissible(budget, s, run) && run != []
    requires Paid(budget, share, Apply(s, run[0]), run[1..])
    ensures Paid(budget, share, s, run)
  {
    StepPays(budget, s, run[0]);
  }

  lemma {:induction false} RunPays(budget: nat, share: nat, s: State, run: seq<Action>)
    requires budget > 0 && share == 2 * budget + 1 && Inv(budget, s) && Admissible(budget, s, run)
    ensures Paid(budget, share, s, run)
    decreases |run|
  {
    if run != [] {
      StepKeepsInv(budget, s, run[0]);
      RunPays(budget, share, Apply(s, run[0]), run[1..]);
      FirstPays(budget, share, s, run);
    }
  }

  /**
    A run makes at most 2 * `budget` + 1 working writes per activation; in
    particular finitely many however often the daemon crashes and restarts.
   */
  lemma FinitelyManyWrites(budget: nat, run: seq<Action>)
    requires budget > 0 && Admissible(budget, INITIAL, run)
    ensures Works(run) <= (2 * budget + 1) * AllActivations(budget, INITIAL, run)
  {
    InitialOk(budget);
    RunPays(budget, 2 * budget + 1, INITIAL, run);
    AllowanceIsProduct(2 * budget + 1, AllActivations(budget, INITIAL, run));
  }
}
