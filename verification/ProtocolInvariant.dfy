/**
  The invariant of the queue protocol, kept by every step: budgets bound the
  Process and Send calls, no job has two owners, and no write is lost. `budget` is
  any bound on the maxAttempts the daemon is ever started with.
 */
module ProtocolInvariant {
  import opened Receipts
  import opened Jobs
  import opened StoreSpec
  import opened Protocol

  /** copies * calls, unfolding one call at a time. */
  ghost function Allowance(copies: nat, calls: nat): nat {
    if calls == 0 then 0 else Allowance(copies, calls - 1) + copies
  }

  lemma {:induction false} AllowanceIsProduct(copies: nat, calls: nat)
    ensures Allowance(copies, calls) == copies * calls
  {
    if calls > 0 { AllowanceIsProduct(copies, calls - 1); }
  }

  ghost predicate JobOk(budget: nat, j: Job, calls: nat, sends: nat) {
    && j.attempts <= budget
    && (j.state == Pending || j.state == Running ==> j.attempts < budget)
    && calls <= j.attempts + (if j.state == Running then 1 else 0)
    && sends <= Allowance(EffectiveCopies(j.receipt), calls)
    && (j.state == Done ==> sends >= EffectiveCopies(j.receipt))
  }

  /** What a worker knows about the job it holds. */
  ghost predicate WorkerOk(budget: nat, k: Worker, calls: nat, sends: nat) {
    && k.written.state == Running
    && k.job.SameIdentity(k.written)
    && match k.pc {
         case Ready => k.job == k.written && calls <= k.job.attempts
         case Sleeping => k.job == k.written && calls <= k.job.attempts
         case Calling => CallingOk(k, calls, sends)
         case Saving(done) => SavingOk(budget, k, done, sends)
       }
  }

  ghost predicate CallingOk(k: Worker, calls: nat, sends: nat) {
    var copies := EffectiveCopies(k.job.receipt);
    && k.job.attempts == k.written.attempts + 1
    && k.job.state == Running
    && k.sent <= copies && k.sent <= sends
    && sends + copies - k.sent <= Allowance(copies, calls)
  }

  ghost predicate SavingOk(budget: nat, k: Worker, done: bool, sends: nat) {
    && k.job.attempts == k.written.attempts + 1
    && (done <==> k.job.state != Running)
    && (done ==> k.job.state == Done || k.job.state == Failed)
    && (!done ==> k.job.attempts < budget)
    && (k.job.state == Done ==> sends >= EffectiveCopies(k.job.receipt))
  }

  ghost predicate Counted(s: State) {
    WellKeyed(s.store) && s.calls.Keys == s.store.Keys && s.sends.Keys == s.store.Keys
  }

  ghost predicate JobsOk(budget: nat, s: State)
    requires Counted(s)
  {
    forall id | id in s.store :: JobOk(budget, s.store[id], s.calls[id], s.sends[id])
  }

  /** A worker's last written version is the one in the store: nothing else overwrote it. */
  ghost predicate Holds(budget: nat, s: State, k: Worker)
    requires Counted(s)
  {
    && k.job.id in s.store
    && s.store[k.job.id] == k.written
    && WorkerOk(budget, k, s.calls[k.job.id], s.sends[k.job.id])
  }

  ghost predicate WorkersOk(budget: nat, s: State)
    requires Counted(s)
  {
    && (!s.phase.Serving? ==> s.workers == map[])
    && (forall w | w in s.workers :: Holds(budget, s, s.workers[w]))
    && Exclusive(s.workers)
  }

  /** No job is held by two workers. */
  ghost predicate Exclusive(workers: map<nat, Worker>) {
    forall v, w | v in workers && w in workers && v != w :: workers[v].job.id != workers[w].job.id
  }

  /** The unprocessed rest of the listing is still what the store holds, and has every orphan. */
  ghost predicate ReconcileOk(s: State) {
    s.phase.Reconciling? ==>
      && (forall i | 0 <= i < |s.phase.todo| ::
            s.phase.todo[i].id in s.store && s.store[s.phase.todo[i].id] == s.phase.todo[i])
      && (forall i, j | 0 <= i < j < |s.phase.todo| :: s.phase.todo[i].id != s.phase.todo[j].id)
      && (forall id | id in s.store && s.store[id].state == Running ::
            exists i :: 0 <= i < |s.phase.todo| && s.phase.todo[i].id == id)
  }

  ghost predicate Inv(budget: nat, s: State) {
    && s.maxAttempts <= budget
    && Counted(s) && JobsOk(budget, s) && WorkersOk(budget, s) && ReconcileOk(s) && KeysSeparated(s.store)
  }

  lemma InitialOk(budget: nat)
    ensures Inv(budget, INITIAL)
  {}

  lemma BootOk(budget: nat, s: State, listing: seq<Job>, maxAttempts: nat)
    requires Inv(budget, s) && s.phase.Down? && IsListing(s.store, listing) && maxAttempts <= budget
    ensures Inv(budget, s.(phase := Reconciling(listing), maxAttempts := maxAttempts))
  {
    forall i, j | 0 <= i < j < |listing|
      ensures listing[i].id != listing[j].id
    {
      LessAsymmetric(listing[i].id, listing[j].id);
    }
    forall id | id in s.store && s.store[id].state == Running
      ensures exists i :: 0 <= i < |listing| && listing[i].id == id
    {
      var i :| 0 <= i < |listing| && listing[i] == s.store[id];
      assert listing[i].id == id;
    }
  }

  /** Dropping the head of the listing is safe once the store no longer has it Running. */
  lemma TailOk(s: State, m: Store)
    requires ReconcileOk(s) && AtJob(s) && m.Keys == s.store.Keys
    requires forall id | id in m && id != s.phase.todo[0].id :: m[id] == s.store[id]
    requires m[s.phase.todo[0].id].state != Running
    ensures ReconcileOk(s.(store := m, phase := Reconciling(s.phase.todo[1..])))
  {
    var todo := s.phase.todo;
    forall id | id in m && m[id].state == Running
      ensures exists i :: 0 <= i < |todo[1..]| && todo[1..][i].id == id
    {
      var i :| 0 <= i < |todo| && todo[i].id == id;
      assert i > 0;
      assert todo[1..][i - 1].id == id;
    }
  }

  lemma SameKeysSeparated(m: Store, m': Store)
    requires KeysSeparated(m) && m'.Keys == m.Keys
    requires forall id | id in m :: m'[id].key == m[id].key && m'[id].createdAt == m[id].createdAt
    ensures KeysSeparated(m')
  {}

  lemma ReconcileSaveOk(budget: nat, s: State, now: int)
    requires Inv(budget, s) && AtJob(s) && s.phase.todo[0].state == Running
    ensures Inv(budget, DoReconcileSave(s, now))
    ensures Inv(budget, DoReconcileSave(s, now).(phase := Down))
  {
    var s' := DoReconcileSave(s, now);
    var id := s.phase.todo[0].id;
    assert JobOk(budget, s.store[id], s.calls[id], s.sends[id]);
    TailOk(s, s'.store);
    SameKeysSeparated(s.store, s'.store);
  }

  /** `s'` differs from `s` in the record and counts of job `id` only. */
  ghost predicate ChangesOnly(s: State, s': State, id: string)
    requires Counted(s) && Counted(s')
  {
    && s'.phase == s.phase && s'.maxAttempts == s.maxAttempts
    && s'.store.Keys == s.store.Keys + {id}
    && (forall k | k in s.store && k != id ::
          s'.store[k] == s.store[k] && s'.calls[k] == s.calls[k] && s'.sends[k] == s.sends[k])
  }

  /** A worker that does not hold `id` does not notice a change of `id`. */
  lemma KeepsHolding(budget: nat, s: State, s': State, id: string, v: nat)
    requires Counted(s) && Counted(s') && ChangesOnly(s, s', id)
    requires v in s.workers && Holds(budget, s, s.workers[v]) && s.workers[v].job.id != id
    ensures Holds(budget, s', s.workers[v])
  {}

  lemma JobsKeepOk(budget: nat, s: State, s': State, id: string)
    requires Counted(s) && Counted(s') && ChangesOnly(s, s', id)
    requires JobsOk(budget, s) && JobOk(budget, s'.store[id], s'.calls[id], s'.sends[id])
    ensures JobsOk(budget, s')
  {
    forall k | k in s'.store
      ensures JobOk(budget, s'.store[k], s'.calls[k], s'.sends[k])
    {
      if k != id { assert JobOk(budget, s.store[k], s.calls[k], s.sends[k]); }
    }
  }

  /** A change of a job that no worker holds, while serving. */
  lemma FreeChangeOk(budget: nat, s: State, s': State, id: string)
    requires Inv(budget, s) && s.phase.Serving? && s'.workers == s.workers
    requires Counted(s') && ChangesOnly(s, s', id)
    requires forall w | w in s.workers :: s.workers[w].job.id != id
    requires JobOk(budget, s'.store[id], s'.calls[id], s'.sends[id])
    requires KeysSeparated(s'.store)
    ensures Inv(budget, s')
  {
    JobsKeepOk(budget, s, s', id);
    forall v | v in s'.workers
      ensures Holds(budget, s', s'.workers[v])
    {
      assert Holds(budget, s, s.workers[v]);
      KeepsHolding(budget, s, s', id, v);
    }
  }

  /** A job that is not Running is held by nobody. */
  lemma UnheldChangeOk(budget: nat, s: State, s': State, id: string)
    requires Inv(budget, s) && s.phase.Serving? && s'.workers == s.workers
    requires Counted(s') && ChangesOnly(s, s', id)
    requires id in s.store ==> s.store[id].state != Running
    requires JobOk(budget, s'.store[id], s'.calls[id], s'.sends[id])
    requires KeysSeparated(s'.store)
    ensures Inv(budget, s')
  {
    forall w | w in s.workers
      ensures s.workers[w].job.id != id
    {
      assert Holds(budget, s, s.workers[w]);
    }
    FreeChangeOk(budget, s, s', id);
  }

  /** Restarting the counts of a job no worker holds. */
  lemma ActivateOk(budget: nat, s: State, j: Job)
    requires budget > 0 && Inv(budget, s) && s.phase.Serving?
    requires j.state == Pending && j.attempts == 0
    requires j.id in s.store ==> s.store[j.id].state != Running
    requires KeysSeparated(Put(s.store, j))
    ensures Inv(budget, Activate(s, j))
  {
    ActivateChanges(s, j);
    UnheldChangeOk(budget, s, Activate(s, j), j.id);
  }

  lemma ActivateChanges(s: State, j: Job)
    requires Counted(s)
    ensures Counted(Activate(s, j)) && ChangesOnly(s, Activate(s, j), j.id)
  {}

  lemma EnqueueOk(budget: nat, s: State, j: Job, id: string, now: int)
    requires budget > 0 && Inv(budget, s) && s.phase.Serving?
    requires id !in s.store && j.attempts == 0 && j.key == ""
    ensures Inv(budget, Activate(s, Fresh(j, id, now)))
  {
    ActivateOk(budget, s, Fresh(j, id, now));
  }

  lemma EnqueueIdempotentOk(budget: nat, s: State, j: Job, pick: Option<string>, id: string, now: int)
    requires budget > 0 && Inv(budget, s) && s.phase.Serving?
    requires id !in s.store && j.attempts == 0 && IsLookup(s.store, j.key, now, pick)
    ensures Inv(budget, DoEnqueueIdempotent(s, j, pick, id, now))
  {
    ResolveKeepsKeysSeparated(s.store, j, pick, id, now);
    match pick
    case None => ActivateOk(budget, s, Fresh(j, id, now));
    case Some(found) =>
      if SameLogicalRequest(s.store[found], j) && s.store[found].state == Failed {
        ActivateOk(budget, s, Reactivated(s.store[found], now));
      }
  }

  lemma CancelOk(budget: nat, s: State, id: string, now: int)
    requires Inv(budget, s) && s.phase.Serving? && id in s.store && s.store[id].state == Pending
    ensures Inv(budget, s.(store := s.store[id := s.store[id].(state := Cancelled, updatedAt := now)]))
  {
    var s' := s.(store := s.store[id := s.store[id].(state := Cancelled, updatedAt := now)]);
    assert JobOk(budget, s.store[id], s.calls[id], s.sends[id]);
    SameKeysSeparated(s.store, s'.store);
    UnheldChangeOk(budget, s, s', id);
  }

  /** The store's half of a claim: a Pending job is held by nobody. */
  lemma MarkOk(budget: nat, s: State, id: string, now: int)
    requires Inv(budget, s) && s.phase.Serving?
    requires id in s.store && s.store[id].state == Pending
    ensures Inv(budget, s.(store := s.store[id := Claimed(s.store[id], now)]))
  {
    var s' := s.(store := s.store[id := Claimed(s.store[id], now)]);
    assert JobOk(budget, s.store[id], s.calls[id], s.sends[id]);
    SameKeysSeparated(s.store, s'.store);
    UnheldChangeOk(budget, s, s', id);
  }

  lemma ClaimOk(budget: nat, s: State, w: nat, id: string, now: int)
    requires Inv(budget, s) && s.phase.Serving? && w !in s.workers
    requires id in s.store && s.store[id].state == Pending
    ensures Inv(budget, DoClaim(s, w, id, now))
  {
    var j := Claimed(s.store[id], now);
    assert JobOk(budget, s.store[id], s.calls[id], s.sends[id]);
    MarkOk(budget, s, id, now);
    JoinOk(budget, s, s.(store := s.store[id := j]), w, j);
  }

  /** A claim that failed, applied or not, leaves at most a job for the next reconciliation. */
  lemma ClaimFailsOk(budget: nat, s: State, id: string, applied: bool, now: int)
    requires Inv(budget, s) && s.phase.Serving?
    requires id in s.store && s.store[id].state == Pending
    ensures Inv(budget, DoClaimFails(s, id, applied, now))
  {
    MarkOk(budget, s, id, now);
  }

  /** A worker joining with a job that was Pending just before. */
  lemma JoinOk(budget: nat, s: State, s': State, w: nat, j: Job)
    requires Inv(budget, s) && Inv(budget, s') && s'.phase.Serving? && w !in s.workers && s'.workers == s.workers
    requires j.id in s.store && s.store[j.id].state == Pending
    requires j.id in s'.store && s'.store[j.id] == j && j.state == Running && s'.calls[j.id] <= j.attempts
    ensures Inv(budget, s'.(workers := s'.workers[w := Worker(Ready, j, j, 0)]))
  {
    var s'' := s'.(workers := s'.workers[w := Worker(Ready, j, j, 0)]);
    forall v | v in s''.workers
      ensures Holds(budget, s'', s''.workers[v])
      ensures v != w ==> s''.workers[v].job.id != j.id
    {
      if v != w {
        assert Holds(budget, s, s.workers[v]);
        assert Holds(budget, s', s'.workers[v]);
      }
    }
  }

  /** A step of worker `w` that leaves the store alone and counts only on its own job. */
  lemma OwnStepOk(budget: nat, s: State, s': State, w: nat)
    requires Inv(budget, s) && w in s.workers && s'.phase == s.phase && s'.store == s.store
    requires s'.maxAttempts == s.maxAttempts
    requires w in s'.workers && s'.workers == s.workers[w := s'.workers[w]]
    requires Counted(s') && s'.workers[w].job.id == s.workers[w].job.id
    requires forall id | id in s.store && id != s.workers[w].job.id ::
               s'.calls[id] == s.calls[id] && s'.sends[id] == s.sends[id]
    requires Holds(budget, s', s'.workers[w])
    requires var id := s.workers[w].job.id; JobOk(budget, s.store[id], s'.calls[id], s'.sends[id])
    ensures Inv(budget, s')
  {
    forall v | v in s'.workers
      ensures Holds(budget, s', s'.workers[v])
    {
      if v != w { OthersHold(budget, s, s', s.workers[w].job.id, v, w); }
    }
    StillExclusive(s.workers, w, s'.workers[w]);
  }

  lemma StillExclusive(workers: map<nat, Worker>, w: nat, k: Worker)
    requires Exclusive(workers) && w in workers && k.job.id == workers[w].job.id
    ensures Exclusive(workers[w := k])
  {}

  /** Another worker's job is not this one's, so counting on it does not concern that worker. */
  lemma OthersHold(budget: nat, s: State, s': State, id: string, v: nat, w: nat)
    requires Counted(s) && Counted(s') && WorkersOk(budget, s) && s'.store == s.store
    requires v in s.workers && w in s.workers && v != w && s.workers[w].job.id == id
    requires forall k | k in s.store && k != id :: s'.calls[k] == s.calls[k] && s'.sends[k] == s.sends[k]
    ensures Holds(budget, s', s.workers[v])
  {
    assert Holds(budget, s, s.workers[v]);
  }

  lemma BeginAttemptOk(budget: nat, s: State, w: nat)
    requires Inv(budget, s) && At(s, w, Ready)
    ensures Inv(budget, DoBeginAttempt(s, w))
  {
    var id := s.workers[w].job.id;
    assert Holds(budget, s, s.workers[w]);
    assert JobOk(budget, s.store[id], s.calls[id], s.sends[id]);
    OwnStepOk(budget, s, DoBeginAttempt(s, w), w);
  }

  lemma SendCopyOk(budget: nat, s: State, w: nat)
    requires Inv(budget, s) && At(s, w, Calling)
    requires s.workers[w].sent < EffectiveCopies(s.workers[w].job.receipt)
    ensures Inv(budget, DoSendCopy(s, w))
  {
    var id := s.workers[w].job.id;
    assert Holds(budget, s, s.workers[w]);
    assert JobOk(budget, s.store[id], s.calls[id], s.sends[id]);
    OwnStepOk(budget, s, DoSendCopy(s, w), w);
  }

  lemma EndAttemptOk(budget: nat, s: State, w: nat, o: Outcome, now: int)
    requires Inv(budget, s) && At(s, w, Calling)
    requires o.Success? ==> s.workers[w].sent == EffectiveCopies(s.workers[w].job.receipt)
    ensures Inv(budget, DoEndAttempt(s, w, o, now))
  {
    var id := s.workers[w].job.id;
    assert Holds(budget, s, s.workers[w]);
    assert JobOk(budget, s.store[id], s.calls[id], s.sends[id]);
    OwnStepOk(budget, s, DoEndAttempt(s, w, o, now), w);
  }

  /** A worker that leaves takes its job out of every other worker's reach. */
  lemma LeaveOk(budget: nat, s: State, w: nat)
    requires Inv(budget, s) && w in s.workers && s.phase.Serving?
    ensures Inv(budget, s.(workers := s.workers - {w}))
  {
    var s' := s.(workers := s.workers - {w});
    forall v | v in s'.workers
      ensures Holds(budget, s', s'.workers[v])
    {
      assert Holds(budget, s, s.workers[v]);
    }
  }

  /** Writing worker `w`'s own job leaves every other worker's job alone. */
  lemma WriteOk(budget: nat, s: State, w: nat)
    requires Inv(budget, s) && AtSave(s, w)
    ensures Inv(budget, s.(store := Put(s.store, s.workers[w].job), workers := s.workers - {w}))
  {
    var k := s.workers[w];
    LeaveOk(budget, s, w);
    var t := s.(workers := s.workers - {w});
    var t' := t.(store := Put(s.store, k.job));
    assert Holds(budget, s, k);
    assert JobOk(budget, s.store[k.job.id], s.calls[k.job.id], s.sends[k.job.id]);
    SameKeysSeparated(s.store, t'.store);
    JobsKeepOk(budget, t, t', k.job.id);
    forall v | v in t'.workers
      ensures Holds(budget, t', t'.workers[v])
    {
      assert Holds(budget, t, t.workers[v]);
      KeepsHolding(budget, t, t', k.job.id, v);
    }
  }

  lemma SaveOk(budget: nat, s: State, w: nat)
    requires Inv(budget, s) && AtSave(s, w)
    ensures Inv(budget, DoSave(s, w))
  {
    var k := s.workers[w];
    WriteOk(budget, s, w);
    if !k.pc.done {
      var t := s.(store := Put(s.store, k.job), workers := s.workers - {w});
      var s' := DoSave(s, w);
      assert Holds(budget, s, k);
      forall v | v in s'.workers
        ensures Holds(budget, s', s'.workers[v])
      {
        if v != w { assert Holds(budget, t, t.workers[v]); }
      }
    }
  }

  lemma RepointOk(budget: nat, s: State, w: nat)
    requires Inv(budget, s) && At(s, w, Sleeping)
    ensures Inv(budget, Repoint(s, w, Ready))
  {
    var id := s.workers[w].job.id;
    assert Holds(budget, s, s.workers[w]);
    assert JobOk(budget, s.store[id], s.calls[id], s.sends[id]);
    OwnStepOk(budget, s, Repoint(s, w, Ready), w);
  }

  lemma StartupStepOk(budget: nat, s: State, a: Action)
    requires Inv(budget, s) && Enabled(s, a) && Within(budget, a)
    requires a.Boot? || a.ReconcileSkip? || a.ReconcileSave? || a.ReconcileSaveFails? || a.StartWorkers?
    ensures Inv(budget, Apply(s, a))
  {
    match a
    case Boot(listing, maxAttempts) => BootOk(budget, s, listing, maxAttempts);
    case ReconcileSkip => TailOk(s, s.store);
    case ReconcileSave(now) => ReconcileSaveOk(budget, s, now);
    case ReconcileSaveFails(_, now) => ReconcileSaveOk(budget, s, now);
    case StartWorkers =>
  }

  lemma ClientStepOk(budget: nat, s: State, a: Action)
    requires budget > 0 && Inv(budget, s) && Enabled(s, a)
    requires a.Enqueue? || a.EnqueueIdempotent? || a.Cancel?
    ensures Inv(budget, Apply(s, a))
  {
    match a
    case Enqueue(j, id, now) => EnqueueOk(budget, s, j, id, now);
    case EnqueueIdempotent(j, pick, id, now) => EnqueueIdempotentOk(budget, s, j, pick, id, now);
    case Cancel(id, now) => CancelOk(budget, s, id, now);
  }

  lemma AttemptStepOk(budget: nat, s: State, a: Action)
    requires Inv(budget, s) && Enabled(s, a)
    requires a.Claim? || a.ClaimFails? || a.BeginAttempt? || a.SendCopy? || a.EndAttempt?
    ensures Inv(budget, Apply(s, a))
  {
    match a
    case Claim(w, _, id, now) => ClaimOk(budget, s, w, id, now);
    case ClaimFails(_, id, applied, now) => ClaimFailsOk(budget, s, id, applied, now);
    case BeginAttempt(w) => BeginAttemptOk(budget, s, w);
    case SendCopy(w) => SendCopyOk(budget, s, w);
    case EndAttempt(w, o, now) => EndAttemptOk(budget, s, w, o, now);
  }

  lemma PersistStepOk(budget: nat, s: State, a: Action)
    requires Inv(budget, s) && Enabled(s, a)
    requires a.Save? || a.SaveFails? || a.Wake? || a.StopSleeping?
    ensures Inv(budget, Apply(s, a))
  {
    match a
    case Save(w) => SaveOk(budget, s, w);
    case SaveFails(w, applied) => WriteOk(budget, s, w); LeaveOk(budget, s, w);
    case Wake(w) => RepointOk(budget, s, w);
    case StopSleeping(w) => LeaveOk(budget, s, w);
  }

  lemma StepKeepsInv(budget: nat, s: State, a: Action)
    requires budget > 0 && Inv(budget, s) && Enabled(s, a) && Within(budget, a)
    ensures Inv(budget, Apply(s, a))
  {
    if a.Boot? || a.ReconcileSkip? || a.ReconcileSave? || a.ReconcileSaveFails? || a.StartWorkers? {
      StartupStepOk(budget, s, a);
    } else if a.Enqueue? || a.EnqueueIdempotent? || a.Cancel? {
      ClientStepOk(budget, s, a);
    } else if a.Claim? || a.ClaimFails? || a.BeginAttempt? || a.SendCopy? || a.EndAttempt? {
      AttemptStepOk(budget, s, a);
    } else if a.Save? || a.SaveFails? || a.Wake? || a.StopSleeping? {
      PersistStepOk(budget, s, a);
    }
  }
}
