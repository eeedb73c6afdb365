/**
  What holds over whole runs of the queue protocol, from an empty store through
  any number of crashes, restarts, failed Saves, shutdowns and clients.
 */
module ProtocolRuns {
  import opened Receipts
  import opened Jobs
  import opened StoreSpec
  import opened Protocol
  import opened ProtocolInvariant

  lemma {:induction false} RunKeepsInv(budget: nat, s: State, run: seq<Action>)
    requires budget > 0 && Inv(budget, s) && Admissible(budget, s, run)
    ensures Inv(budget, After(budget, s, run))
    decreases |run|
  {
    if run != [] {
      StepKeepsInv(budget, s, run[0]);
      RunKeepsInv(budget, Apply(s, run[0]), run[1..]);
    }
  }

  /** Every run of the daemon begins with an empty store. */
  lemma ReachableOk(budget: nat, run: seq<Action>)
    requires budget > 0 && Admissible(budget, INITIAL, run)
    ensures Inv(budget, After(budget, INITIAL, run))
  {
    InitialOk(budget);
    RunKeepsInv(budget, INITIAL, run);
  }

  // ------------------------------------------------------ bounded attempts

  /** The step gives job `id` a fresh budget: it creates it, or revives it from Failed. */
  ghost predicate Activates(s: State, a: Action, id: string) {
    match a
    case Enqueue(_, created, _) => created == id
    case EnqueueIdempotent(j, pick, created, _) =>
      if pick == None then created == id
      else pick.value == id && id in s.store && SameLogicalRequest(s.store[id], j) && s.store[id].state == Failed
    case _ => false
  }

  /** The step begins a Process call for job `id`. */
  ghost predicate Calls(s: State, a: Action, id: string) {
    a.BeginAttempt? && a.w in s.workers && s.workers[a.w].job.id == id
  }

  /** The step sends one copy of job `id`. */
  ghost predicate Sends(s: State, a: Action, id: string) {
    a.SendCopy? && a.w in s.workers && s.workers[a.w].job.id == id
  }

  ghost function Activations(budget: nat, s: State, run: seq<Action>, id: string): nat
    requires Admissible(budget, s, run)
    decreases |run|
  {
    if run == [] then 0
    else (if Activates(s, run[0], id) then 1 else 0)
         + Activations(budget, Apply(s, run[0]), run[1..], id)
  }

  ghost function ProcessCalls(budget: nat, s: State, run: seq<Action>, id: string): nat
    requires Admissible(budget, s, run)
    decreases |run|
  {
    if run == [] then 0
    else (if Calls(s, run[0], id) then 1 else 0)
         + ProcessCalls(budget, Apply(s, run[0]), run[1..], id)
  }

  ghost function SendCalls(budget: nat, s: State, run: seq<Action>, id: string): nat
    requires Admissible(budget, s, run)
    decreases |run|
  {
    if run == [] then 0
    else (if Sends(s, run[0], id) then 1 else 0)
         + SendCalls(budget, Apply(s, run[0]), run[1..], id)
  }

  /** What `counts` leaves of `limit` for job `id` in its current activation. */
  ghost function Left(limit: nat, counts: map<string, nat>, id: string): int {
    if id in counts then limit - counts[id] else 0
  }

  /** A step restores a whole limit or spends exactly what it counts. */
  ghost predicate Spends(limit: nat, before: map<string, nat>, after: map<string, nat>, id: string,
                         restored: bool, spent: bool)
  {
    if restored then Left(limit, after, id) == limit && !spent
    else Left(limit, after, id) == Left(limit, before, id) - (if spent then 1 else 0)
  }

  lemma EnqueueSpends(limit: nat, s: State, j: Job, id: string)
    ensures var s' := Activate(s, j);
      && Spends(limit, s.calls, s'.calls, id, j.id == id, false)
      && Spends(limit, s.sends, s'.sends, id, j.id == id, false)
  {}

  lemma EnqueueIdempotentSpends(limit: nat, s: State, a: Action, id: string)
    requires WellKeyed(s.store) && Enabled(s, a) && a.EnqueueIdempotent?
    ensures var s' := DoEnqueueIdempotent(s, a.newJob, a.pick, a.id, a.now);
      && Spends(limit, s.calls, s'.calls, id, Activates(s, a, id), false)
      && Spends(limit, s.sends, s'.sends, id, Activates(s, a, id), false)
  {
    match a.pick
    case None =>
    case Some(found) =>
      if SameLogicalRequest(s.store[found], a.newJob) && s.store[found].state == Failed {
        assert Reactivated(s.store[found], a.now).state == Pending;
        assert s.store[found := Reactivated(s.store[found], a.now)][found] != s.store[found];
      }
  }

  lemma ClientStepSpends(budget: nat, limit: nat, s: State, a: Action, id: string)
    requires Inv(budget, s) && Enabled(s, a) && (a.Enqueue? || a.EnqueueIdempotent?)
    ensures Spends(limit, s.calls, Apply(s, a).calls, id, Activates(s, a, id), Calls(s, a, id))
    ensures Spends(limit, s.sends, Apply(s, a).sends, id, Activates(s, a, id), Sends(s, a, id))
  {
    if a.Enqueue? {
      EnqueueSpends(limit, s, Fresh(a.newJob, a.id, a.now), id);
    } else {
      EnqueueIdempotentSpends(limit, s, a, id);
    }
  }

  lemma WorkerStepSpends(budget: nat, limit: nat, s: State, a: Action, id: string)
    requires Inv(budget, s) && Enabled(s, a) && (a.BeginAttempt? || a.SendCopy?)
    ensures Spends(limit, s.calls, Apply(s, a).calls, id, Activates(s, a, id), Calls(s, a, id))
    ensures Spends(limit, s.sends, Apply(s, a).sends, id, Activates(s, a, id), Sends(s, a, id))
  {
    assert Holds(budget, s, s.workers[a.w]);
  }

  lemma OtherStepKeepsCounts(budget: nat, s: State, a: Action)
    requires Enabled(s, a)
    requires !a.Enqueue? && !a.EnqueueIdempotent? && !a.BeginAttempt? && !a.SendCopy?
    ensures Apply(s, a).calls == s.calls && Apply(s, a).sends == s.sends
  {}

  lemma StepSpends(budget: nat, limit: nat, s: State, a: Action, id: string)
    requires Inv(budget, s) && Enabled(s, a)
    ensures Spends(limit, s.calls, Apply(s, a).calls, id, Activates(s, a, id), Calls(s, a, id))
    ensures Spends(limit, s.sends, Apply(s, a).sends, id, Activates(s, a, id), Sends(s, a, id))
  {
    if a.Enqueue? || a.EnqueueIdempotent? {
      ClientStepSpends(budget, limit, s, a, id);
    } else if a.BeginAttempt? || a.SendCopy? {
      WorkerStepSpends(budget, limit, s, a, id);
    } else {
      OtherStepKeepsCounts(budget, s, a);
    }
  }

  lemma BudgetsBound(budget: nat, s: State, id: string)
    requires Inv(budget, s)
    ensures 0 <= Left(budget, s.calls, id) <= budget
    ensures 0 <= Left(100 * budget, s.sends, id) <= 100 * budget
  {
    if id in s.store {
      var j := s.store[id];
      assert JobOk(budget, j, s.calls[id], s.sends[id]);
      AllowanceIsProduct(EffectiveCopies(j.receipt), s.calls[id]);
      assert s.calls[id] <= budget;
      ProductMonotone(EffectiveCopies(j.receipt), MAX_COPIES, s.calls[id], budget);
    }
  }

  lemma ProductMonotone(a: nat, b: nat, c: nat, d: nat)
    requires a <= b && c <= d
    ensures a * c <= b * d
  {
    assert a * c <= b * c;
    assert b * c <= b * d;
  }

  /** The first step of a run, taken apart from the rest. */
  lemma FirstStep(budget: nat, limit: nat, s: State, run: seq<Action>, id: string)
    returns (s': State, restored: nat, called: nat, sent: nat)
    requires budget > 0 && Inv(budget, s) && Admissible(budget, s, run) && run != []
    ensures Inv(budget, s') && Admissible(budget, s', run[1..]) && restored <= 1 && called <= 1 && sent <= 1
    ensures Activations(budget, s, run, id) == restored + Activations(budget, s', run[1..], id)
    ensures ProcessCalls(budget, s, run, id) == called + ProcessCalls(budget, s', run[1..], id)
    ensures SendCalls(budget, s, run, id) == sent + SendCalls(budget, s', run[1..], id)
    ensures Spends(limit, s.calls, s'.calls, id, restored == 1, called == 1)
    ensures Spends(limit, s.sends, s'.sends, id, restored == 1, sent == 1)
  {
    var a := run[0];
    s' := Apply(s, a);
    StepKeepsInv(budget, s, a);
    StepSpends(budget, limit, s, a, id);
    restored := if Activates(s, a, id) then 1 else 0;
    called := if Calls(s, a, id) then 1 else 0;
    sent := if Sends(s, a, id) then 1 else 0;
  }

  lemma {:induction false} RunSpendsCalls(budget: nat, s: State, run: seq<Action>, id: string)
    requires budget > 0 && Inv(budget, s) && Admissible(budget, s, run)
    ensures ProcessCalls(budget, s, run, id)
         <= Allowance(budget, Activations(budget, s, run, id)) + Left(budget, s.calls, id)
    decreases |run|
  {
    BudgetsBound(budget, s, id);
    if run != [] {
      var s', restored, called, _ := FirstStep(budget, budget, s, run, id);
      RunSpendsCalls(budget, s', run[1..], id);
    }
  }

  lemma {:induction false} RunSpendsSends(budget: nat, limit: nat, s: State, run: seq<Action>, id: string)
    requires budget > 0 && limit == 100 * budget && Inv(budget, s) && Admissible(budget, s, run)
    ensures SendCalls(budget, s, run, id)
         <= Allowance(limit, Activations(budget, s, run, id)) + Left(limit, s.sends, id)
    decreases |run|
  {
    BudgetsBound(budget, s, id);
    if run != [] {
      var s', restored, _, sent := FirstStep(budget, limit, s, run, id);
      RunSpendsSends(budget, limit, s', run[1..], id);
    }
  }

  /**
    However the daemon crashes, restarts, shuts down or fails to save, and however
    its maxAttempts changes within `budget` from start to start, Process is called for
    a job at most `budget` times per activation, and at most 100 * `budget` sends
    reach its printer per activation.
   */
  lemma CallsPerActivation(budget: nat, run: seq<Action>, id: string)
    requires budget > 0 && Admissible(budget, INITIAL, run)
    ensures var n := Activations(budget, INITIAL, run, id);
      && ProcessCalls(budget, INITIAL, run, id) <= budget * n
      && SendCalls(budget, INITIAL, run, id) <= MAX_COPIES * budget * n
  {
    InitialOk(budget);
    RunSpendsCalls(budget, INITIAL, run, id);
    RunSpendsSends(budget, MAX_COPIES * budget, INITIAL, run, id);
    AllowanceIsProduct(budget, Activations(budget, INITIAL, run, id));
    AllowanceIsProduct(MAX_COPIES * budget, Activations(budget, INITIAL, run, id));
  }

  /** A job is only ever recorded Done once every copy was sent in this activation. */
  lemma DoneWasDelivered(budget: nat, run: seq<Action>, id: string)
    requires budget > 0 && Admissible(budget, INITIAL, run)
    ensures var s := After(budget, INITIAL, run);
      id in s.store && s.store[id].state == Done ==>
        id in s.sends && s.sends[id] >= EffectiveCopies(s.store[id].receipt)
  {
    ReachableOk(budget, run);
    var s := After(budget, INITIAL, run);
    if id in s.store { assert JobOk(budget, s.store[id], s.calls[id], s.sends[id]); }
  }

  // -------------------------------------------------------------- ownership

  /** Two workers never hold one job, and each holds the version the store has. */
  lemma OwnershipHolds(budget: nat, run: seq<Action>, v: nat, w: nat)
    requires budget > 0 && Admissible(budget, INITIAL, run)
    ensures var s := After(budget, INITIAL, run);
      && (v in s.workers && w in s.workers && v != w ==> s.workers[v].job.id != s.workers[w].job.id)
      && (w in s.workers ==>
            var k := s.workers[w];
            && k.job.id in s.store
            && s.store[k.job.id] == k.written && k.written.state == Running
            && k.job.SameIdentity(k.written))
  {
    ReachableOk(budget, run);
    var s := After(budget, INITIAL, run);
    if w in s.workers { assert Holds(budget, s, s.workers[w]); }
  }

  /** The steps by which a worker writes its job or gives it up; a crash takes every worker. */
  predicate Releases(a: Action, w: nat) {
    a.Crash? || ((a.Save? || a.SaveFails? || a.StopSleeping?) && a.w == w)
  }

  /** Worker `w` goes on with the same job and the same version written. */
  ghost predicate GoesOn(workers: map<nat, Worker>, workers': map<nat, Worker>, w: nat)
    requires w in workers
  {
    w in workers' && workers'[w].written == workers[w].written && workers'[w].job.id == workers[w].job.id
  }

  lemma OthersKeepVersion(budget: nat, s: State, a: Action, w: nat)
    requires Inv(budget, s) && Enabled(s, a) && w in s.workers && !Releases(a, w)
    ensures GoesOn(s.workers, Apply(s, a).workers, w)
  {
    if a.Claim? || a.BeginAttempt? || a.SendCopy? || a.EndAttempt? {
      AttemptGoesOn(budget, s, a, w);
    } else if a.Save? || a.SaveFails? || a.Wake? || a.StopSleeping? {
      PersistGoesOn(budget, s, a, w);
    } else {
      QuietGoesOn(budget, s, a, w);
    }
  }

  lemma AttemptGoesOn(budget: nat, s: State, a: Action, w: nat)
    requires Enabled(s, a) && w in s.workers && (a.Claim? || a.BeginAttempt? || a.SendCopy? || a.EndAttempt?)
    ensures GoesOn(s.workers, Apply(s, a).workers, w)
  {
    match a
    case Claim(v, _, id, now) => assert GoesOn(s.workers, DoClaim(s, v, id, now).workers, w);
    case BeginAttempt(v) => assert GoesOn(s.workers, DoBeginAttempt(s, v).workers, w);
    case SendCopy(v) => assert GoesOn(s.workers, DoSendCopy(s, v).workers, w);
    case EndAttempt(v, o, now) => assert GoesOn(s.workers, DoEndAttempt(s, v, o, now).workers, w);
  }

  lemma PersistGoesOn(budget: nat, s: State, a: Action, w: nat)
    requires Enabled(s, a) && w in s.workers && !Releases(a, w)
    requires a.Save? || a.SaveFails? || a.Wake? || a.StopSleeping?
    ensures GoesOn(s.workers, Apply(s, a).workers, w)
  {
    match a
    case Save(v) => assert GoesOn(s.workers, DoSave(s, v).workers, w);
    case SaveFails(v, applied) => assert GoesOn(s.workers, DoSaveFails(s, v, applied).workers, w);
    case Wake(v) => assert GoesOn(s.workers, Repoint(s, v, Ready).workers, w);
    case StopSleeping(v) =>
  }

  lemma QuietGoesOn(budget: nat, s: State, a: Action, w: nat)
    requires Enabled(s, a) && w in s.workers && !a.Crash?
    requires !a.Claim? && !a.BeginAttempt? && !a.SendCopy? && !a.EndAttempt?
    requires !a.Save? && !a.SaveFails? && !a.Wake? && !a.StopSleeping?
    ensures GoesOn(s.workers, Apply(s, a).workers, w)
  {}

  /**
    No update is lost: through any run in which worker `w` neither writes nor gives
    up its job and the daemon does not crash, the worker stays and the store has
    exactly the version it last wrote.
   */
  lemma {:induction false} NoLostUpdate(budget: nat, s: State, run: seq<Action>, w: nat)
    requires budget > 0 && Inv(budget, s) && Admissible(budget, s, run) && w in s.workers
    requires forall i | 0 <= i < |run| :: !Releases(run[i], w)
    ensures var s' := After(budget, s, run);
      var id := s.workers[w].job.id;
      && w in s'.workers && s'.workers[w].job.id == id && s'.workers[w].written == s.workers[w].written
      && id in s.store && id in s'.store && s'.store[id] == s.store[id] == s.workers[w].written
    decreases |run|
  {
    assert Holds(budget, s, s.workers[w]);
    if run != [] {
      var s' := Apply(s, run[0]);
      StepKeepsInv(budget, s, run[0]);
      OthersKeepVersion(budget, s, run[0], w);
      forall i | 0 <= i < |run[1..]|
        ensures !Releases(run[1..][i], w)
      {
        assert run[1..][i] == run[i + 1];
      }
      NoLostUpdate(budget, s', run[1..], w);
      assert Holds(budget, s', s'.workers[w]);
    }
  }

  /** When workers start, reconciliation has left no job Running. */
  lemma NoOrphanAfterReconcile(budget: nat, run: seq<Action>, id: string)
    requires budget > 0 && Admissible(budget, INITIAL, run)
    requires Enabled(After(budget, INITIAL, run), StartWorkers)
    ensures var s := Apply(After(budget, INITIAL, run), StartWorkers);
      id in s.store ==> s.store[id].state != Running
  {
    ReachableOk(budget, run);
  }

  // ------------------------------------------------------------ idempotency

  /** Accepted jobs stay, with the same printer, receipt, key and creation time. */
  lemma {:induction false} IdentityKept(budget: nat, s: State, run: seq<Action>, id: string)
    requires budget > 0 && Inv(budget, s) && Admissible(budget, s, run) && id in s.store
    ensures var s' := After(budget, s, run); id in s'.store && s'.store[id].SameIdentity(s.store[id])
    decreases |run|
  {
    if run != [] {
      StepKeepsIdentity(budget, s, run[0], id);
      StepKeepsInv(budget, s, run[0]);
      IdentityKept(budget, Apply(s, run[0]), run[1..], id);
    }
  }

  ghost predicate KeepsIdentity(m: Store, m': Store, id: string) {
    id in m && id in m' && m'[id].SameIdentity(m[id])
  }

  lemma StepKeepsIdentity(budget: nat, s: State, a: Action, id: string)
    requires Inv(budget, s) && Enabled(s, a) && id in s.store
    ensures KeepsIdentity(s.store, Apply(s, a).store, id)
  {
    if a.Save? || a.SaveFails? {
      SaveKeepsIdentity(budget, s, a, id);
    } else if a.ReconcileSave? || a.ReconcileSaveFails? {
      StartupKeepsIdentity(budget, s, a, id);
    } else if a.EnqueueIdempotent? {
      EnqueueKeepsIdentity(budget, s, a, id);
    } else if a.Claim? || a.ClaimFails? {
      ClaimKeepsIdentity(budget, s, a, id);
    } else {
      QuietStepKeepsIdentity(budget, s, a, id);
    }
  }

  lemma SaveKeepsIdentity(budget: nat, s: State, a: Action, id: string)
    requires Inv(budget, s) && Enabled(s, a) && id in s.store && (a.Save? || a.SaveFails?)
    ensures KeepsIdentity(s.store, Apply(s, a).store, id)
  {
    WriteKeepsIdentity(budget, s, a.w, id);
  }

  lemma StartupKeepsIdentity(budget: nat, s: State, a: Action, id: string)
    requires Inv(budget, s) && Enabled(s, a) && id in s.store && (a.ReconcileSave? || a.ReconcileSaveFails?)
    ensures KeepsIdentity(s.store, Apply(s, a).store, id)
  {
    ReconcileKeepsIdentity(budget, s, a.now, id);
  }

  lemma EnqueueKeepsIdentity(budget: nat, s: State, a: Action, id: string)
    requires WellKeyed(s.store) && Enabled(s, a) && id in s.store && a.EnqueueIdempotent?
    ensures KeepsIdentity(s.store, Apply(s, a).store, id)
  {
    ClientKeepsIdentity(s, a.newJob, a.pick, a.id, a.now, id);
  }

  lemma ClaimKeepsIdentity(budget: nat, s: State, a: Action, id: string)
    requires WellKeyed(s.store) && Enabled(s, a) && id in s.store && (a.Claim? || a.ClaimFails?)
    ensures KeepsIdentity(s.store, Apply(s, a).store, id)
  {}

  lemma QuietStepKeepsIdentity(budget: nat, s: State, a: Action, id: string)
    requires WellKeyed(s.store) && Enabled(s, a) && id in s.store
    requires !a.Save? && !a.SaveFails? && !a.ReconcileSave? && !a.ReconcileSaveFails?
    requires !a.Claim? && !a.ClaimFails? && !a.EnqueueIdempotent?
    ensures KeepsIdentity(s.store, Apply(s, a).store, id)
  {}

  lemma ChangeKeepsIdentity(s: State, j: Job, id: string)
    requires id in s.store && (j.id in s.store ==> j.SameIdentity(s.store[j.id]))
    ensures KeepsIdentity(s.store, Put(s.store, j), id)
  {}

  lemma WriteKeepsIdentity(budget: nat, s: State, w: nat, id: string)
    requires Inv(budget, s) && AtSave(s, w) && id in s.store
    ensures KeepsIdentity(s.store, Put(s.store, s.workers[w].job), id)
  {
    assert Holds(budget, s, s.workers[w]);
    ChangeKeepsIdentity(s, s.workers[w].job, id);
  }

  lemma ReconcileKeepsIdentity(budget: nat, s: State, now: int, id: string)
    requires Inv(budget, s) && AtJob(s) && id in s.store
    ensures KeepsIdentity(s.store, DoReconcileSave(s, now).store, id)
  {
    ChangeKeepsIdentity(s, AfterInterruption(s.maxAttempts, s.phase.todo[0], now), id);
  }

  lemma ClientKeepsIdentity(s: State, j: Job, pick: Option<string>, created: string, now: int, id: string)
    requires WellKeyed(s.store) && created !in s.store && id in s.store
    requires pick.Some? ==> pick.value in s.store
    ensures KeepsIdentity(s.store, DoEnqueueIdempotent(s, j, pick, created, now).store, id)
  {}

  /** At most one live job per key, at any time no earlier than that key's creation times. */
  lemma OneLiveJobPerKey(budget: nat, run: seq<Action>, key: string, now: int, a: string, b: string)
    requires budget > 0 && Admissible(budget, INITIAL, run) && key != ""
    ensures var m := After(budget, INITIAL, run).store;
      && KeysSeparated(m)
      && ((IsMatch(m, key, now, a) && IsMatch(m, key, now, b) && m[a].createdAt <= now && m[b].createdAt <= now)
          ==> a == b)
  {
    ReachableOk(budget, run);
    var m := After(budget, INITIAL, run).store;
    if IsMatch(m, key, now, a) && IsMatch(m, key, now, b) && m[a].createdAt <= now && m[b].createdAt <= now {
      MatchUnique(m, key, now, a, b);
    }
  }

  /**
    A client that reuses its key within the TTL, whatever happened to its job and the
    daemon in between: the same request gets the same job, made Pending with a fresh
    budget if it had failed and untouched otherwise; another printer or receipt is
    rejected and changes nothing.
   */
  lemma RetryGetsSameJob(budget: nat, s: State, run: seq<Action>, id: string, retry: Job,
                         pick: Option<string>, unused: string, now: int)
    requires budget > 0 && Inv(budget, s) && Admissible(budget, s, run)
    requires id in s.store && s.store[id].key != "" && retry.key == s.store[id].key
    requires now - s.store[id].createdAt <= IDEMPOTENCY_KEY_TTL
    requires var m := After(budget, s, run).store;
      && (forall k | k in m && m[k].key == retry.key :: m[k].createdAt <= now)
      && IsLookup(m, retry.key, now, pick)
    ensures pick == Some(id)
    ensures var m := After(budget, s, run).store;
      var (m', r) := Resolve(m, retry, pick, unused, now);
      if retry.printer == s.store[id].printer && retry.receipt == s.store[id].receipt then
        && id in m && r.Existing? && r.job.id == id && r.job.SameIdentity(s.store[id])
        && (m[id].state == Failed ==> r.job.state == Pending && r.job.attempts == 0 && r.job.lastError == NoError && m' == m[id := r.job])
        && (m[id].state != Failed ==> r.job == m[id] && m' == m)
      else r == Rejected && m' == m
  {
    IdentityKept(budget, s, run, id);
    RunKeepsInv(budget, s, run);
    var m := After(budget, s, run).store;
    assert IsMatch(m, retry.key, now, id);
    assert pick.Some?;
    MatchUnique(m, retry.key, now, id, pick.value);
  }

  // ------------------------------------------------------- an ambiguous store

  const A_KEYED_JOB := Job("", "printer", Receipt(1, 1, []), Pending, 0, NoError, 0, 0, "key")
  const AFTER_TTL: int := IDEMPOTENCY_KEY_TTL + 1

  /** A key enqueued at time 0, and once more when it has expired. */
  const KEY_TWICE: seq<Action> := [
    Boot([], 1), StartWorkers,
    EnqueueIdempotent(A_KEYED_JOB, None, "a", 0),
    EnqueueIdempotent(A_KEYED_JOB, None, "b", AFTER_TTL)]

  ghost function Keyed(m: Store, ids: map<string, nat>): State {
    State(m, Serving(false), map[], ids, ids, 1)
  }

  lemma KeyTwiceRuns(budget: nat)
    requires budget > 0
    ensures Admissible(budget, INITIAL, KEY_TWICE)
    ensures After(budget, INITIAL, KEY_TWICE)
         == Keyed(map["a" := Fresh(A_KEYED_JOB, "a", 0), "b" := Fresh(A_KEYED_JOB, "b", AFTER_TTL)], map["a" := 0, "b" := 0])
  {
    var s1 := INITIAL.(phase := Reconciling([]), maxAttempts := 1);
    var s2 := INITIAL.(phase := Serving(false), maxAttempts := 1);
    var s3 := Keyed(map["a" := Fresh(A_KEYED_JOB, "a", 0)], map["a" := 0]);
    var s4 := Keyed(map["a" := Fresh(A_KEYED_JOB, "a", 0), "b" := Fresh(A_KEYED_JOB, "b", AFTER_TTL)], map["a" := 0, "b" := 0]);
    assert KEY_TWICE[..2] == [KEY_TWICE[0]] + [StartWorkers];
    assert KEY_TWICE[..3] == KEY_TWICE[..2] + [KEY_TWICE[2]];
    assert KEY_TWICE == KEY_TWICE[..3] + [KEY_TWICE[3]];
    OneStep(budget, INITIAL, KEY_TWICE[0]);
    assert Apply(INITIAL, KEY_TWICE[0]) == s1 && Apply(s1, StartWorkers) == s2;
    OneMoreStep(budget, INITIAL, [KEY_TWICE[0]], s1, StartWorkers);
    FirstKeyed(budget, s2, s3);
    OneMoreStep(budget, INITIAL, KEY_TWICE[..2], s2, KEY_TWICE[2]);
    SecondKeyed(budget, s3, s4);
    OneMoreStep(budget, INITIAL, KEY_TWICE[..3], s3, KEY_TWICE[3]);
  }

  lemma FirstKeyed(budget: nat, s: State, s': State)
    requires s == INITIAL.(phase := Serving(false), maxAttempts := 1)
    requires s' == Keyed(map["a" := Fresh(A_KEYED_JOB, "a", 0)], map["a" := 0])
    ensures Enabled(s, KEY_TWICE[2]) && Apply(s, KEY_TWICE[2]) == s'
  {
    assert "a" in s'.store;
  }

  lemma SecondKeyed(budget: nat, s: State, s': State)
    requires s == Keyed(map["a" := Fresh(A_KEYED_JOB, "a", 0)], map["a" := 0])
    requires s' == Keyed(map["a" := Fresh(A_KEYED_JOB, "a", 0), "b" := Fresh(A_KEYED_JOB, "b", AFTER_TTL)], map["a" := 0, "b" := 0])
    ensures Enabled(s, KEY_TWICE[3]) && Apply(s, KEY_TWICE[3]) == s'
  {
    assert "b" in s'.store && "b" !in s.store;
  }

  /** A clock read back at time 1 finds both jobs live: the scan order decides. */
  lemma LookupCanBeAmbiguous(budget: nat)
    requires budget > 0
    ensures Admissible(budget, INITIAL, KEY_TWICE)
    ensures var m := After(budget, INITIAL, KEY_TWICE).store;
      IsLookup(m, "key", 1, Some("a")) && IsLookup(m, "key", 1, Some("b"))
  {
    KeyTwiceRuns(budget);
  }
}
