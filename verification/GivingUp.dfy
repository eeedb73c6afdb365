/**
  No job is given up early: in every state the daemon reaches, a Failed job either
  carries the message its last call failed with, or was interrupted as often as its
  budget allowed.
 */
module GivingUp {
  import opened Jobs
  import opened StoreSpec
  import opened Protocol

  ghost predicate Explained(j: Job) {
    j.state == Failed ==>
      match j.lastError
      case NoError => false
      case ProcessError(_) => true
      case Interrupted(attempt, budget) => attempt == j.attempts && attempt >= budget
  }

  ghost predicate StoreExplained(m: Store) {
    forall id | id in m :: Explained(m[id])
  }

  /** A worker's copy is Failed only when it is about to be saved for the last time. */
  ghost predicate WorkerExplained(k: Worker) {
    Explained(k.job) && (k.job.state == Failed ==> k.pc == Saving(true))
  }

  ghost predicate WorkersExplained(workers: map<nat, Worker>) {
    forall w | w in workers :: WorkerExplained(workers[w])
  }

  ghost predicate AllExplained(s: State) {
    StoreExplained(s.store) && WorkersExplained(s.workers)
  }

  lemma PutExplained(m: Store, id: string, j: Job)
    requires StoreExplained(m) && Explained(j)
    ensures StoreExplained(m[id := j])
  {}

  lemma WorkerStepExplained(s: State, a: Action)
    requires AllExplained(s) && Enabled(s, a)
    requires a.Claim? || a.BeginAttempt? || a.SendCopy? || a.EndAttempt? || a.Wake? || a.StopSleeping?
    ensures AllExplained(Apply(s, a))
  {
    match a
    case Claim(w, _, id, now) => PutExplained(s.store, id, Claimed(s.store[id], now));
    case BeginAttempt(w) => assert WorkerExplained(s.workers[w]);
    case SendCopy(w) =>
    case EndAttempt(w, o, now) =>
      assert WorkerExplained(s.workers[w]);
      assert Explained(AfterAttempt(s.maxAttempts, s.workers[w].job, o, now));
    case Wake(w) =>
    case StopSleeping(w) =>
  }

  lemma WriteExplained(s: State, a: Action)
    requires AllExplained(s) && Enabled(s, a) && (a.Save? || a.SaveFails?)
    ensures AllExplained(Apply(s, a))
  {
    assert WorkerExplained(s.workers[a.w]);
    PutExplained(s.store, s.workers[a.w].job.id, s.workers[a.w].job);
  }

  lemma StartupExplained(s: State, a: Action)
    requires AllExplained(s) && Enabled(s, a) && (a.ReconcileSave? || a.ReconcileSaveFails?)
    ensures AllExplained(Apply(s, a))
  {
    var j := AfterInterruption(s.maxAttempts, s.phase.todo[0], a.now);
    PutExplained(s.store, j.id, j);
  }

  lemma EnqueueExplained(s: State, a: Action)
    requires AllExplained(s) && Enabled(s, a) && a.EnqueueIdempotent?
    ensures AllExplained(Apply(s, a))
  {
    var m := Resolve(s.store, a.newJob, a.pick, a.id, a.now).0;
    if m != s.store {
      var id := if a.pick.Some? then a.pick.value else a.id;
      PutExplained(s.store, id, m[id]);
    }
  }

  lemma OtherStepExplained(s: State, a: Action)
    requires AllExplained(s) && Enabled(s, a)
    requires a.Boot? || a.ReconcileSkip? || a.StartWorkers? || a.Enqueue? || a.Cancel? || a.ClaimFails? || a.Shutdown? || a.Crash?
    ensures AllExplained(Apply(s, a))
  {}

  lemma StepExplained(s: State, a: Action)
    requires AllExplained(s) && Enabled(s, a)
    ensures AllExplained(Apply(s, a))
  {
    if a.Save? || a.SaveFails? {
      WriteExplained(s, a);
    } else if a.ReconcileSave? || a.ReconcileSaveFails? {
      StartupExplained(s, a);
    } else if a.EnqueueIdempotent? {
      EnqueueExplained(s, a);
    } else if a.Claim? || a.BeginAttempt? || a.SendCopy? || a.EndAttempt? || a.Wake? || a.StopSleeping? {
      WorkerStepExplained(s, a);
    } else {
      OtherStepExplained(s, a);
    }
  }

  lemma {:induction false} RunExplained(budget: nat, s: State, run: seq<Action>)
    requires AllExplained(s) && Admissible(budget, s, run)
    ensures AllExplained(After(budget, s, run))
    decreases |run|
  {
    if run != [] {
      StepExplained(s, run[0]);
      RunExplained(budget, Apply(s, run[0]), run[1..]);
    }
  }

  /** A job is Failed only by a call that failed for good, or when interruptions have spent its budget. */
  lemma NeverGivenUpEarly(budget: nat, run: seq<Action>, id: string)
    requires Admissible(budget, INITIAL, run)
    ensures var m := After(budget, INITIAL, run).store;
      id in m && m[id].state == Failed ==>
        || m[id].lastError.ProcessError?
        || (m[id].lastError.Interrupted? && m[id].lastError.attempt == m[id].attempts
            && m[id].attempts >= m[id].lastError.budget)
  {
    RunExplained(budget, INITIAL, run);
    var m := After(budget, INITIAL, run).store;
    if id in m { assert Explained(m[id]); }
  }
}
