/**
  The print queue as a protocol: one durable store, any number of workers that
  each hold a private copy of the job they claimed, and a daemon that may crash,
  be shut down or see a Save fail at any point. Every store operation is one step.
 */
module Protocol {
  import opened Receipts
  import opened Jobs
  import opened StoreSpec

  // ------------------------------------------------- decisions on one job

  /** How one Process call ends; a panic is Permanent, every other error kind too. */
  datatype Outcome = Success | Transient(message: string) | Permanent(message: string)

  predicate IsFinal(budget: nat, j: Job, o: Outcome) {
    !o.Transient? || j.attempts >= budget
  }

  /** The job to persist after an attempt that `j.attempts` already counts. */
  function AfterAttempt(budget: nat, j: Job, o: Outcome, now: int): Job {
    var settled :=
      if !IsFinal(budget, j, o) then j
      else if o.Success? then j.(state := Done)
      else j.(state := Failed, lastError := ProcessError(o.message));
    settled.(updatedAt := now)
  }

  /** What reconciliation makes of a job found Running: the interruption is one attempt. */
  function AfterInterruption(budget: nat, j: Job, now: int): Job {
    j.(attempts := j.attempts + 1,
       lastError := Interrupted(j.attempts + 1, budget),
       state := if j.attempts + 1 < budget then Pending else Failed,
       updatedAt := now)
  }

  // ------------------------------------------------------------- the state

  datatype Control = Ready | Calling | Saving(done: bool) | Sleeping

  /** `job` is the private copy, `written` the version this worker last claimed or saved. */
  datatype Worker = Worker(pc: Control, job: Job, written: Job, sent: nat)

  datatype Phase = Down | Reconciling(todo: seq<Job>) | Serving(cancelled: bool)

  /**
    `calls` and `sends` count Process and Send calls of a job's current activation;
    `maxAttempts` is what the daemon read from its configuration when it last started.
   */
  datatype State = State(
    store: Store,
    phase: Phase,
    workers: map<nat, Worker>,
    calls: map<string, nat>,
    sends: map<string, nat>,
    maxAttempts: nat)

  const INITIAL := State(map[], Down, map[], map[], map[], 0)

  datatype Action =
    | Boot(listing: seq<Job>, maxAttempts: nat)
    | ReconcileSkip
    | ReconcileSave(now: int)
    | ReconcileSaveFails(applied: bool, now: int)
    | StartWorkers
    | Enqueue(newJob: Job, id: string, now: int)
    | EnqueueIdempotent(newJob: Job, pick: Option<string>, id: string, now: int)
    | Cancel(id: string, now: int)
    | Claim(w: nat, printer: string, id: string, now: int)
    | ClaimFails(printer: string, id: string, applied: bool, now: int)
    | BeginAttempt(w: nat)
    | SendCopy(w: nat)
    | EndAttempt(w: nat, outcome: Outcome, now: int)
    | Save(w: nat)
    | SaveFails(w: nat, applied: bool)
    | Wake(w: nat)
    | StopSleeping(w: nat)
    | Shutdown
    | Crash

  predicate At(s: State, w: nat, pc: Control) {
    s.phase.Serving? && w in s.workers && s.workers[w].pc == pc
  }

  predicate AtSave(s: State, w: nat) {
    s.phase.Serving? && w in s.workers && s.workers[w].pc.Saving?
  }

  predicate AtJob(s: State) {
    s.phase.Reconciling? && s.phase.todo != []
  }

  function Put(m: Store, j: Job): Store { m[j.id := j] }

  function Bump(counts: map<string, nat>, id: string): map<string, nat> {
    counts[id := (if id in counts then counts[id] else 0) + 1]
  }

  // --- startup

  ghost function DoReconcileSave(s: State, now: int): State
    requires AtJob(s)
  {
    s.(store := Put(s.store, AfterInterruption(s.maxAttempts, s.phase.todo[0], now)),
       phase := Reconciling(s.phase.todo[1..]))
  }

  // --- clients

  /** A job becomes (again) Pending with a fresh budget: its counts restart. */
  ghost function Activate(s: State, j: Job): State {
    s.(store := Put(s.store, j), calls := s.calls[j.id := 0], sends := s.sends[j.id := 0])
  }

  ghost function DoEnqueueIdempotent(s: State, j: Job, pick: Option<string>, id: string, now: int): State
    requires pick.Some? ==> pick.value in s.store
  {
    var (store', _) := Resolve(s.store, j, pick, id, now);
    if store' == s.store then s
    else
      var activated := if pick.Some? then pick.value else id;
      s.(store := store', calls := s.calls[activated := 0], sends := s.sends[activated := 0])
  }

  // --- workers

  ghost function DoClaim(s: State, w: nat, id: string, now: int): State
    requires id in s.store
  {
    var j := Claimed(s.store[id], now);
    s.(store := s.store[id := j], workers := s.workers[w := Worker(Ready, j, j, 0)])
  }

  /** A claim whose commit reports an error, yet may have reached the disk, leaves no worker behind. */
  ghost function DoClaimFails(s: State, id: string, applied: bool, now: int): State
    requires id in s.store
  {
    if applied then s.(store := s.store[id := Claimed(s.store[id], now)]) else s
  }

  ghost function DoBeginAttempt(s: State, w: nat): State
    requires w in s.workers
  {
    var k := s.workers[w];
    s.(workers := s.workers[w := k.(pc := Calling, job := k.job.(attempts := k.job.attempts + 1), sent := 0)],
       calls := Bump(s.calls, k.job.id))
  }

  ghost function DoSendCopy(s: State, w: nat): State
    requires w in s.workers
  {
    var k := s.workers[w];
    s.(workers := s.workers[w := k.(sent := k.sent + 1)], sends := Bump(s.sends, k.job.id))
  }

  ghost function DoEndAttempt(s: State, w: nat, o: Outcome, now: int): State
    requires w in s.workers
  {
    var k := s.workers[w];
    s.(workers := s.workers[w := k.(pc := Saving(IsFinal(s.maxAttempts, k.job, o)),
                                    job := AfterAttempt(s.maxAttempts, k.job, o, now))])
  }

  ghost function DoSave(s: State, w: nat): State
    requires AtSave(s, w)
  {
    var k := s.workers[w];
    s.(store := Put(s.store, k.job),
       workers := if k.pc.done then s.workers - {w}
                  else s.workers[w := k.(pc := Sleeping, written := k.job)])
  }

  /** A Save that reports an error may or may not have reached the disk. */
  ghost function DoSaveFails(s: State, w: nat, applied: bool): State
    requires AtSave(s, w)
  {
    s.(store := if applied then Put(s.store, s.workers[w].job) else s.store,
       workers := s.workers - {w})
  }

  ghost function Repoint(s: State, w: nat, pc: Control): State
    requires w in s.workers
  {
    s.(workers := s.workers[w := s.workers[w].(pc := pc)])
  }

  ghost predicate Enabled(s: State, a: Action) {
    match a
    case Boot(listing, maxAttempts) => s.phase.Down? && IsListing(s.store, listing) && maxAttempts > 0
    case ReconcileSkip => AtJob(s) && s.phase.todo[0].state != Running
    case ReconcileSave(_) => AtJob(s) && s.phase.todo[0].state == Running
    case ReconcileSaveFails(_, _) => AtJob(s) && s.phase.todo[0].state == Running
    case StartWorkers => s.phase.Reconciling? && s.phase.todo == []
    case Enqueue(j, id, _) => s.phase.Serving? && id !in s.store && j.attempts == 0 && j.key == ""
    case EnqueueIdempotent(j, pick, id, now) =>
      s.phase.Serving? && id !in s.store && j.attempts == 0 && IsLookup(s.store, j.key, now, pick)
    case Cancel(id, _) => s.phase.Serving? && id in s.store && s.store[id].state == Pending
    case Claim(w, printer, id, _) => s.phase.Serving? && w !in s.workers && IsNext(s.store, Some(printer), id)
    case ClaimFails(printer, id, _, _) => s.phase.Serving? && IsNext(s.store, Some(printer), id)
    case BeginAttempt(w) => At(s, w, Ready)
    case SendCopy(w) => At(s, w, Calling) && s.workers[w].sent < EffectiveCopies(s.workers[w].job.receipt)
    case EndAttempt(w, o, _) =>
      && At(s, w, Calling)
      && (o.Success? ==> s.workers[w].sent == EffectiveCopies(s.workers[w].job.receipt))
    case Save(w) => AtSave(s, w)
    case SaveFails(w, _) => AtSave(s, w)
    case Wake(w) => At(s, w, Sleeping) && !s.phase.cancelled
    case StopSleeping(w) => At(s, w, Sleeping) && s.phase.cancelled
    case Shutdown => s.phase.Serving?
    case Crash => true
  }

  ghost function Apply(s: State, a: Action): State
    requires Enabled(s, a)
  {
    match a
    case Boot(listing, maxAttempts) => s.(phase := Reconciling(listing), maxAttempts := maxAttempts)
    case ReconcileSkip => s.(phase := Reconciling(s.phase.todo[1..]))
    case ReconcileSave(now) => DoReconcileSave(s, now)
    case ReconcileSaveFails(applied, now) =>
      (if applied then DoReconcileSave(s, now) else s).(phase := Down)
    case StartWorkers => s.(phase := Serving(false))
    case Enqueue(j, id, now) => Activate(s, Fresh(j, id, now))
    case EnqueueIdempotent(j, pick, id, now) => DoEnqueueIdempotent(s, j, pick, id, now)
    case Cancel(id, now) => s.(store := s.store[id := s.store[id].(state := Cancelled, updatedAt := now)])
    case Claim(w, _, id, now) => DoClaim(s, w, id, now)
    case ClaimFails(_, id, applied, now) => DoClaimFails(s, id, applied, now)
    case BeginAttempt(w) => DoBeginAttempt(s, w)
    case SendCopy(w) => DoSendCopy(s, w)
    case EndAttempt(w, o, now) => DoEndAttempt(s, w, o, now)
    case Save(w) => DoSave(s, w)
    case SaveFails(w, applied) => DoSaveFails(s, w, applied)
    case Wake(w) => Repoint(s, w, Ready)
    case StopSleeping(w) => s.(workers := s.workers - {w})
    case Shutdown => s.(phase := Serving(true))
    case Crash => s.(phase := Down, workers := map[])
  }

  // ------------------------------------------------------------------- runs

  /** The configuration may change between starts; `budget` bounds what it allows. */
  predicate Within(budget: nat, a: Action) {
    a.Boot? ==> a.maxAttempts <= budget
  }

  ghost predicate Admissible(budget: nat, s: State, run: seq<Action>)
    decreases |run|
  {
    run == [] || (Enabled(s, run[0]) && Within(budget, run[0]) && Admissible(budget, Apply(s, run[0]), run[1..]))
  }

  ghost function After(budget: nat, s: State, run: seq<Action>): State
    requires Admissible(budget, s, run)
    decreases |run|
  {
    if run == [] then s else After(budget, Apply(s, run[0]), run[1..])
  }

  /** Two runs end to end are a run. */
  lemma {:induction false} RunsCompose(budget: nat, s: State, a: seq<Action>, b: seq<Action>)
    requires Admissible(budget, s, a) && Admissible(budget, After(budget, s, a), b)
    ensures Admissible(budget, s, a + b)
    ensures After(budget, s, a + b) == After(budget, After(budget, s, a), b)
    decreases |a|
  {
    if a == [] {
      assert a + b == b;
    } else {
      assert (a + b)[0] == a[0] && (a + b)[1..] == a[1..] + b;
      RunsCompose(budget, Apply(s, a[0]), a[1..], b);
    }
  }

  lemma OneStep(budget: nat, s: State, a: Action)
    requires Enabled(s, a) && Within(budget, a)
    ensures Admissible(budget, s, [a]) && After(budget, s, [a]) == Apply(s, a)
  {
    assert [a][1..] == [];
    assert After(budget, Apply(s, a), []) == Apply(s, a);
  }

  /** A run within one bound on the configured attempts is one within any wider bound. */
  lemma {:induction false} WiderBound(budget: nat, wider: nat, s: State, run: seq<Action>)
    requires budget <= wider && Admissible(budget, s, run)
    ensures Admissible(wider, s, run) && After(wider, s, run) == After(budget, s, run)
    decreases |run|
  {
    if run != [] { WiderBound(budget, wider, Apply(s, run[0]), run[1..]); }
  }

  /** Every beginning of a run is one, and the next step is enabled after it. */
  lemma {:induction false} PrefixRuns(budget: nat, s: State, run: seq<Action>, i: nat)
    requires Admissible(budget, s, run) && i < |run|
    ensures Admissible(budget, s, run[..i]) && Enabled(After(budget, s, run[..i]), run[i])
    decreases i
  {
    if i > 0 {
      PrefixRuns(budget, Apply(s, run[0]), run[1..], i - 1);
      assert run[..i][1..] == run[1..][..i - 1] && run[..i][0] == run[0];
    }
  }

  /** `run` leads from `s` to `s'`. */
  ghost predicate Leads(budget: nat, s: State, run: seq<Action>, s': State) {
    Admissible(budget, s, run) && After(budget, s, run) == s'
  }

  lemma OneMoreStep(budget: nat, s: State, run: seq<Action>, mid: State, a: Action)
    requires Leads(budget, s, run, mid) && Enabled(mid, a) && Within(budget, a)
    ensures Leads(budget, s, run + [a], Apply(mid, a))
  {
    OneStep(budget, mid, a);
    RunsCompose(budget, s, run, [a]);
  }
}
