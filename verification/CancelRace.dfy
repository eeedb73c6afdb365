/**
  A cancellation reads the job and writes it back in two store operations. What may
  run in between, and exactly when the write still does what an atomic one would.
 */
module CancelRace {
  import opened Receipts
  import opened Jobs
  import opened StoreSpec
  import opened Protocol
  import opened ProtocolInvariant
  import opened ProtocolRuns

  /** What a cancellation writes that read the job in `m`. */
  function Stale(m: Store, id: string, now: int): Job
    requires id in m
  {
    m[id].(state := Cancelled, updatedAt := now)
  }

  /** The state `t` after the write of a cancellation that read the job in `s`. */
  ghost function Overwritten(s: State, t: State, id: string, now: int): State
    requires id in s.store
  {
    t.(store := Put(t.store, Stale(s.store, id, now)))
  }

  /** The write does to `t` what the protocol's atomic cancellation does. */
  ghost predicate ActsAtomically(s: State, t: State, id: string, now: int)
    requires id in s.store
  {
    Enabled(t, Cancel(id, now)) && Overwritten(s, t, id, now) == Apply(t, Cancel(id, now))
  }

  /** The record is Pending still, or again, with the attempts and the error that were read. */
  ghost predicate StillAsRead(s: State, t: State, id: string)
    requires id in s.store
  {
    && id in t.store && t.store[id].state == Pending
    && t.store[id].attempts == s.store[id].attempts && t.store[id].lastError == s.store[id].lastError
  }

  /**
    Exactly when the split cancellation is safe: whatever runs between its read in
    `s` and its write, the write is the atomic cancellation just when the record is
    then as it was read.
   */
  lemma StaleCancelSafeIff(budget: nat, s: State, run: seq<Action>, id: string, now: int)
    requires budget > 0 && Inv(budget, s) && Admissible(budget, s, run)
    requires id in s.store && s.store[id].state == Pending
    requires After(budget, s, run).phase.Serving?
    ensures var t := After(budget, s, run);
      ActsAtomically(s, t, id, now) <==> StillAsRead(s, t, id)
  {
    IdentityKept(budget, s, run, id);
    var t := After(budget, s, run);
    if ActsAtomically(s, t, id, now) {
      assert Overwritten(s, t, id, now).store[id] == Stale(t.store, id, now);
    }
  }

  /** A safe write keeps the queue's invariant, as the step it equals does. */
  lemma SafeCancelKeepsInv(budget: nat, s: State, run: seq<Action>, id: string, now: int)
    requires budget > 0 && Inv(budget, s) && Admissible(budget, s, run)
    requires id in s.store && s.store[id].state == Pending
    requires After(budget, s, run).phase.Serving? && StillAsRead(s, After(budget, s, run), id)
    ensures Inv(budget, Overwritten(s, After(budget, s, run), id, now))
  {
    StaleCancelSafeIff(budget, s, run, id, now);
    RunKeepsInv(budget, s, run);
    StepKeepsInv(budget, After(budget, s, run), Cancel(id, now));
  }

  // ------------------------------------------------ what can come in between

  /** The steps that take a Pending job away: claims that reach the store, and cancellations. */
  predicate Takes(a: Action, id: string) {
    ((a.Claim? || a.Cancel?) && a.id == id) || (a.ClaimFails? && a.id == id && a.applied)
  }

  lemma PendingStays(budget: nat, s: State, a: Action, id: string)
    requires Inv(budget, s) && Enabled(s, a) && id in s.store && s.store[id].state == Pending && !Takes(a, id)
    ensures id in Apply(s, a).store && Apply(s, a).store[id] == s.store[id]
  {
    if a.Save? || a.SaveFails? {
      SaveLeavesPending(budget, s, a, id);
    } else if a.EnqueueIdempotent? {
      EnqueueLeavesPending(s, a.newJob, a.pick, a.id, a.now, id);
    } else if a.ReconcileSave? || a.ReconcileSaveFails? {
      StartupLeavesPending(budget, s, a.now, id);
    } else {
      OthersLeavePending(s, a, id);
    }
  }

  /** Workers write the jobs they hold, and a Pending job is held by none. */
  lemma SaveLeavesPending(budget: nat, s: State, a: Action, id: string)
    requires Inv(budget, s) && Enabled(s, a) && (a.Save? || a.SaveFails?)
    requires id in s.store && s.store[id].state == Pending
    ensures id in Apply(s, a).store && Apply(s, a).store[id] == s.store[id]
  {
    assert Holds(budget, s, s.workers[a.w]);
    assert s.workers[a.w].job.id != id;
  }

  lemma StartupLeavesPending(budget: nat, s: State, now: int, id: string)
    requires Inv(budget, s) && AtJob(s) && s.phase.todo[0].state == Running
    requires id in s.store && s.store[id].state == Pending
    ensures var m := DoReconcileSave(s, now).store; id in m && m[id] == s.store[id]
  {
    assert s.store[s.phase.todo[0].id] == s.phase.todo[0];
  }

  lemma OthersLeavePending(s: State, a: Action, id: string)
    requires WellKeyed(s.store) && Enabled(s, a) && !Takes(a, id) && !a.Save? && !a.SaveFails?
    requires !a.EnqueueIdempotent? && !a.ReconcileSave? && !a.ReconcileSaveFails?
    requires id in s.store && s.store[id].state == Pending
    ensures id in Apply(s, a).store && Apply(s, a).store[id] == s.store[id]
  {}

  lemma EnqueueLeavesPending(s: State, j: Job, pick: Option<string>, created: string, now: int, id: string)
    requires WellKeyed(s.store) && created !in s.store && id in s.store && s.store[id].state == Pending
    requires pick.Some? ==> pick.value in s.store
    ensures var m := DoEnqueueIdempotent(s, j, pick, created, now).store; id in m && m[id] == s.store[id]
  {}

  /**
    Only a claim or another cancellation of the same job endangers the write: through
    any run without them the record stays as it was read, through restarts too.
   */
  lemma {:induction false} UntakenStaysAsRead(budget: nat, s: State, run: seq<Action>, id: string)
    requires budget > 0 && Inv(budget, s) && Admissible(budget, s, run)
    requires id in s.store && s.store[id].state == Pending
    requires forall i | 0 <= i < |run| :: !Takes(run[i], id)
    ensures StillAsRead(s, After(budget, s, run), id)
    ensures After(budget, s, run).store[id] == s.store[id]
    decreases |run|
  {
    if run != [] {
      PendingStays(budget, s, run[0], id);
      StepKeepsInv(budget, s, run[0]);
      forall i | 0 <= i < |run[1..]|
        ensures !Takes(run[1..][i], id)
      {
        assert run[1..][i] == run[i + 1];
      }
      UntakenStaysAsRead(budget, Apply(s, run[0]), run[1..], id);
    }
  }

  /** The smallest loss: a worker claims the job in between, and the write overwrites its version. */
  lemma StaleCancelLosesClaim(budget: nat, s: State, claimed: State, w: nat, id: string, now: int)
    requires Inv(budget, s) && s.phase.Serving? && w !in s.workers
    requires id in s.store && s.store[id].state == Pending && claimed == DoClaim(s, w, id, now)
    ensures Inv(budget, claimed) && w in claimed.workers && !ActsAtomically(s, claimed, id, now)
    ensures var after := Overwritten(s, claimed, id, now);
      after.workers[w].written != after.store[id] && !Inv(budget, after)
  {
    ClaimOk(budget, s, w, id, now);
    ClaimTakes(s, claimed, w, id, now);
    OverwriteUnholds(budget, s, claimed, w, id, now);
  }

  lemma ClaimTakes(s: State, claimed: State, w: nat, id: string, now: int)
    requires Counted(s) && id in s.store && claimed == DoClaim(s, w, id, now)
    ensures id in claimed.store && claimed.store[id].state == Running
    ensures w in claimed.workers && claimed.workers[w].job.id == id && claimed.workers[w].written.state == Running
  {}

  lemma OverwriteUnholds(budget: nat, s: State, t: State, w: nat, id: string, now: int)
    requires Counted(s) && id in s.store && w in t.workers
    requires t.workers[w].job.id == id && t.workers[w].written.state == Running
    ensures var after := Overwritten(s, t, id, now);
      after.workers[w].written != after.store[id] && !Inv(budget, after)
  {
    var after := Overwritten(s, t, id, now);
    assert after.store[id].state == Cancelled;
    if Counted(after) { assert !Holds(budget, after, after.workers[w]); }
  }

  // -------------------------------------- what the invariant notices of a loss

  /** Nobody holds the job, and its calls are within the attempts that were read. */
  ghost predicate FreeWithinCalls(s: State, t: State, id: string)
    requires id in s.store && id in t.calls
  {
    (forall w | w in t.workers :: t.workers[w].job.id != id) && t.calls[id] <= s.store[id].attempts
  }

  /**
    The queue's invariant notices less than a lost update: the write keeps it just
    when then no worker holds the job and its calls are within the attempts read.
   */
  lemma StaleCancelKeepsInvIff(budget: nat, s: State, run: seq<Action>, id: string, now: int)
    requires budget > 0 && Inv(budget, s) && Admissible(budget, s, run)
    requires id in s.store && s.store[id].state == Pending
    requires After(budget, s, run).phase.Serving?
    ensures var t := After(budget, s, run);
      && id in t.store && id in t.calls
      && (Inv(budget, Overwritten(s, t, id, now)) <==> FreeWithinCalls(s, t, id))
  {
    RunKeepsInv(budget, s, run);
    IdentityKept(budget, s, run, id);
    var t := After(budget, s, run);
    if FreeWithinCalls(s, t, id) {
      FreeOverwriteOk(budget, s, t, id, now);
    } else {
      HeldOverwriteBreaks(budget, s, t, id, now);
    }
  }

  lemma StaleJobOk(budget: nat, s: State, t: State, id: string, now: int)
    requires Inv(budget, s) && Inv(budget, t) && id in s.store && id in t.store
    requires s.store[id].state == Pending && t.store[id].SameIdentity(s.store[id]) && t.calls[id] <= s.store[id].attempts
    ensures JobOk(budget, Stale(s.store, id, now), t.calls[id], t.sends[id])
  {
    assert JobOk(budget, s.store[id], s.calls[id], s.sends[id]);
    assert JobOk(budget, t.store[id], t.calls[id], t.sends[id]);
  }

  lemma OverwrittenChanges(s: State, t: State, id: string, now: int)
    requires Counted(s) && Counted(t) && id in s.store && id in t.store
    ensures var t' := Overwritten(s, t, id, now);
      && Counted(t') && ChangesOnly(t, t', id) && t'.workers == t.workers
      && t'.store[id] == Stale(s.store, id, now) && t'.calls == t.calls && t'.sends == t.sends
  {}

  lemma FreeOverwriteOk(budget: nat, s: State, t: State, id: string, now: int)
    requires Inv(budget, s) && Inv(budget, t) && t.phase.Serving? && id in s.store && s.store[id].state == Pending
    requires id in t.store && t.store[id].SameIdentity(s.store[id]) && FreeWithinCalls(s, t, id)
    ensures Inv(budget, Overwritten(s, t, id, now))
  {
    StaleJobOk(budget, s, t, id, now);
    SameKeysSeparated(t.store, Overwritten(s, t, id, now).store);
    OverwrittenChanges(s, t, id, now);
    FreeChangeOk(budget, t, Overwritten(s, t, id, now), id);
  }

  lemma HeldOverwriteBreaks(budget: nat, s: State, t: State, id: string, now: int)
    requires Inv(budget, s) && Inv(budget, t) && t.phase.Serving? && id in s.store && s.store[id].state == Pending
    requires id in t.store && t.store[id].SameIdentity(s.store[id]) && !FreeWithinCalls(s, t, id)
    ensures !Inv(budget, Overwritten(s, t, id, now))
  {
    if w :| w in t.workers && t.workers[w].job.id == id {
      assert Holds(budget, t, t.workers[w]);
      OverwriteUnholds(budget, s, t, w, id, now);
    } else {
      var t' := Overwritten(s, t, id, now);
      assert !JobOk(budget, t'.store[id], t'.calls[id], t'.sends[id]);
    }
  }

  // ------------------------------------------------ a loss it does not notice

  const A_JOB := Job("", "printer", Receipt(1, 1, []), Pending, 0, NoError, 0, 0, "")
  const ACCEPTED: Job := Fresh(A_JOB, "a", 0)
  const INTERRUPTED: Job := AfterInterruption(3, Claimed(ACCEPTED, 0), 0)
  const CLAIMED_AGAIN: Job := Claimed(INTERRUPTED, 1)
  const PRINTED: Job := AfterAttempt(3, CLAIMED_AGAIN.(attempts := 2), Success, 1)

  /** A job is claimed, the daemon crashes before calling Process, and starts again. */
  const CLAIM_INTERRUPTED: seq<Action> := [
    Boot([], 3), StartWorkers, Enqueue(A_JOB, "a", 0), Claim(0, "printer", "a", 0), Crash,
    Boot([Claimed(ACCEPTED, 0)], 3), ReconcileSave(0), StartWorkers]

  /** Then it is claimed and printed. */
  const PRINT: seq<Action> := [
    Claim(0, "printer", "a", 1), BeginAttempt(0), SendCopy(0), EndAttempt(0, Success, 1), Save(0)]

  /** A store of one job, of which `calls` and `sends` were made. */
  ghost function Only(j: Job, phase: Phase, workers: map<nat, Worker>, calls: nat, sends: nat): State {
    State(map[j.id := j], phase, workers, map[j.id := calls], map[j.id := sends], 3)
  }

  lemma AcceptedRuns(budget: nat)
    requires budget >= 3
    ensures Leads(budget, INITIAL, CLAIM_INTERRUPTED[..3], Only(ACCEPTED, Serving(false), map[], 0, 0))
  {
    var run := CLAIM_INTERRUPTED;
    var s1 := INITIAL.(phase := Reconciling([]), maxAttempts := 3);
    var s2 := INITIAL.(phase := Serving(false), maxAttempts := 3);
    assert run[..2] == [run[0]] + [run[1]] && run[..3] == run[..2] + [run[2]];
    OneStep(budget, INITIAL, run[0]);
    assert Apply(INITIAL, run[0]) == s1 && Apply(s1, run[1]) == s2;
    OneMoreStep(budget, INITIAL, [run[0]], s1, run[1]);
    OneMoreStep(budget, INITIAL, run[..2], s2, run[2]);
    assert Apply(s2, run[2]) == Only(ACCEPTED, Serving(false), map[], 0, 0);
  }

  lemma CrashedRuns(budget: nat)
    requires budget >= 3
    ensures Leads(budget, INITIAL, CLAIM_INTERRUPTED[..5], Only(Claimed(ACCEPTED, 0), Down, map[], 0, 0))
  {
    var run := CLAIM_INTERRUPTED;
    var j := Claimed(ACCEPTED, 0);
    var s3 := Only(ACCEPTED, Serving(false), map[], 0, 0);
    var s4 := Only(j, Serving(false), map[0 := Worker(Ready, j, j, 0)], 0, 0);
    assert run[..4] == run[..3] + [run[3]] && run[..5] == run[..4] + [run[4]];
    AcceptedRuns(budget);
    assert "a" in s3.store;
    assert Apply(s3, run[3]) == s4;
    OneMoreStep(budget, INITIAL, run[..3], s3, run[3]);
    OneMoreStep(budget, INITIAL, run[..4], s4, run[4]);
  }

  lemma RestartedRuns(budget: nat)
    requires budget >= 3
    ensures Leads(budget, INITIAL, CLAIM_INTERRUPTED, Only(INTERRUPTED, Serving(false), map[], 0, 0))
  {
    var run := CLAIM_INTERRUPTED;
    var j := Claimed(ACCEPTED, 0);
    var s5 := Only(j, Down, map[], 0, 0);
    var s6 := Only(j, Reconciling([j]), map[], 0, 0);
    var s7 := Only(INTERRUPTED, Reconciling([]), map[], 0, 0);
    assert run[..6] == run[..5] + [run[5]] && run[..7] == run[..6] + [run[6]] && run == run[..7] + [run[7]];
    CrashedRuns(budget);
    assert IsListing(s5.store, [j]) by { assert [j][0] == j; }
    OneMoreStep(budget, INITIAL, run[..5], s5, run[5]);
    assert Apply(s5, run[5]) == s6;
    assert [j][1..] == [];
    assert Apply(s6, run[6]) == s7;
    OneMoreStep(budget, INITIAL, run[..6], s6, run[6]);
    OneMoreStep(budget, INITIAL, run[..7], s7, run[7]);
  }

  lemma CalledRuns(budget: nat, s: State)
    requires budget >= 3 && s == Only(INTERRUPTED, Serving(false), map[], 0, 0)
    ensures Leads(budget, s, PRINT[..3],
                  Only(CLAIMED_AGAIN, Serving(false),
                       map[0 := Worker(Calling, CLAIMED_AGAIN.(attempts := 2), CLAIMED_AGAIN, 1)], 1, 1))
  {
    var run := PRINT;
    var j := CLAIMED_AGAIN;
    var s1 := Only(j, Serving(false), map[0 := Worker(Ready, j, j, 0)], 0, 0);
    var s2 := Only(j, Serving(false), map[0 := Worker(Calling, j.(attempts := 2), j, 0)], 1, 0);
    assert run[..2] == [run[0]] + [run[1]] && run[..3] == run[..2] + [run[2]];
    assert "a" in s.store;
    OneStep(budget, s, run[0]);
    assert Apply(s, run[0]) == s1;
    OneMoreStep(budget, s, [run[0]], s1, run[1]);
    assert Apply(s1, run[1]) == s2;
    OneMoreStep(budget, s, run[..2], s2, run[2]);
  }

  lemma PrintedRuns(budget: nat, s: State)
    requires budget >= 3 && s == Only(INTERRUPTED, Serving(false), map[], 0, 0)
    ensures Leads(budget, s, PRINT, Only(PRINTED, Serving(false), map[], 1, 1))
  {
    var run := PRINT;
    var j := CLAIMED_AGAIN;
    var s3 := Only(j, Serving(false), map[0 := Worker(Calling, j.(attempts := 2), j, 1)], 1, 1);
    var s4 := Only(j, Serving(false), map[0 := Worker(Saving(true), PRINTED, j, 1)], 1, 1);
    assert run[..4] == run[..3] + [run[3]] && run == run[..4] + [run[4]];
    CalledRuns(budget, s);
    OneMoreStep(budget, s, run[..3], s3, run[3]);
    assert Apply(s3, run[3]) == s4;
    OneMoreStep(budget, s, run[..4], s4, run[4]);
    assert s4.workers - {0} == map[];
  }

  /**
    A run after which the write keeps the invariant and yet loses an update: between
    read and write the job was claimed, printed and saved, and Done becomes Cancelled.
   */
  lemma InvMissesLostUpdate(budget: nat, now: int)
    requires budget >= 3
    ensures Admissible(budget, INITIAL, CLAIM_INTERRUPTED)
    ensures var s := After(budget, INITIAL, CLAIM_INTERRUPTED);
      && Admissible(budget, s, PRINT)
      && var t := After(budget, s, PRINT);
         && "a" in s.store && s.store["a"].state == Pending && "a" in t.store && t.store["a"].state == Done
         && Overwritten(s, t, "a", now).store["a"].state == Cancelled
         && Inv(budget, Overwritten(s, t, "a", now)) && !ActsAtomically(s, t, "a", now)
  {
    RestartedRuns(budget);
    var s := After(budget, INITIAL, CLAIM_INTERRUPTED);
    PrintedRuns(budget, s);
    var t := After(budget, s, PRINT);
    assert "a" in s.store && "a" in t.store;
    ReachableOk(budget, CLAIM_INTERRUPTED);
    assert FreeWithinCalls(s, t, "a");
    StaleCancelKeepsInvIff(budget, s, PRINT, "a", now);
  }
}
