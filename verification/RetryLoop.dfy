/**
  The retry loop of one claimed job as a function of what its environment does,
  and what that function guarantees: a bounded number of calls, a bounded total
  backoff, one write per attempt, and that it is a path of the queue protocol.
 */
module RetryLoop {
  import opened Receipts
  import opened Jobs
  import opened StoreSpec
  import opened Protocol

  /**
    Round by round: how Process ended and after how many sends, whether the Save
    committed, whether the backoff was cut short by cancellation, and the time.
   */
  datatype Env = Env(
    process: nat -> Outcome,
    sent: nat -> nat,
    commits: nat -> bool,
    cancelled: nat -> bool,
    clock: nat -> int)

  datatype Event = Called(job: Job) | Saved(job: Job) | SaveFailed(job: Job) | Slept(duration: nat)

  function Counted(j: Job): Job {
    j.(attempts := j.attempts + 1)
  }

  /** The job as round `k` persists it. */
  function Persisted(budget: nat, j: Job, env: Env, k: nat): Job {
    AfterAttempt(budget, Counted(j), env.process(k), env.clock(k))
  }

  predicate LastRound(budget: nat, j: Job, env: Env, k: nat) {
    !env.commits(k) || IsFinal(budget, Counted(j), env.process(k)) || env.cancelled(k)
  }

  /** Everything round `k` does, in order. */
  function Round(budget: nat, j: Job, backoff: nat, env: Env, k: nat): seq<Event> {
    var p := Persisted(budget, j, env, k);
    [Called(Counted(j))]
    + (if !env.commits(k) then [SaveFailed(p)]
       else if IsFinal(budget, Counted(j), env.process(k)) then [Saved(p)]
       else [Saved(p), Slept(backoff)])
  }

  function Loop(budget: nat, j: Job, backoff: nat, env: Env, k: nat): seq<Event>
    decreases if j.attempts < budget then budget - j.attempts else 0
  {
    Round(budget, j, backoff, env, k)
    + if LastRound(budget, j, env, k) then []
      else Loop(budget, Persisted(budget, j, env, k), 2 * backoff, env, k + 1)
  }

  /** The store after the writes among `events`. */
  function Written(m: Store, events: seq<Event>): Store
    decreases |events|
  {
    if events == [] then m
    else Written(if events[0].Saved? then Put(m, events[0].job) else m, events[1..])
  }

  lemma {:induction false} WrittenConcat(m: Store, a: seq<Event>, b: seq<Event>)
    ensures Written(m, a + b) == Written(Written(m, a), b)
    decreases |a|
  {
    if a == [] {
      assert a + b == b;
    } else {
      assert (a + b)[1..] == a[1..] + b;
      WrittenConcat(if a[0].Saved? then Put(m, a[0].job) else m, a[1..], b);
    }
  }

  // ------------------------------------------------------------------ bounds

  function CallCount(events: seq<Event>): nat {
    if events == [] then 0 else (if events[0].Called? then 1 else 0) + CallCount(events[1..])
  }

  function SleepTotal(events: seq<Event>): nat {
    if events == [] then 0 else (if events[0].Slept? then events[0].duration else 0) + SleepTotal(events[1..])
  }

  lemma {:induction false} TotalsConcat(a: seq<Event>, b: seq<Event>)
    ensures CallCount(a + b) == CallCount(a) + CallCount(b)
    ensures SleepTotal(a + b) == SleepTotal(a) + SleepTotal(b)
  {
    if a == [] {
      assert a + b == b;
    } else {
      assert (a + b)[1..] == a[1..] + b;
      TotalsConcat(a[1..], b);
    }
  }

  lemma RoundTotals(budget: nat, j: Job, backoff: nat, env: Env, k: nat)
    ensures var r := Round(budget, j, backoff, env, k);
      && CallCount(r) == 1
      && SleepTotal(r) == if env.commits(k) && !IsFinal(budget, Counted(j), env.process(k)) then backoff else 0
  {
    var r := Round(budget, j, backoff, env, k);
    var p := Persisted(budget, j, env, k);
    if env.commits(k) && !IsFinal(budget, Counted(j), env.process(k)) {
      var tail := [Saved(p), Slept(backoff)];
      assert r[1..] == tail && tail[1..] == [Slept(backoff)];
      assert CallCount(tail[1..]) == 0 && SleepTotal(tail[1..]) == backoff;
      assert CallCount(tail) == 0 && SleepTotal(tail) == backoff;
    } else {
      var save := if env.commits(k) then Saved(p) else SaveFailed(p);
      assert r[1..] == [save] && CallCount([save]) == 0 && SleepTotal([save]) == 0;
    }
  }

  function Pow2(n: nat): nat {
    if n == 0 then 1 else 2 * Pow2(n - 1)
  }

  /** A job with `r` attempts left is processed at most `r` times; a spent one once. */
  lemma {:induction false} LoopCallsBounded(budget: nat, j: Job, backoff: nat, env: Env, k: nat)
    ensures 1 <= CallCount(Loop(budget, j, backoff, env, k))
             <= if j.attempts < budget then budget - j.attempts else 1
    decreases if j.attempts < budget then budget - j.attempts else 0
  {
    RoundTotals(budget, j, backoff, env, k);
    var rest := if LastRound(budget, j, env, k) then []
                else Loop(budget, Persisted(budget, j, env, k), 2 * backoff, env, k + 1);
    TotalsConcat(Round(budget, j, backoff, env, k), rest);
    if !LastRound(budget, j, env, k) {
      LoopCallsBounded(budget, Persisted(budget, j, env, k), 2 * backoff, env, k + 1);
    }
  }

  /**
    Exactly when the loop stops: its call number `i` is the last just when the Save
    fails, the wait is cancelled, the outcome is not transient or the budget is spent.
   */
  lemma {:induction false} LoopEnds(budget: nat, j: Job, backoff: nat, env: Env, k: nat, i: nat)
    requires i < CallCount(Loop(budget, j, backoff, env, k))
    ensures i + 1 == CallCount(Loop(budget, j, backoff, env, k)) <==>
      !env.commits(k + i) || env.cancelled(k + i) || !env.process(k + i).Transient? || j.attempts + i + 1 >= budget
    decreases i
  {
    RoundTotals(budget, j, backoff, env, k);
    var next := Persisted(budget, j, env, k);
    var rest := if LastRound(budget, j, env, k) then [] else Loop(budget, next, 2 * backoff, env, k + 1);
    TotalsConcat(Round(budget, j, backoff, env, k), rest);
    if !LastRound(budget, j, env, k) {
      LoopCallsBounded(budget, next, 2 * backoff, env, k + 1);
      if i > 0 { LoopEnds(budget, next, 2 * backoff, env, k + 1, i - 1); }
    }
  }

  /** With `r` attempts left the backoffs total at most base * (2^(r-1) - 1). */
  lemma {:induction false} LoopSleepBounded(budget: nat, j: Job, backoff: nat, env: Env, k: nat)
    requires j.attempts < budget
    ensures SleepTotal(Loop(budget, j, backoff, env, k)) <= backoff * (Pow2(budget - j.attempts - 1) - 1)
    decreases budget - j.attempts
  {
    RoundTotals(budget, j, backoff, env, k);
    var next := Persisted(budget, j, env, k);
    var rest := if LastRound(budget, j, env, k) then [] else Loop(budget, next, 2 * backoff, env, k + 1);
    TotalsConcat(Round(budget, j, backoff, env, k), rest);
    var r := budget - j.attempts;
    if r >= 2 {
      DoublingSums(backoff, r - 1);
      PowPositive(r - 2);
      if !LastRound(budget, j, env, k) {
        LoopSleepBounded(budget, next, 2 * backoff, env, k + 1);
      } else {
        assert 0 <= 2 * backoff * (Pow2(r - 2) - 1) by { MulNonNegative(2 * backoff, Pow2(r - 2) - 1); }
      }
    }
  }

  lemma DoublingSums(base: nat, n: nat)
    requires n >= 1
    ensures base + 2 * base * (Pow2(n - 1) - 1) == base * (Pow2(n) - 1)
  {
    assert Pow2(n) == 2 * Pow2(n - 1);
    assert 2 * base * (Pow2(n - 1) - 1) == base * (2 * Pow2(n - 1)) - 2 * base;
  }

  lemma MulNonNegative(a: nat, b: nat)
    ensures 0 <= a * b
  {}

  lemma {:induction false} PowPositive(n: nat)
    ensures Pow2(n) >= 1
  {
    if n > 0 { PowPositive(n - 1); }
  }

  /**
    How the write after a call records its outcome: Done exactly when it succeeded,
    Failed with its message when it failed for good or with the budget spent, and
    otherwise as it was, to be tried again.
   */
  ghost predicate Recorded(budget: nat, called: Job, written: Job, o: Outcome, now: int) {
    && written.SameIdentity(called) && written.attempts == called.attempts && written.updatedAt == now
    && match o {
         case Success => written.state == Done && written.lastError == called.lastError
         case Permanent(message) => written.state == Failed && written.lastError == ProcessError(message)
         case Transient(message) =>
           if called.attempts >= budget then written.state == Failed && written.lastError == ProcessError(message)
           else written.state == called.state && written.lastError == called.lastError
       }
  }

  lemma PersistedRecords(budget: nat, j: Job, env: Env, k: nat)
    ensures Recorded(budget, Counted(j), Persisted(budget, j, env, k), env.process(k), env.clock(k))
  {}

  /** Event `i` of the trace is a call; what is written next carries its attempt number and records its outcome. */
  ghost predicate PersistedAt(budget: nat, attempts: nat, env: Env, k: nat, events: seq<Event>, i: nat)
    requires i < |events|
  {
    var call := CallCount(events[..i]);
    && events[i].Called? && events[i].job.attempts == attempts + call + 1
    && i + 1 < |events| && (events[i + 1].Saved? || events[i + 1].SaveFailed?)
    && (events[i + 1].Saved? <==> env.commits(k + call))
    && Recorded(budget, events[i].job, events[i + 1].job, env.process(k + call), env.clock(k + call))
  }

  lemma RoundPersists(budget: nat, j: Job, backoff: nat, env: Env, k: nat, events: seq<Event>)
    requires Round(budget, j, backoff, env, k) <= events
    ensures PersistedAt(budget, j.attempts, env, k, events, 0)
  {
    var r := Round(budget, j, backoff, env, k);
    assert events[0] == r[0] && events[1] == r[1] && events[..0] == [];
    PersistedRecords(budget, j, env, k);
  }

  lemma LaterPersists(budget: nat, attempts: nat, env: Env, k: nat, r: seq<Event>, rest: seq<Event>, i: nat)
    requires CallCount(r) == 1 && i < |rest| && PersistedAt(budget, attempts + 1, env, k + 1, rest, i)
    ensures PersistedAt(budget, attempts, env, k, r + rest, |r| + i)
  {
    CallsBefore(r, rest, i);
  }

  lemma CallsBefore(r: seq<Event>, rest: seq<Event>, i: nat)
    requires i < |rest|
    ensures CallCount((r + rest)[..|r| + i]) == CallCount(r) + CallCount(rest[..i])
  {
    assert (r + rest)[..|r| + i] == r + rest[..i];
    TotalsConcat(r, rest[..i]);
  }

  /** Every call is at once followed by a write that carries its attempt number and records how it ended. */
  lemma {:induction false} EveryCallIsPersisted(budget: nat, j: Job, backoff: nat, env: Env, k: nat, i: nat)
    requires var events := Loop(budget, j, backoff, env, k); i < |events| && events[i].Called?
    ensures PersistedAt(budget, j.attempts, env, k, Loop(budget, j, backoff, env, k), i)
    decreases if j.attempts < budget then budget - j.attempts else 0
  {
    var r := Round(budget, j, backoff, env, k);
    if i < |r| {
      assert i == 0;
      RoundPersists(budget, j, backoff, env, k, Loop(budget, j, backoff, env, k));
    } else {
      var next := Persisted(budget, j, env, k);
      var rest := Loop(budget, next, 2 * backoff, env, k + 1);
      EveryCallIsPersisted(budget, next, 2 * backoff, env, k + 1, i - |r|);
      RoundTotals(budget, j, backoff, env, k);
      LaterPersists(budget, j.attempts, env, k, r, rest, i - |r|);
    }
  }

  /** The wait after call number `n` lasts base * 2^n, calls counted from 0. */
  lemma {:induction false} WaitsDouble(budget: nat, j: Job, backoff: nat, env: Env, k: nat, i: nat)
    requires var events := Loop(budget, j, backoff, env, k); i < |events| && events[i].Slept?
    ensures var events := Loop(budget, j, backoff, env, k);
      CallCount(events[..i]) > 0 && events[i].duration == backoff * Pow2(CallCount(events[..i]) - 1)
    decreases if j.attempts < budget then budget - j.attempts else 0
  {
    var r := Round(budget, j, backoff, env, k);
    var events := Loop(budget, j, backoff, env, k);
    RoundTotals(budget, j, backoff, env, k);
    if i < |r| {
      assert i == 2 && events[..2] == [r[0], r[1]] && events[..2][1..] == [r[1]] && [r[1]][1..] == [];
      assert CallCount([r[1]]) == 0 && CallCount(events[..2]) == 1;
    } else {
      var next := Persisted(budget, j, env, k);
      var rest := Loop(budget, next, 2 * backoff, env, k + 1);
      WaitsDouble(budget, next, 2 * backoff, env, k + 1, i - |r|);
      CallsBefore(r, rest, i - |r|);
      Twice(backoff, CallCount(rest[..i - |r|]));
    }
  }

  lemma Twice(base: nat, n: nat)
    requires n > 0
    ensures 2 * base * Pow2(n - 1) == base * Pow2(n)
  {}

  // ------------------------------------------------- a path of the protocol

  /** `n` copies sent by worker `w`. */
  function Copies(w: nat, n: nat): seq<Action> {
    if n == 0 then [] else [SendCopy(w)] + Copies(w, n - 1)
  }

  /** A successful Process has sent every copy, a failed one possibly fewer. */
  function SentBy(j: Job, env: Env, k: nat): nat {
    var copies := EffectiveCopies(j.receipt);
    if env.process(k).Success? || env.sent(k) > copies then copies else env.sent(k)
  }

  /** Worker `w`'s own steps while it runs the loop, from the round's start. */
  function Script(budget: nat, w: nat, j: Job, env: Env, k: nat): seq<Action>
    decreases if j.attempts < budget then budget - j.attempts else 0
  {
    [BeginAttempt(w)] + Copies(w, SentBy(j, env, k)) + [EndAttempt(w, env.process(k), env.clock(k))]
    + (if !env.commits(k) then [SaveFails(w, false)]
       else if IsFinal(budget, Counted(j), env.process(k)) then [Save(w)]
       else if env.cancelled(k) then [Save(w), Shutdown, StopSleeping(w)]
       else [Save(w), Wake(w)] + Script(budget, w, Persisted(budget, j, env, k), env, k + 1))
  }

  /** What the copies of one call change: only the counters of the sends. */
  ghost predicate AfterSends(s: State, s': State, w: nat, n: nat)
    requires w in s.workers
  {
    && s'.store == s.store && s'.phase == s.phase && s'.calls == s.calls && s'.maxAttempts == s.maxAttempts
    && s'.workers == s.workers[w := s.workers[w].(sent := s.workers[w].sent + n)]
  }

  lemma {:induction false} CopiesRun(budget: nat, s: State, w: nat, n: nat)
    requires At(s, w, Calling) && s.workers[w].sent + n <= EffectiveCopies(s.workers[w].job.receipt)
    ensures Admissible(budget, s, Copies(w, n))
    ensures AfterSends(s, After(budget, s, Copies(w, n)), w, n)
    decreases n
  {
    if n > 0 {
      OneStep(budget, s, SendCopy(w));
      var s' := DoSendCopy(s, w);
      CopiesRun(budget, s', w, n - 1);
      RunsCompose(budget, s, [SendCopy(w)], Copies(w, n - 1));
    }
  }

  /** One attempt without its write: the store is untouched, the worker is about to save. */
  lemma AttemptRuns(budget: nat, s: State, w: nat, j: Job, env: Env, k: nat)
    requires At(s, w, Ready) && s.workers[w].job == j && s.maxAttempts == budget
    ensures var run := [BeginAttempt(w)] + Copies(w, SentBy(j, env, k)) + [EndAttempt(w, env.process(k), env.clock(k))];
      && Admissible(budget, s, run)
      && var s' := After(budget, s, run);
         && s'.store == s.store && s'.phase == s.phase && s'.maxAttempts == budget
         && s'.workers.Keys == s.workers.Keys
         && s'.workers[w].pc == Saving(IsFinal(budget, Counted(j), env.process(k)))
         && s'.workers[w].job == Persisted(budget, j, env, k)
  {
    var n := SentBy(j, env, k);
    var end := EndAttempt(w, env.process(k), env.clock(k));
    OneStep(budget, s, BeginAttempt(w));
    var s1 := DoBeginAttempt(s, w);
    CopiesRun(budget, s1, w, n);
    RunsCompose(budget, s, [BeginAttempt(w)], Copies(w, n));
    var s2 := After(budget, s1, Copies(w, n));
    OneStep(budget, s2, end);
    RunsCompose(budget, s, [BeginAttempt(w)] + Copies(w, n), [end]);
  }

  /** How the round's write and its backoff end it. */
  lemma SettleRuns(budget: nat, s: State, w: nat, j: Job, done: bool, committed: bool, cancelled: bool)
    requires s.phase.Serving? && (s.phase.cancelled ==> cancelled)
    requires w in s.workers && s.workers[w].pc == Saving(done) && s.workers[w].job == j
    ensures var run := if !committed then [SaveFails(w, false)] else if done then [Save(w)]
                       else if cancelled then [Save(w), Shutdown, StopSleeping(w)] else [Save(w), Wake(w)];
      && Admissible(budget, s, run)
      && var s' := After(budget, s, run);
         && s'.store == (if committed then Put(s.store, j) else s.store) && s'.maxAttempts == s.maxAttempts
         && (!committed || done || cancelled ==> s'.workers.Keys == s.workers.Keys - {w})
         && (committed && !done && !cancelled ==>
               && s'.phase == s.phase && s'.workers.Keys == s.workers.Keys
               && At(s', w, Ready) && s'.workers[w].job == j)
  {
    if !committed {
      OneStep(budget, s, SaveFails(w, false));
    } else {
      OneStep(budget, s, Save(w));
      var s1 := DoSave(s, w);
      if !done && cancelled {
        OneStep(budget, s1, Shutdown);
        var s2 := s1.(phase := Serving(true));
        OneStep(budget, s2, StopSleeping(w));
        RunsCompose(budget, s1, [Shutdown], [StopSleeping(w)]);
        RunsCompose(budget, s, [Save(w)], [Shutdown] + [StopSleeping(w)]);
        assert [Save(w)] + ([Shutdown] + [StopSleeping(w)]) == [Save(w), Shutdown, StopSleeping(w)];
      } else if !done {
        OneStep(budget, s1, Wake(w));
        RunsCompose(budget, s, [Save(w)], [Wake(w)]);
        assert [Save(w)] + [Wake(w)] == [Save(w), Wake(w)];
      }
    }
  }

  // ------------------------------------------------- what a run shows of a worker

  /** What step `a` shows of worker `w`: its calls and its writes. */
  ghost function Seen(s: State, a: Action, w: nat): seq<Event> {
    if w !in s.workers then []
    else if a == BeginAttempt(w) then [Called(Counted(s.workers[w].job))]
    else if a == Save(w) then [Saved(s.workers[w].job)]
    else if a.SaveFails? && a.w == w then [SaveFailed(s.workers[w].job)]
    else []
  }

  ghost function Observed(budget: nat, s: State, run: seq<Action>, w: nat): seq<Event>
    requires Admissible(budget, s, run)
    decreases |run|
  {
    if run == [] then [] else Seen(s, run[0], w) + Observed(budget, Apply(s, run[0]), run[1..], w)
  }

  lemma {:induction false} ObservedConcat(budget: nat, s: State, a: seq<Action>, b: seq<Action>, w: nat)
    requires Admissible(budget, s, a) && Admissible(budget, After(budget, s, a), b)
    ensures Admissible(budget, s, a + b)
    ensures Observed(budget, s, a + b, w) == Observed(budget, s, a, w) + Observed(budget, After(budget, s, a), b, w)
    decreases |a|
  {
    if a == [] {
      assert a + b == b;
    } else {
      ObservedConcat(budget, Apply(s, a[0]), a[1..], b, w);
      ObservedFirst(budget, s, a, b, w);
      var first, rest, more := Parts(budget, s, a, b, w);
      Associate(first, rest, more);
    }
  }

  /** What the first step of `a` shows, the rest of `a`, and `b` after it. */
  lemma Parts(budget: nat, s: State, a: seq<Action>, b: seq<Action>, w: nat)
    returns (first: seq<Event>, rest: seq<Event>, more: seq<Event>)
    requires a != [] && Admissible(budget, s, a) && Admissible(budget, After(budget, s, a), b)
    ensures first == Seen(s, a[0], w) && rest == Observed(budget, Apply(s, a[0]), a[1..], w)
    ensures Observed(budget, s, a, w) == first + rest && more == Observed(budget, After(budget, s, a), b, w)
    ensures After(budget, s, a) == After(budget, Apply(s, a[0]), a[1..])
  {
    first, rest := Seen(s, a[0], w), Observed(budget, Apply(s, a[0]), a[1..], w);
    more := Observed(budget, After(budget, s, a), b, w);
  }

  lemma Associate<T>(a: seq<T>, b: seq<T>, c: seq<T>)
    ensures a + (b + c) == a + b + c
  {}

  lemma ObservedFirst(budget: nat, s: State, a: seq<Action>, b: seq<Action>, w: nat)
    requires a != [] && Enabled(s, a[0]) && Within(budget, a[0]) && Admissible(budget, Apply(s, a[0]), a[1..] + b)
    ensures Admissible(budget, s, a + b)
    ensures Observed(budget, s, a + b, w)
         == Seen(s, a[0], w) + Observed(budget, Apply(s, a[0]), a[1..] + b, w)
  {
    assert (a + b)[0] == a[0] && (a + b)[1..] == a[1..] + b;
  }

  lemma ObservedOne(budget: nat, s: State, a: Action, w: nat)
    requires Enabled(s, a) && Within(budget, a)
    ensures Admissible(budget, s, [a]) && Observed(budget, s, [a], w) == Seen(s, a, w)
  {
    OneStep(budget, s, a);
    assert [a][1..] == [];
    assert Observed(budget, Apply(s, a), [], w) == [];
  }

  lemma {:induction false} CopiesUnseen(budget: nat, s: State, w: nat, n: nat)
    requires Admissible(budget, s, Copies(w, n))
    ensures Observed(budget, s, Copies(w, n), w) == []
    decreases n
  {
    if n > 0 { CopiesUnseen(budget, Apply(s, SendCopy(w)), w, n - 1); }
  }

  lemma AttemptSeen(budget: nat, s: State, w: nat, j: Job, env: Env, k: nat)
    requires At(s, w, Ready) && s.workers[w].job == j && s.maxAttempts == budget
    ensures var run := [BeginAttempt(w)] + Copies(w, SentBy(j, env, k)) + [EndAttempt(w, env.process(k), env.clock(k))];
      Admissible(budget, s, run) && Observed(budget, s, run, w) == [Called(Counted(j))]
  {
    var begin, copies, end := [BeginAttempt(w)], Copies(w, SentBy(j, env, k)), [EndAttempt(w, env.process(k), env.clock(k))];
    AttemptRuns(budget, s, w, j, env, k);
    ObservedOne(budget, s, BeginAttempt(w), w);
    OneStep(budget, s, BeginAttempt(w));
    CopiesRun(budget, DoBeginAttempt(s, w), w, SentBy(j, env, k));
    CopiesUnseen(budget, DoBeginAttempt(s, w), w, SentBy(j, env, k));
    ObservedConcat(budget, s, begin, copies, w);
    RunsCompose(budget, s, begin, copies);
    var s2 := After(budget, s, begin + copies);
    ObservedOne(budget, s2, EndAttempt(w, env.process(k), env.clock(k)), w);
    ObservedConcat(budget, s, begin + copies, end, w);
  }

  lemma StopUnseen(budget: nat, s: State, w: nat)
    requires At(s, w, Sleeping)
    ensures Admissible(budget, s, [Shutdown, StopSleeping(w)])
    ensures Observed(budget, s, [Shutdown, StopSleeping(w)], w) == []
  {
    var s' := s.(phase := Serving(true));
    ObservedOne(budget, s, Shutdown, w);
    ObservedOne(budget, s', StopSleeping(w), w);
    ObservedConcat(budget, s, [Shutdown], [StopSleeping(w)], w);
    assert [Shutdown] + [StopSleeping(w)] == [Shutdown, StopSleeping(w)];
  }

  lemma SaveSeen(budget: nat, s: State, w: nat, done: bool, cancelled: bool)
    requires s.phase.Serving? && (s.phase.cancelled ==> cancelled)
    requires w in s.workers && s.workers[w].pc == Saving(done)
    ensures var run := if done then [Save(w)] else if cancelled then [Save(w), Shutdown, StopSleeping(w)] else [Save(w), Wake(w)];
      Admissible(budget, s, run) && Observed(budget, s, run, w) == [Saved(s.workers[w].job)]
  {
    SettleRuns(budget, s, w, s.workers[w].job, done, true, cancelled);
    ObservedOne(budget, s, Save(w), w);
    var s1 := DoSave(s, w);
    if !done && cancelled {
      StopUnseen(budget, s1, w);
      ObservedConcat(budget, s, [Save(w)], [Shutdown, StopSleeping(w)], w);
      assert [Save(w)] + [Shutdown, StopSleeping(w)] == [Save(w), Shutdown, StopSleeping(w)];
    } else if !done {
      ObservedOne(budget, s1, Wake(w), w);
      ObservedConcat(budget, s, [Save(w)], [Wake(w)], w);
      assert [Save(w)] + [Wake(w)] == [Save(w), Wake(w)];
    }
  }

  lemma SettleSeen(budget: nat, s: State, w: nat, j: Job, done: bool, committed: bool, cancelled: bool)
    requires s.phase.Serving? && (s.phase.cancelled ==> cancelled)
    requires w in s.workers && s.workers[w].pc == Saving(done) && s.workers[w].job == j
    ensures var run := if !committed then [SaveFails(w, false)] else if done then [Save(w)]
                       else if cancelled then [Save(w), Shutdown, StopSleeping(w)] else [Save(w), Wake(w)];
      && Admissible(budget, s, run)
      && Observed(budget, s, run, w) == [if committed then Saved(j) else SaveFailed(j)]
  {
    if committed {
      SaveSeen(budget, s, w, done, cancelled);
    } else {
      ObservedOne(budget, s, SaveFails(w, false), w);
    }
  }

  /** A trace without its waits. */
  function Awake(events: seq<Event>): seq<Event> {
    if events == [] then [] else (if events[0].Slept? then [] else [events[0]]) + Awake(events[1..])
  }

  lemma {:induction false} AwakeConcat(a: seq<Event>, b: seq<Event>)
    ensures Awake(a + b) == Awake(a) + Awake(b)
  {
    if a == [] {
      assert a + b == b;
    } else {
      assert (a + b)[1..] == a[1..] + b;
      AwakeConcat(a[1..], b);
    }
  }

  lemma RoundAwake(budget: nat, j: Job, backoff: nat, env: Env, k: nat)
    ensures var p := Persisted(budget, j, env, k);
      Awake(Round(budget, j, backoff, env, k))
      == [Called(Counted(j))] + [if env.commits(k) then Saved(p) else SaveFailed(p)]
  {
    var p := Persisted(budget, j, env, k);
    var save := if env.commits(k) then Saved(p) else SaveFailed(p);
    var r := Round(budget, j, backoff, env, k);
    assert Awake([]) == [];
    if env.commits(k) && !IsFinal(budget, Counted(j), env.process(k)) {
      assert r[1..] == [save, Slept(backoff)] && r[1..][1..] == [Slept(backoff)] && r[1..][1..][1..] == [];
      assert Awake(r[1..][1..]) == [];
    } else {
      assert r[1..] == [save] && r[1..][1..] == [];
    }
    assert Awake(r[1..]) == [save];
  }

  /**
    The loop refines the protocol: worker `w`'s steps are a run that the protocol
    allows, the calls and writes that run shows are the loop's, one for one and in
    order, it leaves the store the loop's writes describe, and the worker gives up
    its job. A shutdown that came before cuts the first wait short.
   */
  lemma {:induction false} LoopIsProtocolRun(budget: nat, s: State, w: nat, j: Job, backoff: nat, env: Env, k: nat)
    requires At(s, w, Ready) && s.workers[w].job == j && s.maxAttempts == budget
    requires s.phase.cancelled ==> env.cancelled(k)
    ensures var run := Script(budget, w, j, env, k);
      && Admissible(budget, s, run)
      && Observed(budget, s, run, w) == Awake(Loop(budget, j, backoff, env, k))
      && After(budget, s, run).store == Written(s.store, Loop(budget, j, backoff, env, k))
      && After(budget, s, run).workers.Keys == s.workers.Keys - {w}
    decreases if j.attempts < budget then budget - j.attempts else 0
  {
    var p := Persisted(budget, j, env, k);
    if LastRound(budget, j, env, k) {
      LastRoundRuns(budget, s, w, j, backoff, env, k);
    } else {
      var s2 := RoundRuns(budget, s, w, j, backoff, env, k);
      LoopIsProtocolRun(budget, s2, w, p, 2 * backoff, env, k + 1);
      ThenRestRuns(budget, s, w, j, backoff, env, k, s2);
    }
  }

  /** The steps of one round, from its start to its end. */
  function RoundScript(budget: nat, w: nat, j: Job, env: Env, k: nat): seq<Action> {
    [BeginAttempt(w)] + Copies(w, SentBy(j, env, k)) + [EndAttempt(w, env.process(k), env.clock(k))]
    + (if !env.commits(k) then [SaveFails(w, false)]
       else if IsFinal(budget, Counted(j), env.process(k)) then [Save(w)]
       else if env.cancelled(k) then [Save(w), Shutdown, StopSleeping(w)]
       else [Save(w), Wake(w)])
  }

  ghost predicate RoundRun(budget: nat, s: State, w: nat, j: Job, backoff: nat, env: Env, k: nat, s': State) {
    var run := RoundScript(budget, w, j, env, k);
    && Admissible(budget, s, run) && After(budget, s, run) == s'
    && Observed(budget, s, run, w) == Awake(Round(budget, j, backoff, env, k))
    && s'.store == Written(s.store, Round(budget, j, backoff, env, k))
    && s'.maxAttempts == s.maxAttempts
    && (if LastRound(budget, j, env, k) then s'.workers.Keys == s.workers.Keys - {w}
        else && s'.phase == s.phase && s'.workers.Keys == s.workers.Keys
             && At(s', w, Ready) && s'.workers[w].job == Persisted(budget, j, env, k))
  }

  lemma RoundRuns(budget: nat, s: State, w: nat, j: Job, backoff: nat, env: Env, k: nat) returns (s': State)
    requires At(s, w, Ready) && s.workers[w].job == j && s.maxAttempts == budget
    requires s.phase.cancelled ==> env.cancelled(k)
    ensures RoundRun(budget, s, w, j, backoff, env, k, s')
  {
    var attempt := [BeginAttempt(w)] + Copies(w, SentBy(j, env, k)) + [EndAttempt(w, env.process(k), env.clock(k))];
    var done := IsFinal(budget, Counted(j), env.process(k));
    var p := Persisted(budget, j, env, k);
    var settle := if !env.commits(k) then [SaveFails(w, false)] else if done then [Save(w)]
                  else if env.cancelled(k) then [Save(w), Shutdown, StopSleeping(w)] else [Save(w), Wake(w)];
    AttemptRuns(budget, s, w, j, env, k);
    AttemptSeen(budget, s, w, j, env, k);
    var s1 := After(budget, s, attempt);
    SettleRuns(budget, s1, w, p, done, env.commits(k), env.cancelled(k));
    SettleSeen(budget, s1, w, p, done, env.commits(k), env.cancelled(k));
    RunsCompose(budget, s, attempt, settle);
    ObservedConcat(budget, s, attempt, settle, w);
    RoundWrites(budget, s.store, j, backoff, env, k);
    RoundAwake(budget, j, backoff, env, k);
    s' := After(budget, s1, settle);
  }

  lemma LastRoundRuns(budget: nat, s: State, w: nat, j: Job, backoff: nat, env: Env, k: nat)
    requires At(s, w, Ready) && s.workers[w].job == j && s.maxAttempts == budget && LastRound(budget, j, env, k)
    requires s.phase.cancelled ==> env.cancelled(k)
    ensures var run := Script(budget, w, j, env, k);
      && Admissible(budget, s, run)
      && Observed(budget, s, run, w) == Awake(Loop(budget, j, backoff, env, k))
      && After(budget, s, run).store == Written(s.store, Loop(budget, j, backoff, env, k))
      && After(budget, s, run).workers.Keys == s.workers.Keys - {w}
  {
    var s' := RoundRuns(budget, s, w, j, backoff, env, k);
    assert Script(budget, w, j, env, k) == RoundScript(budget, w, j, env, k);
    assert Loop(budget, j, backoff, env, k) == Round(budget, j, backoff, env, k);
  }

  /** A round that is not the last, and the run of the rest. */
  lemma ThenRestRuns(budget: nat, s: State, w: nat, j: Job, backoff: nat, env: Env, k: nat, s2: State)
    requires !LastRound(budget, j, env, k) && RoundRun(budget, s, w, j, backoff, env, k, s2)
    requires var rest := Script(budget, w, Persisted(budget, j, env, k), env, k + 1);
      var loop := Loop(budget, Persisted(budget, j, env, k), 2 * backoff, env, k + 1);
      && Admissible(budget, s2, rest) && Observed(budget, s2, rest, w) == Awake(loop)
      && After(budget, s2, rest).store == Written(s2.store, loop)
      && After(budget, s2, rest).workers.Keys == s2.workers.Keys - {w}
    ensures var run := Script(budget, w, j, env, k);
      && Admissible(budget, s, run)
      && Observed(budget, s, run, w) == Awake(Loop(budget, j, backoff, env, k))
      && After(budget, s, run).store == Written(s.store, Loop(budget, j, backoff, env, k))
      && After(budget, s, run).workers.Keys == s.workers.Keys - {w}
  {
    var p := Persisted(budget, j, env, k);
    var rest := Script(budget, w, p, env, k + 1);
    var round := RoundScript(budget, w, j, env, k);
    var loop := Loop(budget, p, 2 * backoff, env, k + 1);
    RunsCompose(budget, s, round, rest);
    ObservedConcat(budget, s, round, rest, w);
    ScriptGoesOn(budget, w, j, env, k);
    WrittenConcat(s.store, Round(budget, j, backoff, env, k), loop);
    AwakeConcat(Round(budget, j, backoff, env, k), loop);
  }

  lemma ScriptGoesOn(budget: nat, w: nat, j: Job, env: Env, k: nat)
    requires !LastRound(budget, j, env, k)
    ensures Script(budget, w, j, env, k)
         == RoundScript(budget, w, j, env, k) + Script(budget, w, Persisted(budget, j, env, k), env, k + 1)
  {}

  /**
    A worker's whole pass, claim and loop, is a protocol run: it begins and ends
    without the worker holding a job, and leaves the store the loop's writes describe.
   */
  lemma PassIsProtocolRun(budget: nat, s: State, w: nat, printer: string, id: string, now: int, backoff: nat, env: Env)
    requires s.phase.Serving? && s.maxAttempts == budget && (s.phase.cancelled ==> env.cancelled(0))
    requires w !in s.workers && WellKeyed(s.store) && IsNext(s.store, Some(printer), id)
    ensures var j := Claimed(s.store[id], now);
      var run := [Claim(w, printer, id, now)] + Script(budget, w, j, env, 0);
      && Admissible(budget, s, run)
      && Observed(budget, s, run, w) == Awake(Loop(budget, j, backoff, env, 0))
      && After(budget, s, run).store == Written(s.store[id := j], Loop(budget, j, backoff, env, 0))
      && After(budget, s, run).workers.Keys == s.workers.Keys
  {
    var j := Claimed(s.store[id], now);
    var s' := DoClaim(s, w, id, now);
    OneStep(budget, s, Claim(w, printer, id, now));
    LoopIsProtocolRun(budget, s', w, j, backoff, env, 0);
    RunsCompose(budget, s, [Claim(w, printer, id, now)], Script(budget, w, j, env, 0));
    ObservedOne(budget, s, Claim(w, printer, id, now), w);
    ObservedConcat(budget, s, [Claim(w, printer, id, now)], Script(budget, w, j, env, 0), w);
    assert s'.workers.Keys - {w} == s.workers.Keys;
  }

  /** A claim that did not commit, and changed nothing, is a protocol step too. */
  lemma FailedPassIsProtocolRun(budget: nat, s: State, printer: string, id: string, now: int)
    requires s.phase.Serving? && IsNext(s.store, Some(printer), id)
    ensures var run := [ClaimFails(printer, id, false, now)];
      Admissible(budget, s, run) && After(budget, s, run) == s
  {
    OneStep(budget, s, ClaimFails(printer, id, false, now));
  }

  lemma RoundWrites(budget: nat, m: Store, j: Job, backoff: nat, env: Env, k: nat)
    ensures Written(m, Round(budget, j, backoff, env, k))
         == if env.commits(k) then Put(m, Persisted(budget, j, env, k)) else m
  {
    var r := Round(budget, j, backoff, env, k);
    var p := Persisted(budget, j, env, k);
    if env.commits(k) && !IsFinal(budget, Counted(j), env.process(k)) {
      var tail := [Saved(p), Slept(backoff)];
      assert r[1..] == tail && tail[1..] == [Slept(backoff)] && tail[1..][1..] == [];
      assert Written(Put(m, p), tail[1..]) == Put(m, p);
      assert Written(m, tail) == Put(m, p);
    } else {
      var save := if env.commits(k) then Saved(p) else SaveFailed(p);
      assert r[1..] == [save] && [save][1..] == [];
      assert Written(m, [save]) == if env.commits(k) then Put(m, p) else m;
    }
  }
}
