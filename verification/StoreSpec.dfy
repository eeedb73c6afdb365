/**
  What a job store promises, over the abstract map from job ID to job. Both
  stores are proved against these definitions and the queue protocol steps by them.
 */
module StoreSpec {
  import opened Receipts
  import opened Jobs

  type Store = map<string, Job>

  ghost predicate WellKeyed(m: Store) {
    forall id | id in m :: m[id].id == id
  }

  // ---------------------------------------------------------------- listing

  ghost predicate StrictlySorted(s: seq<Job>) {
    forall i, j | 0 <= i < j < |s| :: Less(s[i].id, s[j].id)
  }

  /** `s` lists every job of `m` exactly once, in ascending ID order. */
  ghost predicate IsListing(m: Store, s: seq<Job>) {
    && StrictlySorted(s)
    && (forall i | 0 <= i < |s| :: s[i].id in m && m[s[i].id] == s[i])
    && (forall id | id in m :: exists i :: 0 <= i < |s| && s[i] == m[id])
  }

  lemma ListedOnce(m: Store, s: seq<Job>, i: nat, j: nat)
    requires IsListing(m, s) && i < |s| && j < |s| && s[i].id == s[j].id
    ensures i == j
  {
    LessIrreflexive(s[i].id);
  }

  /** A store has only one listing, so every map iteration order lists alike. */
  lemma {:induction false} ListingUnique(m: Store, s: seq<Job>, t: seq<Job>)
    requires WellKeyed(m) && IsListing(m, s) && IsListing(m, t)
    ensures s == t
    decreases |s|
  {
    assert t != [] ==> t[0].id in m;
    if s == [] {
    } else {
      assert s[0].id in m;
      assert t != [];
      HeadIsLeast(m, s, t);
      HeadIsLeast(m, t, s);
      LessTotal(s[0].id, t[0].id);
      var rest := m - {s[0].id};
      TailLists(m, s);
      TailLists(m, t);
      ListingUnique(rest, s[1..], t[1..]);
    }
  }

  lemma HeadIsLeast(m: Store, s: seq<Job>, t: seq<Job>)
    requires WellKeyed(m) && IsListing(m, s) && IsListing(m, t) && s != [] && t != []
    ensures !Less(s[0].id, t[0].id)
  {
    var i :| 0 <= i < |t| && t[i] == m[s[0].id];
    if i == 0 {
      LessIrreflexive(s[0].id);
    } else {
      LessAsymmetric(t[0].id, t[i].id);
    }
  }

  lemma TailLists(m: Store, s: seq<Job>)
    requires WellKeyed(m) && IsListing(m, s) && s != []
    ensures IsListing(m - {s[0].id}, s[1..])
  {
    var t := s[1..];
    forall i | 0 <= i < |t|
      ensures t[i].id in m - {s[0].id}
    {
      LessAsymmetric(s[0].id, s[i + 1].id);
    }
    forall id | id in m - {s[0].id}
      ensures exists i :: 0 <= i < |t| && t[i] == m[id]
    {
      var i :| 0 <= i < |s| && s[i] == m[id];
      assert i != 0;
      assert t[i - 1] == m[id];
    }
  }

  // --------------------------------------------------------------- claiming

  /** `printer` None selects over every printer, as NextPending does. */
  ghost predicate Claimable(j: Job, printer: Option<string>) {
    j.state == Pending && (printer.Some? ==> j.printer == printer.value)
  }

  /** `id` names the least-ID claimable job of `m`. */
  ghost predicate IsNext(m: Store, printer: Option<string>, id: string) {
    && id in m && Claimable(m[id], printer)
    && (forall k | k in m && Claimable(m[k], printer) :: k == id || Less(id, k))
  }

  ghost predicate NothingToClaim(m: Store, printer: Option<string>) {
    forall k | k in m :: !Claimable(m[k], printer)
  }

  lemma NextUnique(m: Store, printer: Option<string>, a: string, b: string)
    requires IsNext(m, printer, a) && IsNext(m, printer, b)
    ensures a == b
  {
    if a != b { LessAsymmetric(a, b); }
  }

  function Claimed(j: Job, now: int): Job {
    j.(state := Running, updatedAt := now)
  }

  // ---------------------------------------------------- idempotent enqueueing

  ghost predicate IsMatch(m: Store, key: string, now: int, id: string) {
    id in m && m[id].key == key && !KeyExpired(m[id], now)
  }

  /** `pick` is a legitimate outcome of the key lookup: some live match, or none exists. */
  ghost predicate IsLookup(m: Store, key: string, now: int, pick: Option<string>) {
    match pick
    case Some(id) => key != "" && IsMatch(m, key, now, id)
    case None => key == "" || forall id | id in m :: !IsMatch(m, key, now, id)
  }

  datatype EnqueueResult = Rejected | Existing(job: Job) | Created(job: Job)

  function Reactivated(j: Job, now: int): Job {
    j.(state := Pending, attempts := 0, lastError := NoError, updatedAt := now)
  }

  function Fresh(j: Job, id: string, now: int): Job {
    j.(id := id, state := Pending, createdAt := now, updatedAt := now)
  }

  /** The decision taken for `newJob` once the lookup has answered `pick`. */
  ghost function Resolve(m: Store, newJob: Job, pick: Option<string>, id: string, now: int): (Store, EnqueueResult)
    requires pick.Some? ==> pick.value in m
  {
    match pick
    case Some(found) =>
      if !SameLogicalRequest(m[found], newJob) then (m, Rejected)
      else if m[found].state == Failed then
        (m[found := Reactivated(m[found], now)], Existing(Reactivated(m[found], now)))
      else (m, Existing(m[found]))
    case None =>
      (m[id := Fresh(newJob, id, now)], Created(Fresh(newJob, id, now)))
  }

  /** Without a live job under its key a request becomes a new Pending job, created now, and changes no other. */
  lemma NewRequestGetsNewJob(m: Store, newJob: Job, id: string, now: int)
    requires IsLookup(m, newJob.key, now, None) && id !in m
    ensures var (m', r) := Resolve(m, newJob, None, id, now);
      && r.Created? && m'.Keys == m.Keys + {id} && m'[id] == r.job
      && (forall k | k in m :: m'[k] == m[k])
      && r.job.id == id && r.job.state == Pending && r.job.createdAt == now && r.job.attempts == newJob.attempts
      && r.job.printer == newJob.printer && r.job.receipt == newJob.receipt && r.job.key == newJob.key
  {}

  /** Two jobs sharing a non-empty key were created more than the TTL apart. */
  ghost predicate KeysSeparated(m: Store) {
    forall a, b | a in m && b in m && a != b && m[a].key == m[b].key && m[a].key != "" ::
      || m[b].createdAt - m[a].createdAt > IDEMPOTENCY_KEY_TTL
      || m[a].createdAt - m[b].createdAt > IDEMPOTENCY_KEY_TTL
  }

  /** Enqueueing keeps keys separated whatever `now` is: clocks may be read in any order. */
  lemma ResolveKeepsKeysSeparated(m: Store, newJob: Job, pick: Option<string>, id: string, now: int)
    requires KeysSeparated(m) && IsLookup(m, newJob.key, now, pick) && id !in m
    ensures KeysSeparated(Resolve(m, newJob, pick, id, now).0)
  {
    var m' := Resolve(m, newJob, pick, id, now).0;
    if pick == None {
      forall a | a in m && m[a].key == newJob.key && newJob.key != ""
        ensures now - m[a].createdAt > IDEMPOTENCY_KEY_TTL
      {
        assert !IsMatch(m, newJob.key, now, a);
      }
    }
  }

  /** At a time no earlier than the stored creation times, a key has at most one live job. */
  lemma MatchUnique(m: Store, key: string, now: int, a: string, b: string)
    requires KeysSeparated(m) && key != ""
    requires IsMatch(m, key, now, a) && IsMatch(m, key, now, b)
    requires m[a].createdAt <= now && m[b].createdAt <= now
    ensures a == b
  {
  }

  /**
    Exactly when the lookup leaves the outcome open: some two live matches that
    lie more than the TTL apart, which puts one of them in the future of `now`.
   */
  lemma LookupAmbiguousIff(m: Store, key: string, now: int)
    requires KeysSeparated(m) && key != ""
    ensures (exists p, q :: IsLookup(m, key, now, p) && IsLookup(m, key, now, q) && p != q)
       <==> (exists a, b :: IsMatch(m, key, now, a) && IsMatch(m, key, now, b)
                         && m[b].createdAt > now && m[b].createdAt - m[a].createdAt > IDEMPOTENCY_KEY_TTL)
  {
    if p, q :| IsLookup(m, key, now, p) && IsLookup(m, key, now, q) && p != q {
      assert p.Some? && q.Some?;
      var a, b := p.value, q.value;
      assert IsMatch(m, key, now, a) && IsMatch(m, key, now, b);
      assert m[b].createdAt - m[a].createdAt > IDEMPOTENCY_KEY_TTL
          || m[a].createdAt - m[b].createdAt > IDEMPOTENCY_KEY_TTL;
    }
    if a, b :| (
      && IsMatch(m, key, now, a) && IsMatch(m, key, now, b)
      && m[b].createdAt > now && m[b].createdAt - m[a].createdAt > IDEMPOTENCY_KEY_TTL)
    {
      assert IsLookup(m, key, now, Some(a)) && IsLookup(m, key, now, Some(b));
    }
  }
  /**
    So both stores decide alike: with no stored creation time in the future, any two
    legitimate lookups, hence any two scan orders, end in one store and one result.
   */
  lemma StoresAgree(m: Store, newJob: Job, p: Option<string>, q: Option<string>, id: string, now: int)
    requires KeysSeparated(m) && forall k | k in m && m[k].key == newJob.key :: m[k].createdAt <= now
    requires IsLookup(m, newJob.key, now, p) && IsLookup(m, newJob.key, now, q)
    ensures p == q && Resolve(m, newJob, p, id, now) == Resolve(m, newJob, q, id, now)
  {
    if p != q { LookupAmbiguousIff(m, newJob.key, now); }
  }
}
