/**
  The in-memory store: an unordered map from job ID to a mutable record. Every
  method is one critical section, so each is one atomic change of `Contents()`.
  Iterating a Go map visits the keys in an arbitrary order; the loops below take
  an arbitrary remaining key each time.
 */
module MemoryStores {
  import opened Receipts
  import opened Jobs
  import opened JobCells
  import opened StoreSpec

  /** `out` holds exactly the jobs of the IDs visited so far. */
  ghost predicate Lists(m: Store, visited: set<string>, out: seq<Job>)
    requires visited <= m.Keys
  {
    && (forall i | 0 <= i < |out| :: out[i].id in visited && out[i] == m[out[i].id])
    && (forall id | id in visited :: exists i :: 0 <= i < |out| && out[i] == m[id])
  }

  lemma InsertLists(m: Store, visited: set<string>, out: seq<Job>, id: string, k: nat)
    requires visited <= m.Keys && Lists(m, visited, out) && id in m && m[id].id == id && k <= |out|
    ensures Lists(m, visited + {id}, out[..k] + [m[id]] + out[k..])
  {
    var s := out[..k] + [m[id]] + out[k..];
    forall x | x in visited + {id}
      ensures exists i :: 0 <= i < |s| && s[i] == m[x]
    {
      if x == id {
        assert s[k] == m[x];
      } else {
        var i :| 0 <= i < |out| && out[i] == m[x];
        assert s[if i < k then i else i + 1] == m[x];
      }
    }
  }

  class MemoryStore {
    var jobs: map<string, JobCell>

    ghost predicate Valid()
      reads this, jobs.Values
    {
      forall id | id in jobs :: jobs[id].id == id
    }

    ghost function Contents(): Store
      reads this, jobs.Values
    {
      map id | id in jobs :: jobs[id].Value()
    }

    constructor ()
      ensures Valid() && jobs == map[]
    {
      jobs := map[];
    }

    /** Stores a copy, so later changes of the caller's record do not reach the store. */
    method Save(j: JobCell)
      requires Valid()
      modifies this
      ensures Valid() && Contents() == old(Contents())[j.id := j.Value()]
      ensures fresh(jobs.Values - old(jobs.Values))
    {
      var cp := new JobCell(j.Value());
      jobs := jobs[j.id := cp];
      assert forall id | id in jobs :: jobs[id] == cp || jobs[id] in old(jobs.Values);
    }

    method Get(id: string) returns (j: JobCell?)
      requires Valid()
      ensures j != null <==> id in Contents()
      ensures j != null ==> fresh(j) && j.Value() == Contents()[id]
    {
      j := null;
      if id in jobs {
        j := new JobCell(jobs[id].Value());
      }
    }

    /** sort.Slice by ID, as insertion of each job before the first greater one. */
    static method InsertById(sorted: seq<Job>, j: Job) returns (s: seq<Job>)
      requires StrictlySorted(sorted)
      requires forall i | 0 <= i < |sorted| :: sorted[i].id != j.id
      ensures StrictlySorted(s) && |s| == |sorted| + 1
      ensures exists k | 0 <= k <= |sorted| :: s == sorted[..k] + [j] + sorted[k..]
    {
      var k := 0;
      while k < |sorted| && Less(sorted[k].id, j.id)
        invariant 0 <= k <= |sorted|
        invariant forall i | 0 <= i < k :: Less(sorted[i].id, j.id)
      {
        k := k + 1;
      }
      s := sorted[..k] + [j] + sorted[k..];
      forall i | k <= i < |sorted|
        ensures Less(j.id, sorted[i].id)
      {
        LessTotal(sorted[k].id, j.id);
        if k < i { LessTransitive(j.id, sorted[k].id, sorted[i].id); }
      }
    }

    method List() returns (out: seq<Job>)
      requires Valid()
      ensures IsListing(Contents(), out)
    {
      out := [];
      var rest := jobs.Keys;
      ghost var m := Contents();
      while rest != {}
        invariant rest <= jobs.Keys
        invariant StrictlySorted(out) && Lists(m, jobs.Keys - rest, out)
      {
        var id :| id in rest;
        ghost var before := out;
        out := InsertById(out, jobs[id].Value());
        ghost var k :| 0 <= k <= |before| && out == before[..k] + [jobs[id].Value()] + before[k..];
        InsertLists(m, jobs.Keys - rest, before, id, k);
        rest := rest - {id};
        assert jobs.Keys - rest == jobs.Keys - (rest + {id}) + {id};
      }
      assert jobs.Keys - rest == m.Keys;
    }

    /** The least-ID pending job of `printer` (of any printer for None), by a full scan. */
    method FindNext(printer: Option<string>) returns (next: JobCell?)
      requires Valid()
      ensures next == null ==> NothingToClaim(Contents(), printer)
      ensures next != null ==> next.id in jobs && jobs[next.id] == next && IsNext(Contents(), printer, next.id)
    {
      next := null;
      var rest := jobs.Keys;
      while rest != {}
        invariant rest <= jobs.Keys
        invariant next == null ==> forall k | k in jobs.Keys - rest :: !Claimable(jobs[k].Value(), printer)
        invariant next != null ==>
                    && next.id in jobs.Keys - rest && jobs[next.id] == next && Claimable(next.Value(), printer)
                    && forall k | k in jobs.Keys - rest && Claimable(jobs[k].Value(), printer) ::
                         k == next.id || Less(next.id, k)
      {
        var id :| id in rest;
        rest := rest - {id};
        var j := jobs[id];
        if j.state != Pending || (printer.Some? && j.printer != printer.value) {
          continue;
        }
        if next == null || Less(j.id, next.id) {
          if next != null {
            forall k | k in jobs.Keys - rest && k != id && Claimable(jobs[k].Value(), printer)
              ensures Less(id, k)
            {
              if k != next.id { LessTransitive(id, next.id, k); }
            }
          }
          next := j;
        } else {
          LessTotal(j.id, next.id);
        }
      }
    }

    method NextPending() returns (j: JobCell?)
      requires Valid()
      ensures j == null ==> NothingToClaim(Contents(), None)
      ensures j != null ==> fresh(j) && IsNext(Contents(), None, j.id) && j.Value() == Contents()[j.id]
    {
      var next := FindNext(None);
      j := null;
      if next != null {
        j := new JobCell(next.Value());
      }
    }

    /** Mutates the stored record in place and returns a copy that does not alias it. */
    method ClaimNextPending(printer: string, now: int) returns (j: JobCell?)
      requires Valid()
      modifies jobs.Values
      ensures Valid() && jobs == old(jobs)
      ensures j == null ==> NothingToClaim(old(Contents()), Some(printer)) && Contents() == old(Contents())
      ensures j != null ==>
                && fresh(j) && IsNext(old(Contents()), Some(printer), j.id)
                && j.Value() == Claimed(old(Contents())[j.id], now)
                && Contents() == old(Contents())[j.id := j.Value()]
    {
      var next := FindNext(Some(printer));
      if next == null {
        return null;
      }
      next.state := Running;
      next.updatedAt := now;
      j := new JobCell(next.Value());
    }

    /** Returns the first live job under `key` in map order; it aliases the store. */
    method FindByIdempotencyKey(key: string, now: int) returns (found: JobCell?)
      requires Valid()
      ensures found == null ==> IsLookup(Contents(), key, now, None)
      ensures found != null ==> found.id in jobs && jobs[found.id] == found && IsMatch(Contents(), key, now, found.id)
    {
      var rest := jobs.Keys;
      while rest != {}
        invariant rest <= jobs.Keys
        invariant forall id | id in jobs.Keys - rest :: !IsMatch(Contents(), key, now, id)
      {
        var id :| id in rest;
        rest := rest - {id};
        var j := jobs[id];
        if j.key == key && !KeyExpired(j.Value(), now) {
          return j;
        }
      }
      return null;
    }

    /** The branch of EnqueueIdempotent taken when the key matched `existing`. */
    method ResolveExisting(existing: JobCell, newJob: JobCell, now: int) returns (job: JobCell?)
      requires Valid() && existing.id in jobs && jobs[existing.id] == existing && newJob !in jobs.Values
      modifies this
      ensures Valid()
      ensures var (store', r) := Resolve(old(Contents()), old(newJob.Value()), Some(existing.id), "", now);
        && Contents() == store' && !r.Created?
        && (job == null <==> r.Rejected?)
        && (job != null ==> fresh(job) && job !in jobs.Values && job.Value() == r.job)
      ensures fresh(jobs.Values - old(jobs.Values))
    {
      if !SameLogicalRequest(existing.Value(), newJob.Value()) {
        return null;
      }
      assert existing.Value() == Contents()[existing.id];
      if existing.state == Failed {
        job := new JobCell(Reactivated(existing.Value(), now));
        Save(job);
      } else {
        job := new JobCell(existing.Value());
      }
    }

    /** The branch of EnqueueIdempotent taken when no job matched: a new one is stored. */
    method CreateNew(newJob: JobCell, id: string, now: int) returns (job: JobCell)
      requires Valid() && newJob !in jobs.Values
      modifies this, newJob
      ensures Valid()
      ensures Contents() == old(Contents())[id := Fresh(old(newJob.Value()), id, now)]
      ensures fresh(job) && job !in jobs.Values && job.Value() == Fresh(old(newJob.Value()), id, now)
      ensures fresh(jobs.Values - old(jobs.Values))
    {
      newJob.id, newJob.state := id, Pending;
      newJob.createdAt, newJob.updatedAt := now, now;
      assert Contents() == old(Contents());
      Save(newJob);
      job := new JobCell(newJob.Value());
    }

    /**
      `freshId` is the random ID newJobID returns, None when the entropy source
      fails. The ghost `pick` names the job the key lookup found.
     */
    method EnqueueIdempotent(newJob: JobCell, freshId: Option<string>, now: int)
      returns (job: JobCell?, created: bool, ghost pick: Option<string>)
      requires Valid() && newJob !in jobs.Values
      modifies this, newJob
      ensures Valid()
      ensures IsLookup(old(Contents()), old(newJob.key), now, pick)
      ensures pick == None && freshId == None ==> job == null && !created && Contents() == old(Contents())
      ensures pick.Some? || freshId.Some? ==>
                var (store', r) := Resolve(old(Contents()), old(newJob.Value()), pick, freshId.GetOr(""), now);
                && Contents() == store'
                && created == r.Created?
                && (job == null <==> r.Rejected?)
                && (job != null ==> fresh(job) && job !in jobs.Values && job.Value() == r.job)
      ensures fresh(jobs.Values - old(jobs.Values))
    {
      job, created, pick := null, false, None;
      if newJob.key != "" {
        var existing := FindByIdempotencyKey(newJob.key, now);
        assert Contents() == old(Contents());
        if existing != null {
          pick := Some(existing.id);
          job := ResolveExisting(existing, newJob, now);
          return;
        }
      }
      if freshId == None {
        return;
      }
      created := true;
      job := CreateNew(newJob, freshId.value, now);
    }
  }
}
