/**
  The durable store: a bbolt bucket holding one entry per job in ascending key
  order. A method's `commits` parameter says whether bbolt commits the
  transaction; one that does not commit changes nothing.
 */
module BoltStores {
  import opened Receipts
  import opened Jobs
  import opened JobCells
  import opened StoreSpec

  /** Replacing the entry of `j.id` keeps the bucket an ordered listing. */
  lemma ReplaceLists(m: Store, s: seq<Job>, j: Job, k: nat)
    requires WellKeyed(m) && IsListing(m, s) && k < |s| && s[k].id == j.id
    ensures IsListing(m[j.id := j], s[..k] + [j] + s[k + 1..])
  {
    var t, m' := s[..k] + [j] + s[k + 1..], m[j.id := j];
    assert t == s[k := j];
    forall i | 0 <= i < |t|
      ensures t[i].id in m' && m'[t[i].id] == t[i]
    {
      if i != k && s[i].id == j.id { ListedOnce(m, s, i, k); }
    }
    assert t[k] == m'[j.id];
    forall id: string | id in m'
      ensures exists i :: 0 <= i < |t| && t[i] == m'[id]
    {
      if id != j.id {
        var i :| 0 <= i < |s| && s[i] == m[id];
        assert t[i] == m'[id];
      }
    }
  }

  /** Inserting a new entry at its place keeps the bucket an ordered listing. */
  lemma InsertLists(m: Store, s: seq<Job>, j: Job, k: nat)
    requires WellKeyed(m) && IsListing(m, s) && k <= |s|
    requires forall i | 0 <= i < k :: Less(s[i].id, j.id)
    requires forall i | k <= i < |s| :: Less(j.id, s[i].id)
    ensures IsListing(m[j.id := j], s[..k] + [j] + s[k..])
  {
    var t, m' := s[..k] + [j] + s[k..], m[j.id := j];
    forall i | 0 <= i < |s|
      ensures s[i].id != j.id
    {
      if i < k { LessAsymmetric(s[i].id, j.id); } else { LessAsymmetric(j.id, s[i].id); }
    }
    assert t[k] == m'[j.id];
    forall id: string | id in m'
      ensures exists i :: 0 <= i < |t| && t[i] == m'[id]
    {
      if id != j.id {
        var i :| 0 <= i < |s| && s[i] == m[id];
        assert t[if i < k then i else i + 1] == m'[id];
      }
    }
  }

  class BoltStore {
    var bucket: seq<Job>
    ghost var contents: Store

    ghost predicate Valid()
      reads this
    {
      WellKeyed(contents) && IsListing(contents, bucket)
    }

    constructor ()
      ensures Valid() && contents == map[]
    {
      bucket, contents := [], map[];
    }

    /** The bucket's Put: the entry under `j.id` becomes `j`, keys stay sorted. */
    method Put(j: Job)
      requires Valid()
      modifies this
      ensures Valid() && contents == old(contents)[j.id := j]
    {
      var k := 0;
      while k < |bucket| && Less(bucket[k].id, j.id)
        invariant 0 <= k <= |bucket|
        invariant forall i | 0 <= i < k :: Less(bucket[i].id, j.id)
      {
        k := k + 1;
      }
      if k < |bucket| && bucket[k].id == j.id {
        ReplaceLists(contents, bucket, j, k);
        bucket := bucket[..k] + [j] + bucket[k + 1..];
      } else {
        forall i | k <= i < |bucket|
          ensures Less(j.id, bucket[i].id)
        {
          LessTotal(bucket[k].id, j.id);
          if k < i { LessTransitive(j.id, bucket[k].id, bucket[i].id); }
        }
        InsertLists(contents, bucket, j, k);
        bucket := bucket[..k] + [j] + bucket[k..];
      }
      contents := contents[j.id := j];
    }

    method Save(j: JobCell, commits: bool) returns (ok: bool)
      requires Valid()
      modifies this
      ensures Valid() && ok == commits
      ensures contents == if commits then old(contents)[j.id := j.Value()] else old(contents)
    {
      if commits {
        Put(j.Value());
      }
      return commits;
    }

    method Get(id: string) returns (j: JobCell?)
      requires Valid()
      ensures j != null <==> id in contents
      ensures j != null ==> fresh(j) && j.Value() == contents[id]
    {
      for i := 0 to |bucket|
        invariant forall k | 0 <= k < i :: bucket[k].id != id
      {
        if bucket[i].id == id {
          j := new JobCell(bucket[i]);
          return;
        }
      }
      return null;
    }

    method List() returns (out: seq<Job>)
      requires Valid()
      ensures IsListing(contents, out)
    {
      out := [];
      for i := 0 to |bucket|
        invariant out == bucket[..i]
      {
        out := out + [bucket[i]];
      }
      assert out == bucket;
    }

    /** Index of the first claimable entry, |bucket| when there is none. */
    method Seek(printer: Option<string>) returns (i: nat)
      requires Valid()
      ensures i <= |bucket|
      ensures i == |bucket| ==> NothingToClaim(contents, printer)
      ensures i < |bucket| ==> IsNext(contents, printer, bucket[i].id)
    {
      i := 0;
      while i < |bucket|
        invariant i <= |bucket|
        invariant forall k | 0 <= k < i :: !Claimable(bucket[k], printer)
      {
        if bucket[i].state == Pending && (printer.Some? ==> bucket[i].printer == printer.value) {
          forall id | id in contents && Claimable(contents[id], printer)
            ensures id == bucket[i].id || Less(bucket[i].id, id)
          {
            var k :| 0 <= k < |bucket| && bucket[k] == contents[id];
          }
          return;
        }
        i := i + 1;
      }
      forall id | id in contents
        ensures !Claimable(contents[id], printer)
      {
        var k :| 0 <= k < |bucket| && bucket[k] == contents[id];
      }
    }

    method NextPending() returns (j: JobCell?)
      requires Valid()
      ensures j == null ==> NothingToClaim(contents, None)
      ensures j != null ==> fresh(j) && IsNext(contents, None, j.id) && j.Value() == contents[j.id]
    {
      var i := Seek(None);
      j := null;
      if i < |bucket| {
        j := new JobCell(bucket[i]);
      }
    }

    /** `ok` is false when a claim was due but its transaction did not commit. */
    method ClaimNextPending(printer: string, now: int, commits: bool) returns (j: JobCell?, ok: bool)
      requires Valid()
      modifies this
      ensures Valid()
      ensures j == null ==> contents == old(contents) && (ok ==> NothingToClaim(contents, Some(printer)))
      ensures !ok ==> j == null && !commits
      ensures j != null ==>
                && fresh(j) && IsNext(old(contents), Some(printer), j.id)
                && j.Value() == Claimed(old(contents)[j.id], now)
                && contents == old(contents)[j.id := j.Value()]
    {
      j, ok := null, true;
      var i := Seek(Some(printer));
      if i < |bucket| {
        if !commits {
          return null, false;
        }
        var claimed := Claimed(bucket[i], now);
        Put(claimed);
        j := new JobCell(claimed);
      }
    }

    /** The first live entry under `key` in key order. */
    method FindByIdempotencyKey(key: string, now: int) returns (found: Option<Job>)
      requires Valid()
      ensures found == None ==> IsLookup(contents, key, now, None)
      ensures found.Some? ==> IsMatch(contents, key, now, found.value.id) && found.value == contents[found.value.id]
    {
      found := None;
      for i := 0 to |bucket|
        invariant found == None ==> forall k | 0 <= k < i :: !(bucket[k].key == key && !KeyExpired(bucket[k], now))
        invariant found.Some? ==>
                    IsMatch(contents, key, now, found.value.id) && found.value == contents[found.value.id]
      {
        if found == None && bucket[i].key == key && !KeyExpired(bucket[i], now) {
          found := Some(bucket[i]);
        }
      }
      if found == None {
        forall id | id in contents
          ensures !IsMatch(contents, key, now, id)
        {
          var k :| 0 <= k < |bucket| && bucket[k] == contents[id];
        }
      }
    }

    /** The same decision as the in-memory store's, in one transaction. */
    method EnqueueIdempotent(newJob: JobCell, freshId: Option<string>, now: int, commits: bool)
      returns (result: EnqueueResult, ok: bool, ghost pick: Option<string>)
      requires Valid()
      modifies this, newJob
      ensures Valid()
      ensures IsLookup(old(contents), old(newJob.key), now, pick)
      ensures commits && (pick.Some? || freshId.Some?) ==> ok
      ensures ok ==> (contents, result) == Resolve(old(contents), old(newJob.Value()), pick, freshId.GetOr(""), now)
      ensures !ok ==> contents == old(contents)
    {
      result, ok, pick := Rejected, commits, None;
      if newJob.key != "" {
        var existing := FindByIdempotencyKey(newJob.key, now);
        if existing.Some? {
          pick := Some(existing.value.id);
          if !SameLogicalRequest(existing.value, newJob.Value()) {
            ok := true;
            return;
          }
          if !commits {
            return;
          }
          var job := existing.value;
          if job.state == Failed {
            job := Reactivated(job, now);
            Put(job);
          }
          result := Existing(job);
          return;
        }
      }
      if freshId == None || !commits {
        ok := false;
        return;
      }
      newJob.id, newJob.state := freshId.value, Pending;
      newJob.createdAt, newJob.updatedAt := now, now;
      Put(newJob.Value());
      result := Created(newJob.Value());
    }
  }
}
