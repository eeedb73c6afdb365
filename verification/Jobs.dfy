/**
  A print job, the order of job IDs, and the two boolean tests idempotent
  enqueueing relies on.
 */
module Jobs {
  import opened Receipts

  datatype JobState = Pending | Running | Done | Failed | Cancelled

  /** The diagnostic recorded on a job; the formatted text itself is not modelled. */
  datatype LastError = NoError | ProcessError(message: string) | Interrupted(attempt: nat, budget: nat)

  datatype Job = Job(
    id: string,
    printer: string,
    receipt: Receipt,
    state: JobState,
    attempts: nat,
    lastError: LastError,
    createdAt: int,
    updatedAt: int,
    key: string)
  {
    /** The fields no transition of an accepted job ever changes. */
    ghost predicate SameIdentity(other: Job) {
      && id == other.id && printer == other.printer && receipt == other.receipt
      && key == other.key && createdAt == other.createdAt
    }
  }

  /** 24 hours in nanoseconds, the unit of Go's time.Duration. */
  const IDEMPOTENCY_KEY_TTL: int := 24 * 3600 * 1_000_000_000

  predicate SameLogicalRequest(a: Job, b: Job) {
    a.printer == b.printer && a.receipt == b.receipt
  }

  predicate KeyExpired(j: Job, now: int) {
    now - j.createdAt > IDEMPOTENCY_KEY_TTL
  }

  /** Ascending lexicographic order, the order both stores list job IDs in. */
  predicate Less(a: string, b: string) {
    if |b| == 0 then false
    else if |a| == 0 then true
    else if a[0] != b[0] then a[0] < b[0]
    else Less(a[1..], b[1..])
  }

  /** `a` and `b` agree before position `k`, where `a` ends or has the smaller character. */
  predicate PartAt(a: string, b: string, k: nat) {
    k < |b| && k <= |a| && a[..k] == b[..k] && (k == |a| || a[k] < b[k])
  }

  lemma {:induction false} LessMeans(a: string, b: string)
    ensures Less(a, b) <==> exists k: nat :: PartAt(a, b, k)
  {
    if a == [] || b == [] || a[0] != b[0] {
      if Less(a, b) { assert PartAt(a, b, 0); }
      if k: nat :| PartAt(a, b, k) {
        assert k > 0 ==> a[..k][0] == b[..k][0];
      }
    } else {
      LessMeans(a[1..], b[1..]);
      if k: nat :| PartAt(a[1..], b[1..], k) {
        assert a[..k + 1] == [a[0]] + a[1..][..k] && b[..k + 1] == [b[0]] + b[1..][..k];
        assert PartAt(a, b, k + 1);
      }
      if k: nat :| PartAt(a, b, k) {
        assert k > 0;
        assert a[1..][..k - 1] == a[..k][1..] && b[1..][..k - 1] == b[..k][1..];
        assert PartAt(a[1..], b[1..], k - 1);
      }
    }
  }

  lemma {:induction false} LessIrreflexive(a: string)
    ensures !Less(a, a)
  {
    if a != [] { LessIrreflexive(a[1..]); }
  }

  lemma {:induction false} LessTransitive(a: string, b: string, c: string)
    requires Less(a, b) && Less(b, c)
    ensures Less(a, c)
  {
    if a != [] && a[0] == b[0] && b[0] == c[0] {
      LessTransitive(a[1..], b[1..], c[1..]);
    }
  }

  lemma {:induction false} LessTotal(a: string, b: string)
    ensures a == b || Less(a, b) || Less(b, a)
  {
    if a != [] && b != [] && a[0] == b[0] {
      LessTotal(a[1..], b[1..]);
      assert a == [a[0]] + a[1..] && b == [b[0]] + b[1..];
    }
  }

  lemma LessAsymmetric(a: string, b: string)
    requires Less(a, b)
    ensures !Less(b, a) && a != b
  {
    LessIrreflexive(a);
    if Less(b, a) { LessTransitive(a, b, a); }
  }
}
