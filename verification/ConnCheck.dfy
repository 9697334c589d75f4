/** The start-up connection check, `ConnCheck` of internal/sqldb/sqldb.go. Times are nanoseconds. */
module ConnCheck {
  import opened Wrappers

  const MILLISECOND := 1_000_000
  const BACKOFF := 100 * MILLISECOND
  const DEFAULT_TIMEOUT := 10_000 * MILLISECOND

  /** How attempt k goes: whether the database answered, and how long that took. */
  datatype Ping = Ping(ok: bool, took: nat)

  type Pings = nat -> Ping

  datatype Verdict = Connected | EngineFailed | DeadlineExceeded

  /** The time at which attempt k starts: every earlier attempt j took its ping and slept j backoffs. */
  function StartOf(pings: Pings, k: nat): nat {
    if k <= 1 then 0 else StartOf(pings, k - 1) + pings(k - 1).took + BACKOFF * (k - 1)
  }

  /** Attempt k fails and the deadline has not passed when its sleep is over. */
  predicate Retries(limit: int, pings: Pings, k: nat) {
    !pings(k).ok && StartOf(pings, k + 1) < limit
  }

  /** Attempt k is the last one. */
  ghost predicate LastAttempt(limit: int, pings: Pings, k: nat) {
    k >= 1 && !Retries(limit, pings, k) && forall j :: 1 <= j < k ==> Retries(limit, pings, j)
  }

  function Limit(deadline: Option<int>): int {
    if deadline.Some? then deadline.value else DEFAULT_TIMEOUT
  }

  /** `deadline` is the time left at entry, if the context has one; `engineOk` is the final query's outcome. */
  method ConnCheck(deadline: Option<int>, pings: Pings, engineOk: bool)
    returns (v: Verdict, attempts: nat, elapsed: nat)
    ensures LastAttempt(Limit(deadline), pings, attempts)
    ensures v == if !pings(attempts).ok then DeadlineExceeded else if engineOk then Connected else EngineFailed
    ensures elapsed == if pings(attempts).ok then StartOf(pings, attempts) + pings(attempts).took
                       else StartOf(pings, attempts + 1)
  {
    var limit := if deadline.None? then DEFAULT_TIMEOUT else deadline.value;
    var attempt: nat := 1;
    elapsed := 0;
    while true
      invariant attempt >= 1 && elapsed == StartOf(pings, attempt)
      invariant forall j :: 1 <= j < attempt ==> Retries(limit, pings, j)
      decreases limit - elapsed
    {
      var ping := pings(attempt);
      elapsed := elapsed + ping.took;
      if ping.ok {
        break;
      }
      elapsed := elapsed + BACKOFF * attempt;
      if elapsed >= limit {
        return DeadlineExceeded, attempt, elapsed;
      }
      attempt := attempt + 1;
    }
    attempts := attempt;
    v := if engineOk then Connected else EngineFailed;
  }

  /** Sleeping alone puts attempt k at 50*k*(k-1) ms or later. */
  lemma {:induction false} StartsAfterBackoffs(pings: Pings, k: nat)
    ensures StartOf(pings, k) >= 50 * MILLISECOND * (k * (k - 1))
  {
    if k > 1 {
      StartsAfterBackoffs(pings, k - 1);
      assert k * (k - 1) == (k - 1) * (k - 2) + 2 * (k - 1);
    } else {
      assert k * (k - 1) == 0;
    }
  }

  /** An attempt k >= 2 is made only if 50*k*(k-1) ms is less than the time allowed. */
  lemma AttemptsBounded(limit: int, pings: Pings, k: nat)
    requires LastAttempt(limit, pings, k) && k >= 2
    ensures 50_000_000 * (k * (k - 1)) < limit
  {
    assert Retries(limit, pings, k - 1);
    StartsAfterBackoffs(pings, k);
  }

  /** Without a deadline, a failed attempt whose sleep ends within 9,999,999,999 ns is retried, and one whose
      sleep ends at ten seconds or later is not; a given deadline is kept as it is. */
  lemma TenSeconds(pings: Pings, k: nat, deadline: int)
    ensures Retries(Limit(None), pings, k) <==> !pings(k).ok && StartOf(pings, k + 1) <= 9_999_999_999
    ensures Retries(Limit(Some(deadline)), pings, k) <==> !pings(k).ok && StartOf(pings, k + 1) < deadline
  {
  }

  /** The first attempt starts at once; attempt k + 1 starts after attempt k and 100*k ms more. */
  lemma Backoffs(pings: Pings, k: nat)
    ensures StartOf(pings, 1) == 0
    ensures k >= 1 ==> StartOf(pings, k + 1) == StartOf(pings, k) + pings(k).took + 100_000_000 * k
  {
  }

  /** Without a deadline there are at most 14 attempts. */
  lemma AtMostFourteen(pings: Pings, k: nat)
    requires LastAttempt(Limit(None), pings, k)
    ensures k <= 14
  {
    if k >= 15 {
      AttemptsBounded(DEFAULT_TIMEOUT, pings, k);
      ProductGrows(15, k);
    }
  }

  lemma ProductGrows(j: nat, k: nat)
    requires 1 <= j <= k
    ensures j * (j - 1) <= k * (k - 1)
  {
    assert (k - j) * (k + j - 1) >= 0;
  }

  lemma {:induction false} InstantStart(pings: Pings, k: nat)
    requires forall j: nat :: pings(j) == Ping(false, 0)
    ensures k >= 1 ==> StartOf(pings, k) == 50 * MILLISECOND * (k * (k - 1))
  {
    if k > 1 {
      InstantStart(pings, k - 1);
      assert k * (k - 1) == (k - 1) * (k - 2) + 2 * (k - 1);
    }
  }

  lemma InstantRetries(pings: Pings, j: nat)
    requires 1 <= j < 14 && forall i: nat :: pings(i) == Ping(false, 0)
    ensures Retries(DEFAULT_TIMEOUT, pings, j)
  {
    InstantStart(pings, j + 1);
    ProductGrows(j + 1, 14);
  }

  /** The bound is reached: pings that fail at once make exactly 14 attempts. */
  lemma FourteenReached(pings: Pings)
    requires forall j: nat :: pings(j) == Ping(false, 0)
    ensures LastAttempt(Limit(None), pings, 14)
  {
    forall j | 1 <= j < 14
      ensures Retries(DEFAULT_TIMEOUT, pings, j)
    {
      InstantRetries(pings, j);
    }
    InstantStart(pings, 15);
  }

  /** A deadline error comes no earlier than the deadline; and if the last ping returned by the deadline,
      no later than one last sleep of 100*k ms after it. */
  lemma OvershootBounded(limit: int, pings: Pings, k: nat)
    requires LastAttempt(limit, pings, k) && !pings(k).ok
    ensures StartOf(pings, k + 1) >= limit
    ensures StartOf(pings, k) + pings(k).took <= limit ==> StartOf(pings, k + 1) <= limit + 100_000_000 * k
  {
  }
}
