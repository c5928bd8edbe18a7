/** The retry loop of db.go (retryExec and retryQuery) and its policy. */
module Retry {
  import opened Wrappers

  datatype Err = DeadlineExceeded | Canceled | Other(code: nat)

  /** The backoff multiplier is always 2. */
  datatype Policy = Policy(maxRetries: int, initialBackoff: int, maxBackoff: int, retryableErrors: seq<Err>)

  datatype Attempt<+T> = Done(value: T) | Failed(err: Err)

  datatype Ended<+T> = Success(value: T) | ContextDone | GaveUp(lastErr: Option<Err>)

  const DEFAULT_MAX_RETRIES := 3
  const DEFAULT_BACKOFF := 100_000_000
  const MAX_BACKOFF := 5_000_000_000

  /** NewRetryPolicy; non-positive settings stand for no configuration. */
  function NewPolicy(maxRetries: int, retryBackoff: int): Policy {
    Policy(if maxRetries > 0 then maxRetries else DEFAULT_MAX_RETRIES,
           if retryBackoff > 0 then retryBackoff else DEFAULT_BACKOFF,
           MAX_BACKOFF, [])
  }

  predicate ShouldRetry(p: Policy, e: Err) {
    e in p.retryableErrors || e == DeadlineExceeded || e == Canceled
  }

  method CheckRetry(p: Policy, e: Err) returns (retry: bool)
    ensures retry == ShouldRetry(p, e)
    ensures retry <==> e == DeadlineExceeded || e == Canceled || exists j :: 0 <= j < |p.retryableErrors| && p.retryableErrors[j] == e
  {
    for i := 0 to |p.retryableErrors|
      invariant forall j | 0 <= j < i :: p.retryableErrors[j] != e
    {
      if e == p.retryableErrors[i] {
        return true;
      }
    }
    return e == DeadlineExceeded || e == Canceled;
  }

  function Pow2(n: nat): nat {
    if n == 0 then 1 else 2 * Pow2(n - 1)
  }

  function Min(a: int, b: int): int {
    if a < b then a else b
  }

  /** The cap as it applies to the j-th wait: a negative one is doubled along. */
  function Cap(p: Policy, j: nat): int
    requires j > 0
  {
    if p.maxBackoff >= 0 then p.maxBackoff else p.maxBackoff * Pow2(j - 1)
  }

  /** The j-th wait in closed form: the first is not capped, the others are. */
  function Wait(p: Policy, j: nat): int {
    if j == 0 then p.initialBackoff else Min(p.initialBackoff * Pow2(j), Cap(p, j))
  }

  function Waits(p: Policy, n: nat): seq<int> {
    seq(n, j requires 0 <= j < n => Wait(p, j))
  }

  lemma Doubled(a: int, n: nat)
    ensures a * Pow2(n + 1) == 2 * (a * Pow2(n))
  {
    assert Pow2(n + 1) == 2 * Pow2(n);
  }

  /** A negative number only falls when it is doubled. */
  lemma {:induction false} NegativeFalls(a: int, n: nat)
    requires a < 0
    ensures a * Pow2(n) <= a
  {
    if n > 0 {
      Doubled(a, n - 1);
      NegativeFalls(a, n - 1);
    }
  }

  /** Doubling with a cap, as the loop does it, follows the closed form. */
  lemma WaitDoubles(p: Policy, j: nat)
    ensures Min(2 * Wait(p, j), p.maxBackoff) == Wait(p, j + 1)
  {
    Doubled(p.initialBackoff, j);
    if p.maxBackoff < 0 {
      NegativeFalls(p.maxBackoff, j);
      if j > 0 {
        Doubled(p.maxBackoff, j - 1);
      }
    }
    hide Pow2;
  }

  /** The waits as the source makes them: the first is the initial backoff, each further
      one twice the one before, capped. */
  lemma WaitsExactly(p: Policy, n: nat)
    ensures |Waits(p, n)| == n
    ensures n > 0 ==> Waits(p, n)[0] == p.initialBackoff
    ensures forall j | 0 < j < n ::
              Waits(p, n)[j] == var twice := 2 * Waits(p, n)[j - 1]; if twice > p.maxBackoff then p.maxBackoff else twice
  {
    forall j | 0 < j < n
      ensures Waits(p, n)[j] == var twice := 2 * Waits(p, n)[j - 1]; if twice > p.maxBackoff then p.maxBackoff else twice {
      WaitDoubles(p, j - 1);
    }
  }

  /** Attempt k fails with an error that is worth another try. */
  predicate Retried<T>(p: Policy, operation: nat -> Attempt<T>, k: nat) {
    operation(k).Failed? && ShouldRetry(p, operation(k).err)
  }

  /** The operation answers attempt k with operation(k); canceled(k) says that the
      context ends the wait before attempt k. */
  method RetryLoop<T>(p: Policy, operation: nat -> Attempt<T>, canceled: nat -> bool)
    returns (r: Ended<T>, calls: nat, waits: seq<int>)
    ensures p.maxRetries < 0 ==> calls == 0 && r == GaveUp(None)
    ensures p.maxRetries >= 0 ==> 1 <= calls <= p.maxRetries + 1
    ensures forall k | 0 <= k < calls - 1 :: Retried(p, operation, k)
    ensures forall k | 1 <= k < calls :: !canceled(k)
    ensures p.maxRetries >= 0 ==>
              r == match operation(calls - 1)
                   case Done(v) => Success(v)
                   case Failed(e) =>
                     if ShouldRetry(p, e) && calls <= p.maxRetries then ContextDone else GaveUp(Some(e))
    ensures r.ContextDone? ==> canceled(calls)
    ensures waits == Waits(p, if calls == 0 then 0 else calls - 1)
  {
    var lastErr: Option<Err> := None;
    var backoff := p.initialBackoff;
    calls := 0;
    waits := [];
    while calls <= p.maxRetries
      invariant calls <= p.maxRetries + 1 || calls == 0
      invariant forall k | 0 <= k < calls :: Retried(p, operation, k)
      invariant forall k | 1 <= k < calls :: !canceled(k)
      invariant calls == 0 ==> backoff == Wait(p, 0) && lastErr == None && waits == []
      invariant calls > 0 ==> backoff == Wait(p, calls - 1) && waits == Waits(p, calls - 1)
      invariant calls > 0 ==> operation(calls - 1).Failed? && lastErr == Some(operation(calls - 1).err)
      decreases p.maxRetries - calls
    {
      if calls > 0 {
        assert Retried(p, operation, calls - 1);
        if canceled(calls) {
          return ContextDone, calls, waits;
        }
        waits := waits + [backoff];
        WaitDoubles(p, calls - 1);
        backoff := backoff * 2;
        if backoff > p.maxBackoff {
          backoff := p.maxBackoff;
        }
        assert waits == Waits(p, calls);
      }
      var a := operation(calls);
      calls := calls + 1;
      if a.Done? {
        return Success(a.value), calls, waits;
      }
      lastErr := Some(a.err);
      var again := CheckRetry(p, a.err);
      if !again {
        return GaveUp(lastErr), calls, waits;
      }
    }
    return GaveUp(lastErr), calls, waits;
  }

  /** Where the loop stops without cancellation: the first success, the first error
      not worth a retry, or attempt maxRetries + 1. */
  ghost predicate StopsAt<T>(p: Policy, operation: nat -> Attempt<T>, k: nat) {
    && k <= p.maxRetries
    && (k == p.maxRetries || !Retried(p, operation, k))
    && (forall i | 0 <= i < k :: Retried(p, operation, i))
  }

  /** Main result: without cancellation the operation runs exactly up to the attempt
      where the loop must stop, and that attempt decides the result. */
  method RetryUncancelled<T>(p: Policy, operation: nat -> Attempt<T>) returns (r: Ended<T>, calls: nat, waits: seq<int>)
    ensures p.maxRetries < 0 ==> calls == 0 && r == GaveUp(None) && waits == []
    ensures p.maxRetries >= 0 ==>
              && calls > 0
              && StopsAt(p, operation, calls - 1)
              && r == (match operation(calls - 1) case Done(v) => Success(v) case Failed(e) => GaveUp(Some(e)))
              && waits == Waits(p, calls - 1)
  {
    r, calls, waits := RetryLoop(p, operation, _ => false);
  }

  lemma StopUnique<T>(p: Policy, operation: nat -> Attempt<T>, j: nat, k: nat)
    requires StopsAt(p, operation, j) && StopsAt(p, operation, k)
    ensures j == k
  {
    assert j < k ==> Retried(p, operation, j);
    assert k < j ==> Retried(p, operation, k);
  }

  // ---- how long the loop waits ----

  function Sum(s: seq<int>): int {
    if s == [] then 0 else Sum(s[..|s| - 1]) + s[|s| - 1]
  }

  lemma WaitBounds(p: Policy, j: nat)
    ensures Wait(p, j) <= p.initialBackoff * Pow2(j)
    ensures j > 0 ==> Wait(p, j) <= p.maxBackoff
  {
    if j > 0 && p.maxBackoff < 0 {
      NegativeFalls(p.maxBackoff, j - 1);
    }
  }

  /** The sums of the two bounds grow by the bounds of one wait. */
  lemma BoundsGrow(p: Policy, n: nat)
    requires n > 0
    ensures p.initialBackoff * (Pow2(n) - 1) == p.initialBackoff * (Pow2(n - 1) - 1) + p.initialBackoff * Pow2(n - 1)
    ensures n > 1 ==> (n - 1) * p.maxBackoff == (n - 2) * p.maxBackoff + p.maxBackoff
  {
    var a, x := p.initialBackoff, Pow2(n - 1);
    assert Pow2(n) - 1 == (x - 1) + x;
    hide Pow2;
    assert a * ((x - 1) + x) == a * (x - 1) + a * x;
  }

  /** Closed bounds on the total waiting time of n waits. */
  lemma {:induction false} TotalWait(p: Policy, n: nat)
    ensures Sum(Waits(p, n)) <= p.initialBackoff * (Pow2(n) - 1)
    ensures n > 0 ==> Sum(Waits(p, n)) <= p.initialBackoff + (n - 1) * p.maxBackoff
  {
    if n > 0 {
      TotalWait(p, n - 1);
      SumWaits(p, n);
      WaitBounds(p, n - 1);
      BoundsGrow(p, n);
      hide Pow2, Sum, Waits;
    } else {
      assert Pow2(n) - 1 == 0;
    }
  }

  lemma SumWaits(p: Policy, n: nat)
    requires n > 0
    ensures Sum(Waits(p, n)) == Sum(Waits(p, n - 1)) + Wait(p, n - 1)
  {
    assert Waits(p, n)[..n - 1] == Waits(p, n - 1);
  }

  /** From below: no wait is shorter than the first one, unless the cap is. */
  lemma {:induction false} TotalWaitAtLeast(p: Policy, n: nat)
    requires p.initialBackoff >= 0 && p.maxBackoff >= 0
    ensures n > 0 ==> Sum(Waits(p, n)) >= p.initialBackoff + (n - 1) * Min(p.initialBackoff, p.maxBackoff)
  {
    if n > 0 {
      TotalWaitAtLeast(p, n - 1);
      SumWaits(p, n);
      if n > 1 {
        WaitAtLeast(p, n - 1);
        var least := Min(p.initialBackoff, p.maxBackoff);
        assert (n - 1) * least == (n - 2) * least + least;
      } else {
        assert Waits(p, 0) == [];
      }
      hide Pow2, Sum, Waits;
    }
  }

  lemma {:induction false} WaitAtLeast(p: Policy, j: nat)
    requires p.initialBackoff >= 0 && p.maxBackoff >= 0 && j > 0
    ensures Wait(p, j) >= Min(p.initialBackoff, p.maxBackoff)
  {
    PowGrows(p.initialBackoff, j);
    hide Pow2;
  }

  lemma {:induction false} PowGrows(a: int, n: nat)
    requires a >= 0
    ensures a * Pow2(n) >= a
  {
    if n > 0 {
      Doubled(a, n - 1);
      PowGrows(a, n - 1);
    }
  }

  /** As long as the cap is not reached the total is known exactly. */
  lemma {:induction false} TotalWaitExactly(p: Policy, n: nat)
    requires p.initialBackoff >= 0 && (n > 1 ==> p.initialBackoff * Pow2(n - 1) <= p.maxBackoff)
    ensures Sum(Waits(p, n)) == p.initialBackoff * (Pow2(n) - 1)
  {
    if n > 0 {
      if n > 1 {
        Doubled(p.initialBackoff, n - 2);
        PowNonNegative(p.initialBackoff, n - 2);
      }
      TotalWaitExactly(p, n - 1);
      SumWaits(p, n);
      BoundsGrow(p, n);
      assert n == 1 ==> p.initialBackoff * Pow2(0) == p.initialBackoff;
      hide Sum, Waits;
    } else {
      assert Pow2(n) - 1 == 0;
    }
  }

  lemma PowNonNegative(a: int, n: nat)
    requires a >= 0
    ensures a * Pow2(n) >= 0
  {
    PowGrows(a, n);
  }

  /** The policy the constructor builds: without configuration at most four attempts, at
      waits of 100, 200 and 400 ms; with one, its numbers; and the cap is 5 s. */
  lemma PolicyBuilt(maxRetries: int, retryBackoff: int)
    ensures var p := NewPolicy(maxRetries, retryBackoff);
            && p.maxRetries == (if maxRetries > 0 then maxRetries else 3)
            && p.initialBackoff == (if retryBackoff > 0 then retryBackoff else 100_000_000)
            && p.maxBackoff == 5_000_000_000 && p.retryableErrors == []
            && (retryBackoff <= 0 ==> Waits(p, 3) == [100_000_000, 200_000_000, 400_000_000])
  {
    assert Pow2(1) == 2 && Pow2(2) == 4;
  }

  /** With the policy that NewRetryPolicy builds, a driver error ends the loop at once. */
  lemma DriverErrorsAreFinal<T>(maxRetries: int, retryBackoff: int, operation: nat -> Attempt<T>, k: nat)
    requires StopsAt(NewPolicy(maxRetries, retryBackoff), operation, k)
    ensures forall i | 0 <= i < k :: operation(i).Failed? && (operation(i).err == DeadlineExceeded || operation(i).err == Canceled)
  {
    forall i | 0 <= i < k
      ensures operation(i).Failed? && (operation(i).err == DeadlineExceeded || operation(i).err == Canceled)
    {
      assert Retried(NewPolicy(maxRetries, retryBackoff), operation, i);
    }
  }
}
