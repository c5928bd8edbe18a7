/** The circuit breaker of gate.go with every method atomic. */
module CircuitBreaker {
  import opened Wrappers

  datatype State = Closed | Open | HalfOpen

  datatype Breaker = Breaker(
    maxFailures: int,
    resetTimeout: int,
    state: State,
    failures: int,
    lastFailure: Option<int>)

  datatype Event = Allow(now: int) | Success | Failure(now: int)

  const DEFAULT_MAX_FAILURES := 5
  const DEFAULT_RESET_TIMEOUT := 60_000_000_000

  /** NewCircuitBreaker; non-positive settings stand for no configuration. */
  function NewBreaker(maxFailures: int, resetTimeout: int): Breaker {
    Breaker(if maxFailures > 0 then maxFailures else DEFAULT_MAX_FAILURES,
            if resetTimeout > 0 then resetTimeout else DEFAULT_RESET_TIMEOUT,
            Closed, 0, None)
  }

  /** No failure recorded counts as one recorded at the zero time, long ago. */
  predicate TimedOut(b: Breaker, now: int) {
    b.lastFailure.None? || now - b.lastFailure.value > b.resetTimeout
  }

  function AllowStep(b: Breaker, now: int): (Breaker, bool) {
    match b.state
    case Open => if TimedOut(b, now) then (b.(state := HalfOpen, failures := 0), true) else (b, false)
    case HalfOpen => (b, true)
    case Closed => (b, true)
  }

  function SuccessStep(b: Breaker): Breaker {
    match b.state
    case HalfOpen => b.(state := Closed, failures := 0)
    case Closed => b.(failures := 0)
    case Open => b
  }

  function FailureStep(b: Breaker, now: int): Breaker {
    var f := b.(failures := b.failures + 1, lastFailure := Some(now));
    match b.state
    case HalfOpen => f.(state := Open)
    case Closed => if f.failures >= b.maxFailures then f.(state := Open) else f
    case Open => f
  }

  function Step(b: Breaker, ev: Event): Breaker {
    match ev
    case Allow(now) => AllowStep(b, now).0
    case Success => SuccessStep(b)
    case Failure(now) => FailureStep(b, now)
  }

  function After(b: Breaker, run: seq<Event>): Breaker {
    if run == [] then b else Step(After(b, run[..|run| - 1]), run[|run| - 1])
  }

  class Guard {
    const maxFailures: int
    const resetTimeout: int
    var state: State
    var failureCount: int
    var lastFailureTime: Option<int>

    ghost function Model(): Breaker
      reads this
    {
      Breaker(maxFailures, resetTimeout, state, failureCount, lastFailureTime)
    }

    constructor (maxFailures: int, resetTimeout: int)
      ensures Model() == NewBreaker(maxFailures, resetTimeout)
      ensures this.maxFailures == (if maxFailures > 0 then maxFailures else 5)
      ensures this.resetTimeout == (if resetTimeout > 0 then resetTimeout else 60_000_000_000)
      ensures state == Closed && failureCount == 0 && lastFailureTime == None
    {
      this.maxFailures := if maxFailures > 0 then maxFailures else DEFAULT_MAX_FAILURES;
      this.resetTimeout := if resetTimeout > 0 then resetTimeout else DEFAULT_RESET_TIMEOUT;
      state, failureCount, lastFailureTime := Closed, 0, None;
    }

    method Allow(now: int) returns (ok: bool)
      modifies this
      ensures (Model(), ok) == AllowStep(old(Model()), now)
    {
      if state == Open {
        if lastFailureTime.None? || now - lastFailureTime.value > resetTimeout {
          state := HalfOpen;
          failureCount := 0;
          return true;
        }
        return false;
      }
      return true;
    }

    method RecordSuccess()
      modifies this
      ensures Model() == SuccessStep(old(Model()))
    {
      if state == HalfOpen {
        state := Closed;
        failureCount := 0;
      } else if state == Closed {
        failureCount := 0;
      }
    }

    method RecordFailure(now: int)
      modifies this
      ensures Model() == FailureStep(old(Model()), now)
    {
      failureCount := failureCount + 1;
      lastFailureTime := Some(now);
      if state == HalfOpen {
        state := Open;
      } else if state == Closed && failureCount >= maxFailures {
        state := Open;
      }
    }
  }

  // ---- reference definitions over the history ----

  /** Failures recorded since the last recorded success, or since the start. */
  function FailuresSinceSuccess(run: seq<Event>): nat {
    if run == [] then 0
    else
      match run[|run| - 1]
      case Allow(_) => FailuresSinceSuccess(run[..|run| - 1])
      case Success => 0
      case Failure(_) => FailuresSinceSuccess(run[..|run| - 1]) + 1
  }

  /** When the latest failure was recorded, in whatever state. */
  function LatestFailure(run: seq<Event>): Option<int> {
    if run == [] then None
    else if run[|run| - 1].Failure? then Some(run[|run| - 1].now)
    else LatestFailure(run[..|run| - 1])
  }

  /** Main result: what the fields mean in terms of the history. While closed, the
      counter is the number of failures since the last success and is below the
      threshold; half-open starts from zero; lastFailure is the latest failure. */
  lemma {:induction false} FieldsTellHistory(maxFailures: int, resetTimeout: int, run: seq<Event>)
    ensures var b0 := NewBreaker(maxFailures, resetTimeout);
            var b := After(b0, run);
            && b.maxFailures == b0.maxFailures && b.resetTimeout == b0.resetTimeout
            && b.lastFailure == LatestFailure(run)
            && (b.state == Closed ==> b.failures == FailuresSinceSuccess(run) < b0.maxFailures)
            && (b.state == HalfOpen ==> b.failures == 0)
            && (b.state != Closed ==> LatestFailure(run).Some?)
  {
    if run != [] {
      FieldsTellHistory(maxFailures, resetTimeout, run[..|run| - 1]);
    }
  }

  /** A closed breaker trips on exactly the maxFailures-th failure in a row. */
  lemma TripsExactly(maxFailures: int, resetTimeout: int, run: seq<Event>, now: int)
    ensures var b0 := NewBreaker(maxFailures, resetTimeout);
            After(b0, run).state == Closed ==>
              (After(b0, run + [Failure(now)]).state == Open <==>
               FailuresSinceSuccess(run + [Failure(now)]) == b0.maxFailures)
  {
    FieldsTellHistory(maxFailures, resetTimeout, run);
    assert (run + [Failure(now)])[..|run|] == run;
  }

  /** A call is refused exactly when the breaker is open and no more than
      resetTimeout has passed since the latest failure. */
  lemma RefusedExactly(maxFailures: int, resetTimeout: int, run: seq<Event>, now: int)
    ensures var b0 := NewBreaker(maxFailures, resetTimeout);
            var b := After(b0, run);
            !AllowStep(b, now).1 <==>
            b.state == Open && LatestFailure(run).Some? && now <= LatestFailure(run).value + b0.resetTimeout
  {
    FieldsTellHistory(maxFailures, resetTimeout, run);
  }

  /** Main result: the state after any further event, by the history and the configured
      numbers alone. Failures trip at the threshold, and always in half-open; only an
      admitted call leaves open, only a success leaves half-open for closed. */
  lemma {:induction false} NextStateExactly(maxFailures: int, resetTimeout: int, run: seq<Event>, ev: Event)
    ensures var threshold := if maxFailures > 0 then maxFailures else 5;
            var timeout := if resetTimeout > 0 then resetTimeout else 60_000_000_000;
            var b0 := NewBreaker(maxFailures, resetTimeout);
            var s, next := After(b0, run).state, After(b0, run + [ev]).state;
            && (s == Open ==> LatestFailure(run).Some?)
            && (next == Open <==>
                  match ev
                  case Failure(_) => s != Closed || FailuresSinceSuccess(run) + 1 >= threshold
                  case Allow(now) => s == Open && now <= LatestFailure(run).value + timeout
                  case Success => s == Open)
            && (next == HalfOpen <==>
                  match ev
                  case Failure(_) => false
                  case Allow(now) => s == HalfOpen || (s == Open && now > LatestFailure(run).value + timeout)
                  case Success => false)
  {
    FieldsTellHistory(maxFailures, resetTimeout, run);
    assert (run + [ev])[..|run|] == run;
  }

  /** Every call in `rest` comes within resetTimeout of the failure that is latest
      when it comes, counting failures recorded while open. */
  ghost predicate WithinTimeout(resetTimeout: int, run: seq<Event>, rest: seq<Event>) {
    rest != [] ==>
      && WithinTimeout(resetTimeout, run, rest[..|rest| - 1])
      && (rest[|rest| - 1].Allow? ==>
            LatestFailure(run + rest[..|rest| - 1]).Some? &&
            rest[|rest| - 1].now <= LatestFailure(run + rest[..|rest| - 1]).value + resetTimeout)
  }

  ghost predicate OpenThroughout(b: Breaker, run: seq<Event>, rest: seq<Event>) {
    After(b, run + rest).state == Open &&
    (rest != [] ==> OpenThroughout(b, run, rest[..|rest| - 1]))
  }

  /** Main result: an open breaker stays open through any further history if and only
      if each call comes within resetTimeout of the then latest failure. */
  lemma {:induction false} OpenWindow(maxFailures: int, resetTimeout: int, run: seq<Event>, rest: seq<Event>)
    requires After(NewBreaker(maxFailures, resetTimeout), run).state == Open
    ensures var b0 := NewBreaker(maxFailures, resetTimeout);
            OpenThroughout(b0, run, rest) <==> WithinTimeout(b0.resetTimeout, run, rest)
  {
    var b0 := NewBreaker(maxFailures, resetTimeout);
    if rest == [] {
      assert run + rest == run;
    } else {
      var before := rest[..|rest| - 1];
      OpenWindow(maxFailures, resetTimeout, run, before);
      assert (run + rest)[..|run + rest| - 1] == run + before;
      FieldsTellHistory(maxFailures, resetTimeout, run + before);
    }
  }

  /** Which event can take which state where, with atomic methods: open is entered
      only by a failure, left only by an admitted call and only to half-open; and
      half-open is left to closed only by a success. */
  lemma Transitions(b: Breaker, ev: Event)
    requires Step(b, ev).state != b.state
    ensures Step(b, ev).state == Open ==> ev.Failure?
    ensures b.state == Open ==> ev.Allow? && TimedOut(b, ev.now) && Step(b, ev).state == HalfOpen
    ensures Step(b, ev).state == Closed ==> ev.Success? && b.state == HalfOpen
    ensures Step(b, ev).state == HalfOpen ==> b.state == Open
  {
  }

  /** Call i of the history finds the breaker open, is admitted and makes it half-open. */
  predicate ProbeAt(b: Breaker, run: seq<Event>, i: nat) {
    && i < |run| && run[i].Allow?
    && After(b, run[..i]).state == Open && TimedOut(After(b, run[..i]), run[i].now)
  }

  lemma {:induction false} HalfOpenNeedsProbe(b: Breaker, run: seq<Event>) returns (i: nat)
    requires b.state == Open && After(b, run).state == HalfOpen
    ensures ProbeAt(b, run, i)
  {
    var before, ev := run[..|run| - 1], run[|run| - 1];
    if After(b, before).state == HalfOpen {
      i := HalfOpenNeedsProbe(b, before);
      assert before[..i] == run[..i];
    } else {
      Transitions(After(b, before), ev);
      i := |before|;
    }
  }

  /** There is no way back to closed but through half-open: a breaker that was open and
      is closed has since admitted a call strictly more than resetTimeout after the
      failure then latest, and after that recorded a success while half-open. */
  lemma {:induction false} RecoveryNeedsProbe(b: Breaker, run: seq<Event>) returns (i: nat, j: nat)
    requires b.state == Open && After(b, run).state == Closed
    ensures ProbeAt(b, run, i)
    ensures i < j < |run| && run[j].Success? && After(b, run[..j]).state == HalfOpen
  {
    var before, ev := run[..|run| - 1], run[|run| - 1];
    if After(b, before).state == Closed {
      i, j := RecoveryNeedsProbe(b, before);
      assert before[..i] == run[..i] && before[..j] == run[..j];
    } else {
      Transitions(After(b, before), ev);
      i := HalfOpenNeedsProbe(b, before);
      j := |before|;
      assert before[..i] == run[..i];
    }
  }

  /** Half-open lets any number of callers through. */
  lemma {:induction false} HalfOpenAdmitsAll(b: Breaker, times: seq<int>)
    requires b.state == HalfOpen
    ensures After(b, seq(|times|, i requires 0 <= i < |times| => Allow(times[i]))) == b
    ensures forall now :: AllowStep(b, now).1
  {
    if times != [] {
      var init := times[..|times| - 1];
      HalfOpenAdmitsAll(b, init);
      assert seq(|times|, i requires 0 <= i < |times| => Allow(times[i]))[..|times| - 1] ==
             seq(|init|, i requires 0 <= i < |init| => Allow(init[i]));
    }
  }
}
