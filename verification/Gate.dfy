/** ConnectionGate and ExecuteWithGate of gate.go: breaker, bucket and slots composed,
    with the failures that refusals feed back into the breaker, and with the slot
    that a successful call keeps. */
module Gate {
  import opened Wrappers
  import CB = CircuitBreaker
  import RL = RateLimiter
  import CL = ConnectionLimiter

  datatype Gate = Gate(breaker: CB.Breaker, bucket: RL.Bucket, slots: CL.Limiter)

  datatype Config = Config(
    maxFailures: int, resetTimeout: int, maxRequestsPerSecond: int,
    maxConnections: int, mode: CL.Mode, timeout: int)

  function NewGate(c: Config, now: int): Gate {
    Gate(CB.NewBreaker(c.maxFailures, c.resetTimeout),
         RL.NewBucket(c.maxRequestsPerSecond, now),
         CL.NewLimiter(c.maxConnections, c.mode, c.timeout))
  }

  /** The clock readings of one call, in the order in which the code makes them. */
  datatype Clock = Clock(breakerAt: int, rateAt: int, failAt: int)

  datatype Verdict = BreakerRefused | RateRefused | SlotRefused(reason: CL.Outcome) | Admitted

  datatype Ended = Refused(why: Verdict) | Failed | Succeeded

  datatype Event =
    | Execute(clock: Clock, contextFirst: bool, fails: bool)
    | Release
    | OutsideFailure(now: int)   // a failed Commit or Rollback
    | OutsideSuccess             // a successful Commit

  function AllowStep(g: Gate, clock: Clock, contextFirst: bool): (Gate, Verdict) {
    var (b1, passed) := CB.AllowStep(g.breaker, clock.breakerAt);
    if !passed then (g.(breaker := b1), BreakerRefused)
    else
      var (k1, paid) := RL.AllowStep(g.bucket, clock.rateAt);
      if !paid then (g.(breaker := CB.FailureStep(b1, clock.failAt), bucket := k1), RateRefused)
      else
        var (s1, outcome) := CL.AcquireStep(g.slots, contextFirst);
        if outcome != CL.Acquired
        then (Gate(CB.FailureStep(b1, clock.failAt), k1, s1), SlotRefused(outcome))
        else (Gate(b1, k1, s1), Admitted)
  }

  function FailureStep(g: Gate, now: int): Gate {
    g.(breaker := CB.FailureStep(g.breaker, now), slots := CL.ReleaseStep(g.slots))
  }

  function ExecuteStep(g: Gate, clock: Clock, contextFirst: bool, fails: bool): (Gate, Ended) {
    var (g1, verdict) := AllowStep(g, clock, contextFirst);
    if verdict != Admitted then (g1, Refused(verdict))
    else if fails then (FailureStep(g1, clock.failAt), Failed)
    else (g1.(breaker := CB.SuccessStep(g1.breaker)), Succeeded)
  }

  function Step(g: Gate, ev: Event): Gate {
    match ev
    case Execute(clock, contextFirst, fails) => ExecuteStep(g, clock, contextFirst, fails).0
    case Release => g.(slots := CL.ReleaseStep(g.slots))
    case OutsideFailure(now) => FailureStep(g, now)
    case OutsideSuccess => g.(breaker := CB.SuccessStep(g.breaker))
  }

  function After(g: Gate, run: seq<Event>): Gate {
    if run == [] then g else Step(After(g, run[..|run| - 1]), run[|run| - 1])
  }

  class ConnectionGate {
    const breaker: CB.Guard
    const limiter: RL.Limiter
    const slots: CL.Slots

    ghost predicate Valid()
      reads limiter
    {
      RL.ValidBucket(limiter.Model())
    }

    ghost function Model(): Gate
      reads breaker, limiter, slots
    {
      Gate(breaker.Model(), limiter.Model(), slots.Model())
    }

    constructor (c: Config, now: int)
      ensures Valid() && Model() == NewGate(c, now)
      ensures breaker.maxFailures == (if c.maxFailures > 0 then c.maxFailures else 5)
      ensures breaker.resetTimeout == (if c.resetTimeout > 0 then c.resetTimeout else 60_000_000_000)
      ensures limiter.refillRate == (if c.maxRequestsPerSecond > 0 then c.maxRequestsPerSecond else 100)
      ensures slots.maxConnections == (if c.maxConnections > 0 then c.maxConnections else 100)
      ensures slots.mode == c.mode && slots.timeout == c.timeout
      ensures fresh(breaker) && fresh(limiter) && fresh(slots)
    {
      breaker := new CB.Guard(c.maxFailures, c.resetTimeout);
      limiter := new RL.Limiter(c.maxRequestsPerSecond, now);
      slots := new CL.Slots(c.maxConnections, c.mode, c.timeout);
    }

    method Allow(clock: Clock, contextFirst: bool) returns (v: Verdict)
      requires Valid()
      modifies breaker, limiter, slots
      ensures Valid() && (Model(), v) == AllowStep(old(Model()), clock, contextFirst)
    {
      var passed := breaker.Allow(clock.breakerAt);
      if !passed {
        return BreakerRefused;
      }
      var paid := limiter.Allow(clock.rateAt);
      if !paid {
        breaker.RecordFailure(clock.failAt);
        return RateRefused;
      }
      var outcome := slots.AcquireWithContext(contextFirst);
      if outcome != CL.Acquired {
        breaker.RecordFailure(clock.failAt);
        return SlotRefused(outcome);
      }
      return Admitted;
    }

    method ReleaseSlot()
      requires Valid()
      modifies slots
      ensures Valid() && Model() == Step(old(Model()), Release)
    {
      slots.Release();
    }

    method RecordSuccess()
      requires Valid()
      modifies breaker
      ensures Valid() && Model() == Step(old(Model()), OutsideSuccess)
    {
      breaker.RecordSuccess();
    }

    method RecordFailure(now: int)
      requires Valid()
      modifies breaker, slots
      ensures Valid() && Model() == FailureStep(old(Model()), now)
    {
      breaker.RecordFailure(now);
      slots.Release();
    }

    /** ExecuteWithGate; `operation` is what the operation returns when it is run,
        None for an error. */
    method Execute<T>(clock: Clock, contextFirst: bool, operation: Option<T>) returns (e: Ended, result: Option<T>)
      requires Valid()
      modifies breaker, limiter, slots
      ensures Valid()
      ensures (Model(), e) == ExecuteStep(old(Model()), clock, contextFirst, operation.None?)
      ensures result == if e == Succeeded then operation else None
    {
      var v := Allow(clock, contextFirst);
      if v != Admitted {
        return Refused(v), None;
      }
      if operation.None? {
        RecordFailure(clock.failAt);
        return Failed, None;
      }
      RecordSuccess();
      return Succeeded, operation;
    }
  }

  // ---- tallies over a run ----

  datatype Tally = Tally(
    calls: nat, breakerRefused: nat, rateRefused: nat, slotRefused: nat, failed: nat, succeeded: nat,
    releases: nat, outsideFailures: nat)

  function Count(g: Gate, run: seq<Event>): Tally {
    if run == [] then Tally(0, 0, 0, 0, 0, 0, 0, 0)
    else
      var t := Count(g, run[..|run| - 1]);
      match run[|run| - 1]
      case Release => t.(releases := t.releases + 1)
      case OutsideFailure(_) => t.(outsideFailures := t.outsideFailures + 1)
      case OutsideSuccess => t
      case Execute(clock, contextFirst, fails) =>
        var u := t.(calls := t.calls + 1);
        match ExecuteStep(After(g, run[..|run| - 1]), clock, contextFirst, fails).1
        case Failed => u.(failed := t.failed + 1)
        case Succeeded => u.(succeeded := t.succeeded + 1)
        case Refused(why) =>
          if why == BreakerRefused then u.(breakerRefused := t.breakerRefused + 1)
          else if why == RateRefused then u.(rateRefused := t.rateRefused + 1)
          else u.(slotRefused := t.slotRefused + 1)
  }

  /** What the bucket sees of a run: one call for each Execute the breaker let pass. */
  function BucketCalls(g: Gate, run: seq<Event>): seq<int> {
    if run == [] then []
    else
      var before := BucketCalls(g, run[..|run| - 1]);
      var ev := run[|run| - 1];
      if ev.Execute? && CB.AllowStep(After(g, run[..|run| - 1]).breaker, ev.clock.breakerAt).1
      then before + [ev.clock.rateAt] else before
  }

  /** What the breaker sees of a run: every refusal after it counts as a failure. */
  function BreakerEvents(g: Gate, run: seq<Event>): seq<CB.Event> {
    if run == [] then []
    else
      var before := BreakerEvents(g, run[..|run| - 1]);
      match run[|run| - 1]
      case Release => before
      case OutsideFailure(now) => before + [CB.Failure(now)]
      case OutsideSuccess => before + [CB.Success]
      case Execute(clock, contextFirst, fails) =>
        before + CallEvents(After(g, run[..|run| - 1]), clock, contextFirst, fails)
  }

  /** What one call means for the slots: only a success keeps one. */
  lemma SlotStep(g: Gate, clock: Clock, contextFirst: bool, fails: bool)
    ensures var (next, e) := ExecuteStep(g, clock, contextFirst, fails);
            && (e == Succeeded ==> (next.slots, CL.Acquired) == CL.AcquireStep(g.slots, contextFirst))
            && (e != Succeeded ==> next.slots == g.slots)
  {
    hide RL.AllowStep, CB.AllowStep, CB.FailureStep, CB.SuccessStep;
  }

  /** Main result: over any run every call is accounted for, and the slot counter is
      what the successes took minus what Releases and outside failures gave back: a
      success keeps its slot, in every backpressure mode. */
  lemma {:induction false} Conservation(c: Config, t0: int, run: seq<Event>)
    ensures var g0 := NewGate(c, t0);
            var n := Count(g0, run);
            && n.calls == n.breakerRefused + n.rateRefused + n.slotRefused + n.failed + n.succeeded
            && After(g0, run).slots.current == n.succeeded - n.releases - n.outsideFailures
  {
    if run != [] {
      Conservation(c, t0, run[..|run| - 1]);
      var ev := run[|run| - 1];
      if ev.Execute? {
        SlotStep(After(NewGate(c, t0), run[..|run| - 1]), ev.clock, ev.contextFirst, ev.fails);
        CountCall(NewGate(c, t0), run);
      }
      hide ExecuteStep, CB.SuccessStep, CB.FailureStep, NewGate;
    }
  }

  /** Main result: the bucket inside the gate is a bucket that only saw the calls the
      breaker let pass, and it paid for exactly the slot-refused and executed ones. */
  lemma {:induction false} BucketProjection(c: Config, t0: int, run: seq<Event>)
    ensures var g0 := NewGate(c, t0);
            var n := Count(g0, run);
            && After(g0, run).bucket == RL.After(g0.bucket, BucketCalls(g0, run))
            && RL.Admitted(g0.bucket, BucketCalls(g0, run)) == n.slotRefused + n.failed + n.succeeded
            && |BucketCalls(g0, run)| == n.calls - n.breakerRefused
  {
    if run != [] {
      var g0, ev := NewGate(c, t0), run[|run| - 1];
      BucketProjection(c, t0, run[..|run| - 1]);
      hide NewGate;
      if ev.Execute? {
        CallProjectsBucket(g0, run);
      }
      hide RL.After, RL.Admitted;
    }
  }

  lemma CallProjectsBucket(g0: Gate, run: seq<Event>)
    requires run != [] && run[|run| - 1].Execute?
    requires After(g0, run[..|run| - 1]).bucket == RL.After(g0.bucket, BucketCalls(g0, run[..|run| - 1]))
    ensures After(g0, run).bucket == RL.After(g0.bucket, BucketCalls(g0, run))
    ensures var n, m := Count(g0, run[..|run| - 1]), Count(g0, run);
            var before, after := BucketCalls(g0, run[..|run| - 1]), BucketCalls(g0, run);
            && RL.Admitted(g0.bucket, after) - RL.Admitted(g0.bucket, before) ==
               (m.slotRefused + m.failed + m.succeeded) - (n.slotRefused + n.failed + n.succeeded)
            && |after| - |before| == (m.calls - m.breakerRefused) - (n.calls - n.breakerRefused)
  {
    var ev, g := run[|run| - 1], After(g0, run[..|run| - 1]);
    CountCall(g0, run);
    Charged(g0.bucket, BucketCalls(g0, run[..|run| - 1]), ev.clock.rateAt);
    BucketStep(g, ev.clock, ev.contextFirst, ev.fails);
    hide RL.AllowStep, RL.After, RL.Admitted, CB.AllowStep, ExecuteStep, Count;
  }

  /** How one call is booked. */
  lemma CountCall(g: Gate, run: seq<Event>)
    requires run != [] && run[|run| - 1].Execute?
    ensures var ev := run[|run| - 1];
            var e := ExecuteStep(After(g, run[..|run| - 1]), ev.clock, ev.contextFirst, ev.fails).1;
            var n, m := Count(g, run[..|run| - 1]), Count(g, run);
            && m.calls == n.calls + 1
            && m.releases == n.releases && m.outsideFailures == n.outsideFailures
            && m.breakerRefused == n.breakerRefused + (if e == Refused(BreakerRefused) then 1 else 0)
            && m.rateRefused == n.rateRefused + (if e == Refused(RateRefused) then 1 else 0)
            && m.slotRefused == n.slotRefused +
                 (if e.Refused? && !e.why.BreakerRefused? && !e.why.RateRefused? then 1 else 0)
            && m.failed == n.failed + (if e == Failed then 1 else 0)
            && m.succeeded == n.succeeded + (if e == Succeeded then 1 else 0)
  {
    hide ExecuteStep, After;
  }

  /** What one call means for the bucket. */
  lemma BucketStep(g: Gate, clock: Clock, contextFirst: bool, fails: bool)
    ensures var passed := CB.AllowStep(g.breaker, clock.breakerAt).1;
            var (bucket, paid) := RL.AllowStep(g.bucket, clock.rateAt);
            var (next, e) := ExecuteStep(g, clock, contextFirst, fails);
            && next.bucket == (if passed then bucket else g.bucket)
            && (e == Refused(BreakerRefused) <==> !passed)
            && (e == Refused(RateRefused) <==> passed && !paid)
            && e != Refused(Admitted)
  {
    hide RL.AllowStep, CB.AllowStep, CB.FailureStep, CB.SuccessStep, CL.AcquireStep, CL.ReleaseStep;
  }

  lemma Charged(b: RL.Bucket, times: seq<int>, now: int)
    ensures RL.After(b, times + [now]) == RL.AllowStep(RL.After(b, times), now).0
    ensures RL.Admitted(b, times + [now]) ==
            RL.Admitted(b, times) + if RL.AllowStep(RL.After(b, times), now).1 then 1 else 0
  {
    assert (times + [now])[..|times|] == times;
  }

  /** What the breaker sees of one call. */
  function CallEvents(g: Gate, clock: Clock, contextFirst: bool, fails: bool): seq<CB.Event> {
    match ExecuteStep(g, clock, contextFirst, fails).1
    case Refused(BreakerRefused) => [CB.Allow(clock.breakerAt)]
    case Refused(_) => [CB.Allow(clock.breakerAt)] + [CB.Failure(clock.failAt)]
    case Failed => [CB.Allow(clock.breakerAt)] + [CB.Failure(clock.failAt)]
    case Succeeded => [CB.Allow(clock.breakerAt)] + [CB.Success]
  }

  /** One call moves the breaker as the events it sends do. */
  lemma CallProjects(g: Gate, clock: Clock, contextFirst: bool, fails: bool, b: CB.Breaker, before: seq<CB.Event>)
    requires g.breaker == CB.After(b, before)
    ensures ExecuteStep(g, clock, contextFirst, fails).0.breaker ==
            CB.After(b, before + CallEvents(g, clock, contextFirst, fails))
  {
    Appended(b, before, CB.Allow(clock.breakerAt));
    AppendedTwo(b, before, CB.Allow(clock.breakerAt), CB.Failure(clock.failAt));
    AppendedTwo(b, before, CB.Allow(clock.breakerAt), CB.Success);
    hide CB.After, CB.AllowStep, CB.FailureStep, CB.SuccessStep, RL.AllowStep, CL.AcquireStep, CL.ReleaseStep;
  }

  lemma AppendedTwo(b: CB.Breaker, run: seq<CB.Event>, ev1: CB.Event, ev2: CB.Event)
    ensures CB.After(b, run + ([ev1] + [ev2])) == CB.Step(CB.Step(CB.After(b, run), ev1), ev2)
  {
    Appended(b, run, ev1);
    Appended(b, run + [ev1], ev2);
    assert run + ([ev1] + [ev2]) == run + [ev1] + [ev2];
    hide CB.After, CB.Step;
  }

  /** Main result: the breaker inside the gate is a breaker that only saw the derived
      history, in which rate and slot refusals are failures like any other. */
  lemma {:induction false} BreakerProjection(c: Config, t0: int, run: seq<Event>)
    ensures var g0 := NewGate(c, t0);
            After(g0, run).breaker == CB.After(g0.breaker, BreakerEvents(g0, run))
  {
    if run != [] {
      var g0 := NewGate(c, t0);
      var before := BreakerEvents(g0, run[..|run| - 1]);
      var ev := run[|run| - 1];
      BreakerProjection(c, t0, run[..|run| - 1]);
      hide ExecuteStep, CallEvents, CB.After, CB.FailureStep, CB.SuccessStep, NewGate;
      match ev {
        case Release =>
        case OutsideFailure(now) => Appended(g0.breaker, before, CB.Failure(now));
        case OutsideSuccess => Appended(g0.breaker, before, CB.Success);
        case Execute(clock, contextFirst, fails) =>
          CallProjects(After(g0, run[..|run| - 1]), clock, contextFirst, fails, g0.breaker, before);
      }
    }
  }

  lemma Appended(b: CB.Breaker, run: seq<CB.Event>, ev: CB.Event)
    ensures CB.After(b, run + [ev]) == CB.Step(CB.After(b, run), ev)
  {
    assert (run + [ev])[..|run|] == run;
  }

  /** Every call comes within resetTimeout of the failure that opened the breaker. */
  ghost predicate DuringOutage(b: CB.Breaker, run: seq<Event>) {
    b.lastFailure.Some? &&
    forall i | 0 <= i < |run| :: run[i].Execute? && run[i].clock.breakerAt <= b.lastFailure.value + b.resetTimeout
  }

  /** An outage freezes the gate: from an open breaker on, a run of calls is refused
      by the breaker to the last one if and only if each comes within resetTimeout of
      the latest failure; and then breaker, tokens and slots are as they were. */
  lemma {:induction false} OutageFreezes(g: Gate, run: seq<Event>)
    requires g.breaker.state == CB.Open && g.breaker.lastFailure.Some?
    requires forall i | 0 <= i < |run| :: run[i].Execute?
    ensures Count(g, run).breakerRefused == |run| <==> DuringOutage(g.breaker, run)
    ensures Count(g, run).breakerRefused <= |run|
    ensures DuringOutage(g.breaker, run) ==> After(g, run) == g
  {
    if run != [] {
      var before, ev := run[..|run| - 1], run[|run| - 1];
      OutageFreezes(g, before);
      OutageLonger(g.breaker, run);
      CountCall(g, run);
      RefusedByBreaker(After(g, before), ev.clock, ev.contextFirst, ev.fails);
      hide ExecuteStep, CB.AllowStep, Count, DuringOutage;
      assert After(g, run) == ExecuteStep(After(g, before), ev.clock, ev.contextFirst, ev.fails).0;
      hide After;
    }
  }

  lemma OutageLonger(b: CB.Breaker, run: seq<Event>)
    requires run != [] && b.lastFailure.Some? && run[|run| - 1].Execute?
    ensures DuringOutage(b, run) <==>
            DuringOutage(b, run[..|run| - 1]) && run[|run| - 1].clock.breakerAt <= b.lastFailure.value + b.resetTimeout
  {
    if DuringOutage(b, run[..|run| - 1]) && run[|run| - 1].clock.breakerAt <= b.lastFailure.value + b.resetTimeout {
      forall i | 0 <= i < |run|
        ensures run[i].Execute? && run[i].clock.breakerAt <= b.lastFailure.value + b.resetTimeout {
        if i < |run| - 1 {
          assert run[i] == run[..|run| - 1][i];
        }
      }
    }
  }

  lemma RefusedByBreaker(g: Gate, clock: Clock, contextFirst: bool, fails: bool)
    ensures var (next, e) := ExecuteStep(g, clock, contextFirst, fails);
            && (e == Refused(BreakerRefused) ==> next == g)
            && (g.breaker.state == CB.Open && g.breaker.lastFailure.Some? ==>
                  (e == Refused(BreakerRefused) <==>
                   clock.breakerAt <= g.breaker.lastFailure.value + g.breaker.resetTimeout))
  {
    hide RL.AllowStep, CL.AcquireStep, CL.ReleaseStep, CB.FailureStep, CB.SuccessStep;
  }

  // ---- consequences for whole runs ----

  /** The clock readings of the bucket calls never go backwards. */
  ghost predicate MonotoneRun(g: Gate, t0: int, run: seq<Event>) {
    RL.Monotone(t0, BucketCalls(g, run))
  }

  /** Operations run over a whole run: never more than maxTokens plus the whole tokens
      of the time between construction and the last call the breaker let pass. */
  lemma ExecutedBound(c: Config, t0: int, run: seq<Event>)
    requires MonotoneRun(NewGate(c, t0), t0, run)
    ensures var g0 := NewGate(c, t0);
            var n := Count(g0, run);
            n.failed + n.succeeded <= g0.bucket.maxTokens +
              RL.WholeTokens(RL.Inflow(RL.End(t0, BucketCalls(g0, run)) - t0, g0.bucket.refillRate))
  {
    BucketProjection(c, t0, run);
    RL.TotalBound(c.maxRequestsPerSecond, t0, BucketCalls(NewGate(c, t0), run));
  }

  /** The slots held after a run: each success keeps one. Giving one back goes below
      zero without a semaphore, while a semaphore that is empty stays empty. */
  function Held(g: Gate, run: seq<Event>): int {
    if run == [] then 0
    else
      var h := Held(g, run[..|run| - 1]);
      match run[|run| - 1]
      case OutsideSuccess => h
      case Execute(clock, contextFirst, fails) =>
        if ExecuteStep(After(g, run[..|run| - 1]), clock, contextFirst, fails).1 == Succeeded then h + 1 else h
      case _ => if g.slots.sem.Some? && h == 0 then 0 else h - 1
  }

  /** A count of held slots against the limiter's fields. */
  predicate Holds(l: CL.Limiter, held: int) {
    && held == (match l.sem case None => l.current case Some(n) => n)
    && l.current <= held <= l.maxConnections
  }

  lemma HoldsStep(l: CL.Limiter, held: int, contextFirst: bool)
    requires Holds(l, held)
    ensures var (next, outcome) := CL.AcquireStep(l, contextFirst);
            outcome == CL.Acquired ==> Holds(next, held + 1) && SameKind(next, l)
    ensures Holds(CL.ReleaseStep(l), if l.sem.Some? && held == 0 then 0 else held - 1)
    ensures SameKind(CL.ReleaseStep(l), l)
  {
  }

  predicate SameKind(a: CL.Limiter, b: CL.Limiter) {
    a.maxConnections == b.maxConnections && a.sem.None? == b.sem.None?
  }

  lemma {:induction false} SlotsAreHeld(c: Config, t0: int, run: seq<Event>)
    ensures var g0 := NewGate(c, t0);
            Holds(After(g0, run).slots, Held(g0, run)) && SameKind(After(g0, run).slots, g0.slots)
  {
    if run != [] {
      var g0, ev := NewGate(c, t0), run[|run| - 1];
      var g := After(g0, run[..|run| - 1]);
      SlotsAreHeld(c, t0, run[..|run| - 1]);
      HoldsStep(g.slots, Held(g0, run[..|run| - 1]), ev.Execute? && ev.contextFirst);
      if ev.Execute? {
        SlotStep(g, ev.clock, ev.contextFirst, ev.fails);
      }
      hide Holds, ExecuteStep, CL.AcquireStep, CL.ReleaseStep, CB.SuccessStep, CB.FailureStep, NewGate;
    }
  }

  /** Successes are paid for in slots: over any run there are at most maxConnections
      more of them than Releases and outside failures together. */
  lemma SuccessesNeedReleases(c: Config, t0: int, run: seq<Event>)
    ensures var g0 := NewGate(c, t0);
            var n := Count(g0, run);
            n.succeeded <= g0.slots.maxConnections + n.releases + n.outsideFailures
  {
    Conservation(c, t0, run);
    SlotsAreHeld(c, t0, run);
  }

  /** The property one would expect, that a finished call gives its slot back, fails:
      a call that breaker and bucket let pass is refused if and only if maxConnections
      slots are held by earlier successes, finished long ago as they may be. Without
      a semaphore these are the successes beyond the Releases and outside failures;
      with one they are at least as many. */
  lemma SlotLeak(c: Config, t0: int, run: seq<Event>, clock: Clock, contextFirst: bool, fails: bool)
    ensures var g0 := NewGate(c, t0);
            var g := After(g0, run);
            var passed := CB.AllowStep(g.breaker, clock.breakerAt).1 && RL.AllowStep(g.bucket, clock.rateAt).1;
            var e := ExecuteStep(g, clock, contextFirst, fails).1;
            && (e.Refused? <==> !passed || Held(g0, run) >= g0.slots.maxConnections)
            && (e.Refused? && e.why.SlotRefused? <==> passed && Held(g0, run) >= g0.slots.maxConnections)
    ensures var g0 := NewGate(c, t0);
            var n := Count(g0, run);
            && Held(g0, run) >= n.succeeded - n.releases - n.outsideFailures
            && (c.mode == CL.Drop ==> Held(g0, run) == n.succeeded - n.releases - n.outsideFailures)
  {
    Conservation(c, t0, run);
    SlotsAreHeld(c, t0, run);
    hide RL.AllowStep, CB.AllowStep, CB.FailureStep, CB.SuccessStep;
  }

  lemma FullStep(c: Config, t0: int, run: seq<Event>, ev: Event)
    requires Held(NewGate(c, t0), run) >= NewGate(c, t0).slots.maxConnections
    requires ev.Execute? || ev.OutsideSuccess?
    ensures var n, m := Count(NewGate(c, t0), run), Count(NewGate(c, t0), run + [ev]);
            m.succeeded == n.succeeded && m.failed == n.failed
    ensures Held(NewGate(c, t0), run + [ev]) == Held(NewGate(c, t0), run)
  {
    assert (run + [ev])[..|run|] == run;
    if ev.Execute? {
      SlotLeak(c, t0, run, ev.clock, ev.contextFirst, ev.fails);
    }
    hide ExecuteStep, After, NewGate, RL.AllowStep, CB.AllowStep;
  }

  /** Over whole runs: from a full gate on, as long as nobody calls Release and no
      Commit or Rollback fails, no operation is ever run again. */
  lemma {:induction false} FullForever(c: Config, t0: int, run: seq<Event>, rest: seq<Event>)
    requires Held(NewGate(c, t0), run) >= NewGate(c, t0).slots.maxConnections
    requires forall i | 0 <= i < |rest| :: rest[i].Execute? || rest[i].OutsideSuccess?
    ensures var n, m := Count(NewGate(c, t0), run), Count(NewGate(c, t0), run + rest);
            m.succeeded == n.succeeded && m.failed == n.failed
    ensures Held(NewGate(c, t0), run + rest) == Held(NewGate(c, t0), run)
  {
    hide Held, Count, NewGate;
    if rest == [] {
      assert run + rest == run;
    } else {
      var before := rest[..|rest| - 1];
      FullForever(c, t0, run, before);
      FullStep(c, t0, run + before, rest[|rest| - 1]);
      assert run + before + [rest[|rest| - 1]] == run + rest;
    }
  }

  /** k calls a second apart, each of whose operations succeeds. */
  function SpacedSuccesses(t0: int, k: nat): seq<Event> {
    if k == 0 then [] else SpacedSuccesses(t0, k - 1) + [SpacedSuccess(t0, k)]
  }

  function SpacedSuccess(t0: int, k: nat): Event {
    Execute(ClockAt(t0, k), false, false)
  }

  /** All readings of one call, k seconds after the start. */
  function ClockAt(t0: int, k: nat): Clock {
    var at := t0 + k * RL.NANO;
    Clock(at, at, at)
  }

  /** A second after the last refill the bucket admits and refills again. */
  lemma SecondAdmits(b: RL.Bucket, now: int)
    requires RL.ValidBucket(b) && now == b.lastRefill + RL.NANO
    ensures var (next, ok) := RL.AllowStep(b, now);
            ok && RL.ValidBucket(next) && next.lastRefill == now && next.refillRate == b.refillRate
  {
    assert RL.Inflow(now - b.lastRefill, b.refillRate) == RL.NANO * b.refillRate >= RL.NANO;
    RL.CallRefills(b, now);
    hide RL.TruncDiv, RL.Inflow;
  }

  /** A healthy gate of which k slots are held. */
  ghost predicate Filled(g0: Gate, g: Gate, t0: int, k: nat) {
    && g.breaker == g0.breaker
    && RL.ValidBucket(g.bucket) && g.bucket.lastRefill == t0 + k * RL.NANO
    && g.slots == g0.slots.(current := k, sem := if g0.slots.sem.None? then None else Some(k))
  }

  lemma FilledStep(g0: Gate, g: Gate, t0: int, k: nat)
    requires g0.breaker.state == CB.Closed && g0.breaker.failures == 0 && Filled(g0, g, t0, k)
    requires k < g0.slots.maxConnections
    ensures var (next, e) := ExecuteStep(g, ClockAt(t0, k + 1), false, false);
            e == Succeeded && Filled(g0, next, t0, k + 1)
  {
    SecondAdmits(g.bucket, ClockAt(t0, k + 1).rateAt);
    hide RL.AllowStep, RL.ValidBucket, CB.FailureStep, CL.ReleaseStep;
  }

  /** One more call of a run, and what it does to state and books. */
  lemma OneMore(g0: Gate, run: seq<Event>, ev: Event)
    requires ev.Execute? && ExecuteStep(After(g0, run), ev.clock, ev.contextFirst, ev.fails).1 == Succeeded
    ensures After(g0, run + [ev]) == ExecuteStep(After(g0, run), ev.clock, ev.contextFirst, ev.fails).0
    ensures Held(g0, run + [ev]) == Held(g0, run) + 1
    ensures Count(g0, run + [ev]).succeeded == Count(g0, run).succeeded + 1
  {
    assert (run + [ev])[..|run|] == run;
    hide ExecuteStep;
  }

  lemma FillsNone(c: Config, t0: int)
    ensures var g0 := NewGate(c, t0);
            && g0.breaker.state == CB.Closed && g0.breaker.failures == 0
            && Filled(g0, After(g0, []), t0, 0)
            && Held(g0, []) == Count(g0, []).succeeded == 0
  {
  }

  lemma {:induction false} FillsUp(c: Config, t0: int, k: nat)
    requires k <= NewGate(c, t0).slots.maxConnections
    ensures var g0 := NewGate(c, t0);
            && Filled(g0, After(g0, SpacedSuccesses(t0, k)), t0, k)
            && Held(g0, SpacedSuccesses(t0, k)) == k
            && Count(g0, SpacedSuccesses(t0, k)).succeeded == k
  {
    var g0 := NewGate(c, t0);
    FillsNone(c, t0);
    hide ExecuteStep, Filled, NewGate, After, Held, Count;
    if k > 0 {
      FillsUp(c, t0, k - 1);
      FilledStep(g0, After(g0, SpacedSuccesses(t0, k - 1)), t0, k - 1);
      OneMore(g0, SpacedSuccesses(t0, k - 1), SpacedSuccess(t0, k));
    }
  }

  /** The leak is reachable under every configuration: maxConnections calls a second
      apart that all succeed leave every slot held, and from then on the next call,
      which breaker and bucket let pass, is refused for want of a slot. */
  lemma LeakReachable(c: Config, t0: int)
    ensures var g0 := NewGate(c, t0);
            var n := g0.slots.maxConnections;
            && n > 0
            && var run := SpacedSuccesses(t0, n);
               && Count(g0, run).succeeded == Held(g0, run) == n
               && var e := ExecuteStep(After(g0, run), ClockAt(t0, n + 1), false, false).1;
                  e.Refused? && e.why.SlotRefused?
  {
    var g0 := NewGate(c, t0);
    var n := g0.slots.maxConnections;
    var g := After(g0, SpacedSuccesses(t0, n));
    FillsUp(c, t0, n);
    SecondAdmits(g.bucket, ClockAt(t0, n + 1).rateAt);
    SlotLeak(c, t0, SpacedSuccesses(t0, n), ClockAt(t0, n + 1), false, false);
    hide ExecuteStep, RL.AllowStep, After, SpacedSuccesses, Held, Count;
  }
}
