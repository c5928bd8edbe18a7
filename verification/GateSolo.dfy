/** A call of the threaded gate that nobody disturbs is the atomic call: the moves of one
    thread through breaker, bucket and limiter add up to the steps of the gate. */
module GateSolo {
  import opened Wrappers
  import CB = CircuitBreaker
  import BT = BreakerThreads
  import RL = RateLimiter
  import CL = ConnectionLimiter
  import LT = LimiterThreads
  import Gate
  import opened GateThreads

  // ---- the run of one thread ----

  /** The next move of thread t on its way out, when its operation fails or not. A full
      semaphore is given up, since nobody else is there to free a place. */
  function NextMove(g: Shared, t: nat, fails: bool): Move
    requires t < |g.stages|
  {
    match g.stages[t]
    case Paying => Pay(t)
    case Operating => Finish(t, !fails)
    case Acquiring => if Waiting(g.slots, t) then GiveUp(t) else SlotGo(t)
    case Taken => SlotGo(t)
    case Returning => SlotGo(t)
    case OutsideReturning => SlotGo(t)
    case Releasing => SlotGo(t)
    case _ => BreakerGo(t)
  }

  /** The thread waits for a place in a full channel. */
  predicate Waiting(l: LT.Shared, t: nat) {
    t < |l.threads| && l.threads[t] == LT.SemWait && l.sem.Some? && l.sem.value >= l.maxConnections
  }

  function Solo(g: Shared, t: nat, fails: bool, k: nat): Option<Shared>
    decreases k
  {
    if k == 0 then Some(g)
    else if t >= |g.stages| then None
    else
      match Apply(g, NextMove(g, t, fails))
      case None => None
      case Some(next) => Solo(next, t, fails, k - 1)
  }

  /** Alone, the thread gets from g to h, where it is out. */
  ghost predicate Ends(g: Shared, t: nat, fails: bool, h: Shared) {
    t < |h.stages| && h.stages[t] == Out && exists k: nat :: Solo(g, t, fails, k) == Some(h)
  }

  lemma EndsHere(h: Shared, t: nat, fails: bool)
    requires t < |h.stages| && h.stages[t] == Out
    ensures Ends(h, t, fails, h)
  {
    assert Solo(h, t, fails, 0) == Some(h);
  }

  lemma EndsNext(g: Shared, t: nat, fails: bool, next: Shared, h: Shared)
    requires t < |g.stages| && Apply(g, NextMove(g, t, fails)) == Some(next) && Ends(next, t, fails, h)
    ensures Ends(g, t, fails, h)
  {
    var k: nat :| Solo(next, t, fails, k) == Some(h);
    hide Apply, NextMove;
    assert Solo(g, t, fails, k + 1) == Some(h);
  }

  /** Outside, a thread that is at rest in the breaker has no way to go on. */
  lemma OutStays(h: Shared, t: nat, fails: bool, k: nat)
    requires t < |h.stages| && h.stages[t] == Out && t < |h.breaker.threads| && h.breaker.threads[t] == BT.Idle
    ensures k > 0 ==> Solo(h, t, fails, k).None?
  {
    if k > 0 {
      GoneNowhere(h.breaker, t);
      hide BT.Apply;
      assert Apply(h, NextMove(h, t, fails)) == None;
    }
  }

  lemma GoneNowhere(b: BT.Shared, t: nat)
    requires t < |b.threads| && b.threads[t] == BT.Idle
    ensures BT.Apply(b, BT.Go(t)).None?
  {
  }

  lemma {:induction false} SoloSplit(g: Shared, t: nat, fails: bool, j: nat, k: nat)
    requires Solo(g, t, fails, j).Some?
    ensures Solo(g, t, fails, j + k) == Solo(Solo(g, t, fails, j).value, t, fails, k)
    decreases j
  {
    hide Apply, NextMove;
    if j > 0 {
      SoloSplit(Apply(g, NextMove(g, t, fails)).value, t, fails, j - 1, k);
    }
  }

  /** The end of the thread's run is unique. */
  lemma EndsOnce(g: Shared, t: nat, fails: bool, h1: Shared, h2: Shared)
    requires Ends(g, t, fails, h1) && Ends(g, t, fails, h2)
    requires t < |h1.breaker.threads| && h1.breaker.threads[t] == BT.Idle
    requires t < |h2.breaker.threads| && h2.breaker.threads[t] == BT.Idle
    ensures h1 == h2
  {
    hide Apply, NextMove, Solo;
    var j: nat :| Solo(g, t, fails, j) == Some(h1);
    var k: nat :| Solo(g, t, fails, k) == Some(h2);
    NoMoves(h1, t, fails);
    NoMoves(h2, t, fails);
    if j <= k {
      SoloSplit(g, t, fails, j, k - j);
      OutStays(h1, t, fails, k - j);
    } else {
      SoloSplit(g, t, fails, k, j - k);
      OutStays(h2, t, fails, j - k);
    }
  }

  lemma NoMoves(g: Shared, t: nat, fails: bool)
    ensures Solo(g, t, fails, 0) == Some(g)
  {
  }

  /** And its moves are the only ones it has: the only choice is how the operation ends,
      and whether to give up while a place is free. */
  lemma NoOtherMove(g: Shared, t: nat, fails: bool, m: Move)
    requires Placed(g) && !m.Tick? && m.t == t && t < |g.stages| && Apply(g, m).Some?
    requires g.stages[t] != Out && (m.Finish? ==> m.ok == !fails) && (m.GiveUp? ==> Waiting(g.slots, t))
    ensures m == NextMove(g, t, fails)
  {
    assert PlacedAt(g, t);
    if g.breaker.threads[t] == BT.Idle {
      GoneNowhere(g.breaker, t);
    }
    SlotsStuck(g.slots, t);
    hide BT.Apply, LT.Apply;
  }

  lemma SlotsStuck(l: LT.Shared, t: nat)
    requires t < |l.threads|
    ensures l.threads[t] == LT.Idle || Waiting(l, t) ==> LT.Apply(l, LT.Go(t)).None?
  {
  }

  // ---- the thread alone in a gate at rest ----

  /** The atomic gate that the fields represent. */
  function Atomic(g: Shared): Gate.Gate {
    Gate.Gate(BT.Abstract(g.breaker), g.bucket, LT.Abstract(g.slots))
  }

  /** All clock readings of an undisturbed call are the same. */
  function Now(g: Shared): Gate.Clock {
    Gate.Clock(g.breaker.now, g.breaker.now, g.breaker.now)
  }

  /** No lock is held, and thread t is inside neither part. */
  predicate Resting(g: Shared, t: nat) {
    && t < |g.stages| && |g.stages| == |g.breaker.threads| == |g.slots.threads|
    && BT.Quiet(g.breaker, t)
    && g.slots.threads[t] == LT.Idle && g.slots.holder.None?
  }

  // ---- a call of the breaker ----

  /** From inside a call of the breaker to its return, and on from there. */
  lemma {:induction false} BreakerCall(g: Shared, t: nat, fails: bool, k: nat, b: BT.Shared, next: Shared, h: Shared)
    requires t < |g.stages| && |g.stages| == |g.breaker.threads| && k > 0
    requires g.stages[t].Asking? || g.stages[t].Refused? || g.stages[t].Succeeding? || g.stages[t].Failing? || g.stages[t].OutsideFailing?
    requires BT.GoTimes(g.breaker, t, k) == Some(b) && t < |b.threads| && b.threads[t] == BT.Idle
    requires BT.GoTimes(g.breaker, t, k - 1).Some? && t < |BT.GoTimes(g.breaker, t, k - 1).value.threads|
    requires BreakerReturns(g.(breaker := b), t, g.stages[t],
                            BT.GoTimes(g.breaker, t, k - 1).value.threads[t] == BT.AllowUnlockRefused) == Some(next)
    requires Ends(next, t, fails, h)
    ensures Ends(g, t, fails, h)
    decreases k
  {
    GoMoves(g.breaker, t, k);
    BreakerMoves(g, t, fails);
    var b1 := BT.Apply(g.breaker, BT.Go(t)).value;
    hide Apply, NextMove, BT.Apply, BT.GoTimes, BreakerReturns, Ends, Solo;
    if k == 1 {
      EndsNext(g, t, fails, next, h);
    } else {
      var moved := g.(breaker := b1);
      assert moved.(breaker := b) == g.(breaker := b);
      BreakerCall(moved, t, fails, k - 1, b, next, h);
      EndsNext(g, t, fails, moved, h);
    }
  }

  lemma BreakerMoves(g: Shared, t: nat, fails: bool)
    requires t < |g.stages| && |g.stages| == |g.breaker.threads|
    requires g.stages[t].Asking? || g.stages[t].Refused? || g.stages[t].Succeeding? || g.stages[t].Failing? || g.stages[t].OutsideFailing?
    requires BT.Apply(g.breaker, BT.Go(t)).Some?
    ensures var b := BT.Apply(g.breaker, BT.Go(t)).value;
            Apply(g, NextMove(g, t, fails)) ==
            if t < |b.threads| && b.threads[t] != BT.Idle then Some(g.(breaker := b))
            else BreakerReturns(g.(breaker := b), t, g.stages[t], g.breaker.threads[t] == BT.AllowUnlockRefused)
  {
    hide BT.Apply, BreakerReturns;
  }

  /** The first of k moves in a row. */
  lemma GoMoves(b: BT.Shared, t: nat, k: nat)
    requires t < |b.threads| && k > 0 && BT.GoTimes(b, t, k).Some?
    ensures BT.GoTimes(b, t, 0) == Some(b)
    ensures var r := BT.Apply(b, BT.Go(t));
            && r.Some? && |r.value.threads| == |b.threads|
            && BT.GoTimes(b, t, k) == BT.GoTimes(r.value, t, k - 1)
            && (k == 1 ==> BT.GoTimes(b, t, k) == Some(r.value))
            && (k > 1 ==> BT.GoTimes(b, t, k - 1) == BT.GoTimes(r.value, t, k - 2) && r.value.threads[t] != BT.Idle)
  {
    BT.ThreadsFixed(b, BT.Go(t));
    var r := BT.Advance(b, t);
    assert BT.Apply(b, BT.Go(t)) == r;
    IdleStops(r.value, t, k - 1);
    hide BT.Apply, BT.Advance;
  }

  lemma IdleStops(b: BT.Shared, t: nat, k: nat)
    requires t < |b.threads|
    ensures k > 0 && b.threads[t] == BT.Idle ==> BT.GoTimes(b, t, k).None?
  {
  }

  lemma GoTimesPrefix(b: BT.Shared, t: nat, k: nat)
    requires t < |b.threads| && k > 0 && BT.GoTimes(b, t, k).Some?
    ensures BT.GoTimes(b, t, k - 1).Some? && |BT.GoTimes(b, t, k - 1).value.threads| == |b.threads|
    decreases k
  {
    GoMoves(b, t, k);
    if k > 1 {
      GoTimesPrefix(BT.Apply(b, BT.Go(t)).value, t, k - 1);
    }
    hide BT.Apply;
  }

  /** The breaker with the numbers that a step of the atomic one gives. */
  function With(b: BT.Shared, s: CB.Breaker): BT.Shared {
    b.(state := s.state, count := s.failures, lastFailure := s.lastFailure)
  }

  lemma FailureRow(b: BT.Shared, t: nat)
    requires BT.Quiet(b, t)
    ensures var r := With(b, CB.FailureStep(BT.Abstract(b), b.now));
            && BT.Apply(b, BT.StartFailure(t)).Some?
            && BT.GoTimes(BT.Apply(b, BT.StartFailure(t)).value, t, 6) == Some(r)
            && BT.Quiet(r, t) && BT.Abstract(r) == CB.FailureStep(BT.Abstract(b), b.now)
  {
    BT.FailureAlone(b, t);
    BT.AloneRuns(b, t, BT.StartFailure(t), 6);
    hide BT.Run, BT.GoTimes, BT.Alone;
  }

  lemma SuccessRow(b: BT.Shared, t: nat)
    requires BT.Quiet(b, t)
    ensures var k := match b.state case HalfOpen => 5 case Closed => 2 case Open => 1;
            var r := With(b, CB.SuccessStep(BT.Abstract(b)));
            && BT.Apply(b, BT.StartSuccess(t)).Some?
            && BT.GoTimes(BT.Apply(b, BT.StartSuccess(t)).value, t, k) == Some(r)
            && BT.Quiet(r, t) && BT.Abstract(r) == CB.SuccessStep(BT.Abstract(b))
  {
    var k := match b.state case HalfOpen => 5 case Closed => 2 case Open => 1;
    BT.SuccessAlone(b, t);
    BT.AloneRuns(b, t, BT.StartSuccess(t), k);
    hide BT.Run, BT.GoTimes, BT.Alone;
  }

  lemma AllowRow(b: BT.Shared, t: nat)
    requires BT.Quiet(b, t)
    ensures var k := if b.state != CB.Open then 3 else if BT.TimedOut(b) then 8 else 6;
            var (s, ok) := CB.AllowStep(BT.Abstract(b), b.now);
            var start := BT.Apply(b, BT.StartAllow(t));
            && start.Some? && start.value == BT.At(b, t, BT.AllowStart)
            && BT.GoTimes(start.value, t, k) == Some(With(b, s))
            && BT.Quiet(With(b, s), t) && BT.Abstract(With(b, s)) == s
            && var last := BT.GoTimes(start.value, t, k - 1);
               last.Some? && t < |last.value.threads| && (last.value.threads[t] == BT.AllowUnlockRefused <==> !ok)
  {
    var k := if b.state != CB.Open then 3 else if BT.TimedOut(b) then 8 else 6;
    BT.AllowAlone(b, t);
    BT.AloneRuns(b, t, BT.StartAllow(t), k);
    BT.AllowAnswer(b, t);
    hide BT.Run, BT.GoTimes, BT.Alone;
  }

  lemma CallKeepsSize(b: BT.Shared, m: BT.Move, t: nat, k: nat)
    requires t < |b.threads| && BT.Apply(b, m).Some? && k > 0
    requires |BT.Apply(b, m).value.threads| == |b.threads| ==> BT.GoTimes(BT.Apply(b, m).value, t, k).Some?
    ensures |BT.Apply(b, m).value.threads| == |b.threads|
    ensures var last := BT.GoTimes(BT.Apply(b, m).value, t, k - 1);
            last.Some? && |last.value.threads| == |b.threads|
  {
    BT.ThreadsFixed(b, m);
    GoTimesPrefix(BT.Apply(b, m).value, t, k);
    hide BT.Apply;
  }

  /** The gate in whose breaker thread t has just ended a call, and not yet returned. */
  function During(g: Shared, t: nat, m: BT.Move, stage: Stage, s: CB.Breaker): Shared
    requires t < |g.stages|
  {
    At(g, t, stage).(breaker := With(g.breaker, s), books := Told(g.books, m))
  }

  lemma FlagIdle(g: Shared, t: nat, stage: Stage)
    requires t < |g.stages| && !stage.Asking?
    ensures BreakerReturns(g, t, stage, true) == BreakerReturns(g, t, stage, false)
  {
  }

  lemma TellsFailure(g: Shared, t: nat, fails: bool, stage: Stage, next: Shared, h: Shared)
    requires Resting(g, t) && (stage.Refused? || stage.Failing? || stage.OutsideFailing?)
    requires var s := CB.FailureStep(BT.Abstract(g.breaker), g.breaker.now);
             BreakerReturns(During(g, t, BT.StartFailure(t), stage, s), t, stage, false) == Some(next)
    requires Ends(next, t, fails, h)
    ensures var r := ToBreaker(g, t, BT.StartFailure(t), stage);
            r.Some? && Ends(r.value, t, fails, h)
  {
    hide BT.Apply, BT.GoTimes, Ends, CB.FailureStep, BreakerReturns, BT.Abstract;
    var b, m := g.breaker, BT.StartFailure(t);
    FailureRow(b, t);
    CallKeepsSize(b, m, t, 6);
    var during := ToBreaker(g, t, m, stage).value;
    var after := With(b, CB.FailureStep(BT.Abstract(b), b.now));
    assert during.(breaker := after) == During(g, t, m, stage, CB.FailureStep(BT.Abstract(b), b.now));
    FlagIdle(during.(breaker := after), t, stage);
    BreakerCall(during, t, fails, 6, after, next, h);
  }

  lemma TellsSuccess(g: Shared, t: nat, fails: bool, h: Shared)
    requires Resting(g, t)
    requires h == At(During(g, t, BT.StartSuccess(t), Succeeding, CB.SuccessStep(BT.Abstract(g.breaker))), t, Out)
    ensures var r := ToBreaker(g, t, BT.StartSuccess(t), Succeeding);
            r.Some? && Ends(r.value, t, fails, h)
  {
    hide BT.Apply, BT.GoTimes, Ends, CB.SuccessStep, BT.Abstract;
    var b, m := g.breaker, BT.StartSuccess(t);
    var k := match b.state case HalfOpen => 5 case Closed => 2 case Open => 1;
    SuccessRow(b, t);
    CallKeepsSize(b, m, t, k);
    var during := ToBreaker(g, t, m, Succeeding).value;
    var after := With(b, CB.SuccessStep(BT.Abstract(b)));
    assert during.(breaker := after) == During(g, t, m, Succeeding, CB.SuccessStep(BT.Abstract(b)));
    EndsHere(h, t, fails);
    BreakerCall(during, t, fails, k, after, h, h);
  }

  lemma Asks(g: Shared, t: nat, fails: bool, next: Shared, h: Shared)
    requires Resting(g, t)
    requires var (s, ok) := CB.AllowStep(BT.Abstract(g.breaker), g.breaker.now);
             BreakerReturns(During(g, t, BT.StartAllow(t), Asking, s), t, Asking, !ok) == Some(next)
    requires Ends(next, t, fails, h)
    ensures var r := ToBreaker(g, t, BT.StartAllow(t), Asking);
            r.Some? && Ends(r.value, t, fails, h)
  {
    hide BT.Apply, BT.GoTimes, Ends, CB.AllowStep, BT.Abstract, BreakerReturns;
    var b, m := g.breaker, BT.StartAllow(t);
    var k := if b.state != CB.Open then 3 else if BT.TimedOut(b) then 8 else 6;
    AllowRow(b, t);
    CallKeepsSize(b, m, t, k);
    var during := ToBreaker(g, t, m, Asking).value;
    var after := With(b, CB.AllowStep(BT.Abstract(b), b.now).0);
    assert during.(breaker := after) == During(g, t, m, Asking, CB.AllowStep(BT.Abstract(b), b.now).0);
    BreakerCall(during, t, fails, k, after, next, h);
  }

  // ---- a call of the limiter ----

  /** One move inside the limiter, by the rule for the place. */
  lemma SlotNext(g: Shared, t: nat, fails: bool, pc: LT.Pc, l: LT.Shared, next: Shared, h: Shared)
    requires t < |g.stages| && t < |g.slots.threads| && g.slots.threads[t] == pc && !Waiting(g.slots, t)
    requires var stage := g.stages[t];
             stage.Acquiring? || stage.Taken? || stage.Returning? || stage.OutsideReturning? || stage.Releasing?
    requires LT.Advance(g.slots, t, pc) == Some(l)
    requires SlotMoved(g.(slots := l), t, g.stages[t], l.current > g.slots.current) == Some(next)
    requires Ends(next, t, fails, h)
    ensures Ends(g, t, fails, h)
  {
    hide LT.Advance, SlotMoved, Ends;
    EndsNext(g, t, fails, next, h);
  }

  /** The limiter with the numbers that a step of the atomic one gives. */
  function Numbers(l: LT.Shared, s: CL.Limiter, empty: nat): LT.Shared {
    l.(current := s.current, sem := s.sem, emptyReleases := empty)
  }

  /** The gate when thread t has been let into its operation. */
  function Entered(g: Shared, t: nat): Shared
    requires t < |g.stages|
  {
    var s := CL.AcquireStep(LT.Abstract(g.slots), false).0;
    Operate(g.(slots := Numbers(g.slots, s, g.slots.emptyReleases)), t)
  }

  predicate Free(l: LT.Shared) {
    CL.AcquireStep(LT.Abstract(l), false).1 == CL.Acquired
  }

  lemma AcquiresSem(g: Shared, t: nat, fails: bool, h: Shared)
    requires Resting(g, t) && g.slots.sem.Some? && Free(g.slots) && Ends(Entered(g, t), t, fails, h)
    ensures var r := ToSlots(g, t, LT.StartAcquire(t), Acquiring);
            r.Some? && Ends(r.value, t, fails, h)
  {
    hide Ends;
    var l := g.slots;
    var l1 := LT.At(l, t, LT.SemTry);
    var l2 := LT.At(l1, t, LT.SemCount).(sem := Some(l.sem.value + 1));
    var l3 := LT.At(l2, t, LT.Idle).(current := l.current + 1);
    LT.BackToIdle(l.threads, t, LT.SemTry, LT.SemCount);
    assert l3 == l.(sem := Some(l.sem.value + 1), current := l.current + 1);
    var g1, g2 := At(g, t, Acquiring).(slots := l1), At(g, t, Acquiring).(slots := l2);
    assert At(g1, t, Acquiring).stages == g1.stages;
    assert At(At(g, t, Acquiring), t, Operating).stages == At(g, t, Operating).stages;
    LT.SendMove(l1, t);
    LT.CountMove(l2, t);
    SlotNext(g2, t, fails, LT.SemCount, l3, Entered(g, t), h);
    SlotNext(g1, t, fails, LT.SemTry, l2, g2, h);
  }

  lemma LockFree(l: LT.Shared, t: nat)
    requires t < |l.threads| && l.holder.None?
    ensures LT.Advance(l, t, LT.AcqLock) == Some(LT.At(l, t, LT.AcqCheck).(holder := Some(t)))
  {
  }

  lemma LockedMoves(l: LT.Shared, t: nat)
    requires t < |l.threads|
    ensures LT.Advance(l, t, LT.AcqCheck) == Some(LT.At(l, t, if l.current >= l.maxConnections then LT.AcqUnlock else LT.AcqAdd))
    ensures LT.Advance(l, t, LT.AcqAdd) == Some(LT.At(l, t, LT.AcqUnlock).(current := l.current + 1))
    ensures LT.Advance(l, t, LT.AcqUnlock) == Some(LT.At(l, t, LT.Idle).(holder := None))
  {
  }

  lemma AcquiresPlain(g: Shared, t: nat, fails: bool, h: Shared)
    requires Resting(g, t) && g.slots.sem.None? && Free(g.slots) && Ends(Entered(g, t), t, fails, h)
    ensures var r := ToSlots(g, t, LT.StartAcquire(t), Acquiring);
            r.Some? && Ends(r.value, t, fails, h)
  {
    hide Ends, LT.Advance;
    var l := g.slots;
    var l1 := LT.At(l, t, LT.AcqLock);
    var l2 := LT.At(l1, t, LT.AcqCheck).(holder := Some(t));
    var l3 := LT.At(l2, t, LT.AcqAdd);
    var l4 := LT.At(l3, t, LT.AcqUnlock).(current := l.current + 1);
    var l5 := LT.At(l4, t, LT.Idle).(holder := None);
    assert l5.threads == l.threads;
    assert l5 == l.(current := l.current + 1);
    LockFree(l1, t);
    LockedMoves(l2, t);
    LockedMoves(l3, t);
    LockedMoves(l4, t);
    var inside := At(g, t, Acquiring);
    assert At(inside, t, Acquiring).stages == inside.stages;
    assert At(inside, t, Taken).stages == g.stages[t := Taken];
    var taken := At(g, t, Taken).(slots := l4);
    assert At(taken, t, Operating).stages == At(g, t, Operating).stages;
    SlotNext(taken, t, fails, LT.AcqUnlock, l5, Entered(g, t), h);
    SlotNext(inside.(slots := l3), t, fails, LT.AcqAdd, l4, taken, h);
    SlotNext(inside.(slots := l2), t, fails, LT.AcqCheck, l3, inside.(slots := l3), h);
    SlotNext(inside.(slots := l1), t, fails, LT.AcqLock, l2, inside.(slots := l2), h);
  }

  lemma RefusedPlain(g: Shared, t: nat, fails: bool, next: Shared, h: Shared)
    requires Resting(g, t) && g.slots.sem.None? && !Free(g.slots)
    requires SlotRefusal(g, t) == Some(next) && Ends(next, t, fails, h)
    ensures var r := ToSlots(g, t, LT.StartAcquire(t), Acquiring);
            r.Some? && Ends(r.value, t, fails, h)
  {
    hide Ends, LT.Advance;
    var l := g.slots;
    var l1 := LT.At(l, t, LT.AcqLock);
    var l2 := LT.At(l1, t, LT.AcqCheck).(holder := Some(t));
    var l3 := LT.At(l2, t, LT.AcqUnlock);
    var l4 := LT.At(l3, t, LT.Idle).(holder := None);
    assert l4.threads == l.threads;
    assert l4 == l;
    LockFree(l1, t);
    LockedMoves(l2, t);
    LockedMoves(l3, t);
    var inside := At(g, t, Acquiring);
    assert At(inside, t, Acquiring).stages == inside.stages;
    RefusalFromInside(g, t);
    hide SlotRefusal;
    SlotNext(inside.(slots := l3), t, fails, LT.AcqUnlock, l4, next, h);
    SlotNext(inside.(slots := l2), t, fails, LT.AcqCheck, l3, inside.(slots := l3), h);
    SlotNext(inside.(slots := l1), t, fails, LT.AcqLock, l2, inside.(slots := l2), h);
  }

  lemma RefusalFromInside(g: Shared, t: nat)
    requires t < |g.stages|
    ensures SlotRefusal(At(g, t, Acquiring), t) == SlotRefusal(g, t)
  {
    assert g.stages[t := Acquiring][t := Refused] == g.stages[t := Refused];
    hide BT.Apply;
  }

  lemma RefusedSem(g: Shared, t: nat, fails: bool, next: Shared, h: Shared)
    requires Resting(g, t) && g.slots.sem.Some? && !Free(g.slots)
    requires SlotRefusal(g, t) == Some(next) && Ends(next, t, fails, h)
    ensures var r := ToSlots(g, t, LT.StartAcquire(t), Acquiring);
            r.Some? && Ends(r.value, t, fails, h)
  {
    hide Ends, LT.Advance;
    var l := g.slots;
    var l1 := LT.At(l, t, LT.SemTry);
    var inside := At(g, t, Acquiring);
    var idle := LT.At(l1, t, LT.Idle);
    LT.BackToIdle(l.threads, t, LT.SemTry, LT.SemWait);
    assert idle.threads == l.threads && idle == l;
    assert At(inside, t, Acquiring).stages == inside.stages;
    RefusalFromInside(g, t);
    FullMoves(l1, t);
    hide SlotRefusal;
    if l.mode == CL.Timeout && l.timeout <= 0 {
      SlotNext(inside.(slots := l1), t, fails, LT.SemTry, l, next, h);
    } else {
      var l2 := LT.At(l1, t, LT.SemWait);
      assert LT.At(l2, t, LT.Idle) == l;
      LT.ThreadGivesUp(l2, t);
      hide LT.Apply;
      EndsNext(inside.(slots := l2), t, fails, next, h);
      SlotNext(inside.(slots := l1), t, fails, LT.SemTry, l2, inside.(slots := l2), h);
    }
  }

  lemma FullMoves(l: LT.Shared, t: nat)
    requires t < |l.threads| && l.sem.Some? && l.sem.value >= l.maxConnections
    ensures LT.Advance(l, t, LT.SemTry) ==
            Some(LT.At(l, t, if l.mode == CL.Timeout && l.timeout <= 0 then LT.Idle else LT.SemWait))
  {
  }

  /** The gate when thread t has returned from a release made at this stage. */
  function Released(g: Shared, t: nat, stage: Stage): Shared
    requires t < |g.stages|
  {
    var b, empty := g.books, g.slots.emptyReleases + (if g.slots.sem == Some(0) then 1 else 0);
    At(g, t, Out).(
      slots := Numbers(g.slots, CL.ReleaseStep(LT.Abstract(g.slots)), empty),
      books := if stage.Returning? then b.(failed := b.failed + 1)
               else if stage.OutsideReturning? then b.(outsideFailures := b.outsideFailures + 1)
               else b.(releases := b.releases + 1))
  }

  lemma PlainRelease(l: LT.Shared, t: nat)
    requires t < |l.threads|
    ensures LT.Advance(l, t, LT.RelPlain) == Some(LT.At(l, t, LT.Idle).(current := l.current - 1))
  {
  }

  predicate GivesBack(stage: Stage) {
    stage.Returning? || stage.OutsideReturning? || stage.Releasing?
  }

  /** What a move inside a release makes of the gate. */
  lemma ReleaseGoes(g: Shared, t: nat, stage: Stage, l: LT.Shared)
    requires t < |g.stages| && GivesBack(stage) && t < |l.threads|
    ensures var inside := At(g, t, stage).(slots := l);
            && (l.threads[t] != LT.Idle ==> SlotMoved(inside, t, stage, false) == Some(inside))
            && (l.threads[t] == LT.Idle && l == Released(g, t, stage).slots ==>
                  SlotMoved(inside, t, stage, false) == Some(Released(g, t, stage)))
  {
    assert g.stages[t := stage][t := Out] == g.stages[t := Out];
    hide Numbers;
  }

  lemma ReleasesPlain(g: Shared, t: nat, fails: bool, stage: Stage)
    requires Resting(g, t) && GivesBack(stage) && g.slots.sem.None?
    ensures var r := ToSlots(g, t, LT.StartRelease(t), stage);
            r.Some? && Ends(r.value, t, fails, Released(g, t, stage))
  {
    var l, h := g.slots, Released(g, t, stage);
    var l1 := LT.At(l, t, LT.RelPlain);
    var l2 := LT.At(l1, t, LT.Idle).(current := l.current - 1);
    assert l2.threads == l.threads && l2 == h.slots;
    EndsHere(h, t, fails);
    PlainRelease(l1, t);
    ReleaseGoes(g, t, stage, l2);
    hide Ends, LT.Advance, SlotMoved, Released;
    SlotNext(At(g, t, stage).(slots := l1), t, fails, LT.RelPlain, l2, h, h);
  }

  /** A release that takes two moves: one on the channel, one on the counter. */
  lemma ReleasesTwice(g: Shared, t: nat, fails: bool, stage: Stage, pc: LT.Pc, l2: LT.Shared)
    requires Resting(g, t) && GivesBack(stage) && g.slots.sem.Some? && pc != LT.Idle && pc != LT.SemWait
    requires LT.Advance(LT.At(g.slots, t, LT.RelTry), t, LT.RelTry) == Some(l2)
    requires t < |l2.threads| && l2.threads[t] == pc && l2.current == g.slots.current
    requires LT.Advance(l2, t, pc) == Some(Released(g, t, stage).slots)
    ensures var r := ToSlots(g, t, LT.StartRelease(t), stage);
            r.Some? && Ends(r.value, t, fails, Released(g, t, stage))
  {
    var l1, l3, h := LT.At(g.slots, t, LT.RelTry), Released(g, t, stage).slots, Released(g, t, stage);
    assert l3.threads == g.slots.threads && l3.current == g.slots.current - 1;
    EndsHere(h, t, fails);
    LT.ReleaseMove(g.slots, t);
    ReleaseGoes(g, t, stage, l2);
    ReleaseGoes(g, t, stage, l3);
    assert l1.threads[t] == LT.RelTry && l1.current == g.slots.current;
    hide Ends, LT.Advance, LT.Apply, SlotMoved, Released, LT.At;
    var inside := At(g, t, stage);
    SlotNext(inside.(slots := l2), t, fails, pc, l3, h, h);
    SlotNext(inside.(slots := l1), t, fails, LT.RelTry, l2, inside.(slots := l2), h);
  }

  lemma ReleasesSem(g: Shared, t: nat, fails: bool, stage: Stage)
    requires Resting(g, t) && GivesBack(stage) && g.slots.sem.Some? && g.slots.sem.value > 0
    ensures var r := ToSlots(g, t, LT.StartRelease(t), stage);
            r.Some? && Ends(r.value, t, fails, Released(g, t, stage))
  {
    var l := g.slots;
    var l1 := LT.At(l, t, LT.RelTry);
    var l2 := LT.At(l1, t, LT.RelReceived).(sem := Some(l.sem.value - 1));
    LT.BackToIdle(l.threads, t, LT.RelTry, LT.RelReceived);
    assert LT.At(l2, t, LT.Idle).(current := l.current - 1) == Released(g, t, stage).slots;
    hide LT.Advance, ToSlots, Ends, Released;
    LT.ReceiveMove(l1, t);
    LT.ReceivedCountMove(l2, t);
    ReleasesTwice(g, t, fails, stage, LT.RelReceived, l2);
  }

  lemma ReleasesEmpty(g: Shared, t: nat, fails: bool, stage: Stage)
    requires Resting(g, t) && GivesBack(stage) && g.slots.sem.Some? && g.slots.sem.value == 0
    ensures var r := ToSlots(g, t, LT.StartRelease(t), stage);
            r.Some? && Ends(r.value, t, fails, Released(g, t, stage))
  {
    var l := g.slots;
    var l1 := LT.At(l, t, LT.RelTry);
    var l2 := LT.At(l1, t, LT.RelEmpty);
    LT.BackToIdle(l.threads, t, LT.RelTry, LT.RelEmpty);
    assert LT.At(l2, t, LT.Idle).(current := l.current - 1, emptyReleases := l.emptyReleases + 1) == Released(g, t, stage).slots;
    hide LT.Advance, ToSlots, Ends, Released;
    LT.EmptyMove(l1, t);
    LT.EmptyCountMove(l2, t);
    ReleasesTwice(g, t, fails, stage, LT.RelEmpty, l2);
  }

  lemma Releases(g: Shared, t: nat, fails: bool, stage: Stage)
    requires Resting(g, t) && GivesBack(stage)
    ensures var r := ToSlots(g, t, LT.StartRelease(t), stage);
            r.Some? && Ends(r.value, t, fails, Released(g, t, stage))
  {
    hide ToSlots, Ends, Released;
    if g.slots.sem.None? {
      ReleasesPlain(g, t, fails, stage);
    } else if g.slots.sem.value > 0 {
      ReleasesSem(g, t, fails, stage);
    } else {
      ReleasesEmpty(g, t, fails, stage);
    }
  }

  // ---- whole calls ----

  /** A failure told to the breaker, then a slot given back. */
  lemma TellsAndReleases(g: Shared, t: nat, fails: bool, stage: Stage)
    requires Resting(g, t) && (stage.Failing? || stage.OutsideFailing?)
    ensures var r := ToBreaker(g, t, BT.StartFailure(t), stage);
            var s := CB.FailureStep(BT.Abstract(g.breaker), g.breaker.now);
            var told := During(g, t, BT.StartFailure(t), stage, s);
            && Resting(told, t)
            && r.Some? && Ends(r.value, t, fails, Released(told, t, if stage.Failing? then Returning else OutsideReturning))
  {
    var s := CB.FailureStep(BT.Abstract(g.breaker), g.breaker.now);
    var told := During(g, t, BT.StartFailure(t), stage, s);
    var back := if stage.Failing? then Returning else OutsideReturning;
    hide CB.FailureStep, ToSlots, ToBreaker, Ends, Released;
    Releases(told, t, fails, back);
    TellsFailure(g, t, fails, stage, ToSlots(told, t, LT.StartRelease(t), back).value, Released(told, t, back));
  }

  /** What a call writes into the books, by its ending. */
  function Written(b: Books, now: int, e: Gate.Ended): Books {
    var called := b.(calls := b.calls + 1);
    var paid := called.(times := b.times + [now]);
    match e
    case Refused(BreakerRefused) => called.(breakerRefused := b.breakerRefused + 1)
    case Refused(RateRefused) => paid.(rateRefused := b.rateRefused + 1, failuresTold := b.failuresTold + 1)
    case Refused(_) => paid.(slotRefused := b.slotRefused + 1, failuresTold := b.failuresTold + 1)
    case Failed => paid.(executed := b.executed + 1, failed := b.failed + 1, failuresTold := b.failuresTold + 1)
    case Succeeded => paid.(executed := b.executed + 1, succeeded := b.succeeded + 1, successesTold := b.successesTold + 1)
  }

  /** Thread t is out, and the rest is as it was but for the parts and the books. */
  predicate Left(g: Shared, h: Shared, t: nat, atomic: Gate.Gate, books: Books)
    requires t < |g.stages|
  {
    && h.stages == g.stages[t := Out] && Resting(h, t) && h.breaker.now == g.breaker.now
    && Atomic(h) == atomic && h.books == books
  }

  lemma ToldLeft(g: Shared, t: nat, m: BT.Move, stage: Stage, s: CB.Breaker)
    requires Resting(g, t) && s.maxFailures == g.breaker.maxFailures && s.resetTimeout == g.breaker.resetTimeout
    ensures var told := During(g, t, m, stage, s);
            && Resting(told, t)
            && Left(g, At(told, t, Out), t, Atomic(g).(breaker := s), Told(g.books, m))
  {
  }

  lemma ConfigStays(b: CB.Breaker, now: int)
    ensures var f := CB.FailureStep(b, now); f.maxFailures == b.maxFailures && f.resetTimeout == b.resetTimeout
    ensures var f := CB.SuccessStep(b); f.maxFailures == b.maxFailures && f.resetTimeout == b.resetTimeout
    ensures var f := CB.AllowStep(b, now).0; f.maxFailures == b.maxFailures && f.resetTimeout == b.resetTimeout
  {
  }

  lemma ReleasedLeft(g: Shared, told: Shared, t: nat, s: CB.Breaker, m: BT.Move, stage: Stage, back: Stage)
    requires Resting(g, t) && GivesBack(back) && told == During(g, t, m, stage, s)
    requires s.maxFailures == g.breaker.maxFailures && s.resetTimeout == g.breaker.resetTimeout
    ensures var b := Told(g.books, m);
            Left(g, Released(told, t, back), t,
                 Atomic(g).(breaker := s, slots := CL.ReleaseStep(LT.Abstract(g.slots))),
                 if back.Returning? then b.(failed := b.failed + 1)
                 else if back.OutsideReturning? then b.(outsideFailures := b.outsideFailures + 1)
                 else b.(releases := b.releases + 1))
  {
  }

  /** From the operation on. */
  lemma EndsOperating(g: Shared, t: nat, fails: bool) returns (h: Shared)
    requires Resting(g, t) && g.stages[t].Operating?
    ensures Ends(g, t, fails, h)
    ensures var b := g.books;
            Left(g, h, t,
                 if fails then Gate.FailureStep(Atomic(g), g.breaker.now)
                 else Atomic(g).(breaker := CB.SuccessStep(BT.Abstract(g.breaker))),
                 if fails then b.(failed := b.failed + 1, failuresTold := b.failuresTold + 1)
                 else b.(succeeded := b.succeeded + 1, successesTold := b.successesTold + 1))
  {
    hide CB.FailureStep, CB.SuccessStep, ToBreaker, Ends, Released, Left, BT.Apply, LT.Apply;
    var breaker, now := BT.Abstract(g.breaker), g.breaker.now;
    ConfigStays(breaker, now);
    if fails {
      var s := CB.FailureStep(breaker, now);
      var told := During(g, t, BT.StartFailure(t), Failing, s);
      h := Released(told, t, Returning);
      TellsAndReleases(g, t, fails, Failing);
      ReleasedLeft(g, told, t, s, BT.StartFailure(t), Failing, Returning);
      EndsNext(g, t, fails, ToBreaker(g, t, BT.StartFailure(t), Failing).value, h);
    } else {
      var s := CB.SuccessStep(breaker);
      var counted := g.(books := g.books.(succeeded := g.books.succeeded + 1));
      h := At(During(counted, t, BT.StartSuccess(t), Succeeding, s), t, Out);
      TellsSuccess(counted, t, fails, h);
      ToldLeft(counted, t, BT.StartSuccess(t), Succeeding, s);
      LeftFrom(counted, g, h, t, Atomic(counted).(breaker := s), Told(counted.books, BT.StartSuccess(t)));
      EndsNext(g, t, fails, ToBreaker(counted, t, BT.StartSuccess(t), Succeeding).value, h);
    }
  }

  /** Only the stages of the other threads and the clock of the start matter. */
  lemma LeftFrom(g1: Shared, g2: Shared, h: Shared, t: nat, atomic: Gate.Gate, books: Books)
    requires t < |g1.stages| && Left(g1, h, t, atomic, books)
    requires |g1.stages| == |g2.stages| && g1.stages[t := Out] == g2.stages[t := Out] && g1.breaker.now == g2.breaker.now
    ensures Left(g2, h, t, atomic, books)
  {
  }

  /** A refusal after the breaker: it is told of a failure, and the call is over. */
  lemma EndsRefused(g: Shared, t: nat, fails: bool) returns (h: Shared)
    requires Resting(g, t)
    ensures var r := ToBreaker(g, t, BT.StartFailure(t), Refused);
            r.Some? && Ends(r.value, t, fails, h)
    ensures var b := g.books;
            Left(g, h, t, Atomic(g).(breaker := CB.FailureStep(BT.Abstract(g.breaker), g.breaker.now)),
                 b.(failuresTold := b.failuresTold + 1))
  {
    hide CB.FailureStep, ToBreaker, Ends, Left;
    var s := CB.FailureStep(BT.Abstract(g.breaker), g.breaker.now);
    h := At(During(g, t, BT.StartFailure(t), Refused, s), t, Out);
    ConfigStays(BT.Abstract(g.breaker), g.breaker.now);
    ToldLeft(g, t, BT.StartFailure(t), Refused, s);
    EndsHere(h, t, fails);
    TellsFailure(g, t, fails, Refused, h, h);
  }

  /** What the limiter and the operation make of an atomic gate that the bucket let in. */
  function AfterBucket(a: Gate.Gate, now: int, contextFirst: bool, fails: bool): (Gate.Gate, Gate.Ended) {
    var (slots, outcome) := CL.AcquireStep(a.slots, contextFirst);
    if outcome != CL.Acquired then (a.(breaker := CB.FailureStep(a.breaker, now)), Gate.Refused(Gate.SlotRefused(outcome)))
    else if fails then (Gate.FailureStep(a.(slots := slots), now), Gate.Failed)
    else (a.(slots := slots, breaker := CB.SuccessStep(a.breaker)), Gate.Succeeded)
  }

  /** What these write into the books. */
  function Settled(b: Books, e: Gate.Ended): Books {
    if e.Failed? then b.(executed := b.executed + 1, failed := b.failed + 1, failuresTold := b.failuresTold + 1)
    else if e.Succeeded? then b.(executed := b.executed + 1, succeeded := b.succeeded + 1, successesTold := b.successesTold + 1)
    else b.(slotRefused := b.slotRefused + 1, failuresTold := b.failuresTold + 1)
  }

  lemma FullStays(l: CL.Limiter, contextFirst: bool)
    ensures CL.AcquireStep(l, contextFirst).1 == CL.Acquired <==> CL.AcquireStep(l, false).1 == CL.Acquired
    ensures CL.AcquireStep(l, false).1 == CL.Acquired ==>
              CL.AcquireStep(l, contextFirst) == CL.AcquireStep(l, false) &&
              CL.AcquireStep(l, false).0 == l.(current := l.current + 1, sem := CL.AcquireStep(l, false).0.sem)
  {
  }

  lemma EnteredRests(g: Shared, t: nat)
    requires Resting(g, t) && Free(g.slots)
    ensures var e, b := Entered(g, t), g.books;
            && Resting(e, t) && e.stages == g.stages[t := Operating]
            && Atomic(e) == Atomic(g).(slots := CL.AcquireStep(LT.Abstract(g.slots), false).0)
            && e.breaker == g.breaker && e.books == b.(executed := b.executed + 1)
  {
    FullStays(LT.Abstract(g.slots), false);
    hide CL.AcquireStep;
  }

  /** From the call of the limiter on. */
  lemma EndsAcquiring(g: Shared, t: nat, contextFirst: bool, fails: bool) returns (h: Shared)
    requires Resting(g, t)
    ensures var r := ToSlots(g, t, LT.StartAcquire(t), Acquiring);
            r.Some? && Ends(r.value, t, fails, h)
    ensures var (atomic, e) := AfterBucket(Atomic(g), g.breaker.now, contextFirst, fails);
            Left(g, h, t, atomic, Settled(g.books, e))
  {
    hide CB.FailureStep, CB.SuccessStep, ToBreaker, ToSlots, Ends, Left, CL.AcquireStep, CL.ReleaseStep;
    FullStays(LT.Abstract(g.slots), contextFirst);
    if Free(g.slots) {
      var inside := Entered(g, t);
      EnteredRests(g, t);
      hide Entered;
      h := EndsOperating(inside, t, fails);
      assert inside.stages[t := Out] == g.stages[t := Out];
      LeftFrom(inside, g, h, t, AfterBucket(Atomic(g), g.breaker.now, contextFirst, fails).0,
               Settled(g.books, AfterBucket(Atomic(g), g.breaker.now, contextFirst, fails).1));
      if g.slots.sem.Some? { AcquiresSem(g, t, fails, h); } else { AcquiresPlain(g, t, fails, h); }
    } else {
      var counted := g.(books := g.books.(slotRefused := g.books.slotRefused + 1));
      h := EndsRefused(counted, t, fails);
      LeftFrom(counted, g, h, t, AfterBucket(Atomic(g), g.breaker.now, contextFirst, fails).0,
               Settled(g.books, AfterBucket(Atomic(g), g.breaker.now, contextFirst, fails).1));
      var next := SlotRefusal(g, t).value;
      if g.slots.sem.Some? { RefusedSem(g, t, fails, next, h); } else { RefusedPlain(g, t, fails, next, h); }
    }
  }

  /** What bucket, limiter and operation make of an atomic gate that the breaker let in. */
  function AfterBreaker(a: Gate.Gate, now: int, contextFirst: bool, fails: bool): (Gate.Gate, Gate.Ended) {
    var (bucket, paid) := RL.AllowStep(a.bucket, now);
    if !paid then (Gate.Gate(CB.FailureStep(a.breaker, now), bucket, a.slots), Gate.Refused(Gate.RateRefused))
    else AfterBucket(a.(bucket := bucket), now, contextFirst, fails)
  }

  function Paid2(b: Books, now: int, e: Gate.Ended): Books {
    var paid := b.(times := b.times + [now]);
    if e == Gate.Refused(Gate.RateRefused)
    then paid.(rateRefused := b.rateRefused + 1, failuresTold := b.failuresTold + 1)
    else Settled(paid, e)
  }

  lemma NotRate(a: Gate.Gate, now: int, contextFirst: bool, fails: bool)
    ensures var e := AfterBucket(a, now, contextFirst, fails).1;
            e != Gate.Refused(Gate.RateRefused) && e != Gate.Refused(Gate.BreakerRefused)
  {
    hide CL.AcquireStep;
  }

  /** From the call of the bucket on. */
  lemma EndsPaying(g: Shared, t: nat, contextFirst: bool, fails: bool) returns (h: Shared)
    requires Resting(g, t) && g.stages[t].Paying?
    ensures Ends(g, t, fails, h)
    ensures var (atomic, e) := AfterBreaker(Atomic(g), g.breaker.now, contextFirst, fails);
            Left(g, h, t, atomic, Paid2(g.books, g.breaker.now, e))
  {
    hide CB.FailureStep, ToBreaker, ToSlots, Ends, Left, RL.AllowStep, AfterBucket, Settled, BT.Apply, LT.Apply;
    var now := g.breaker.now;
    var (bucket, ok) := RL.AllowStep(g.bucket, now);
    var paid := g.(bucket := bucket, books := g.books.(times := g.books.times + [now]));
    var (atomic, e) := AfterBreaker(Atomic(g), now, contextFirst, fails);
    if ok {
      NotRate(Atomic(paid), now, contextFirst, fails);
      h := EndsAcquiring(paid, t, contextFirst, fails);
      LeftFrom(paid, g, h, t, atomic, Paid2(g.books, now, e));
      EndsNext(g, t, fails, ToSlots(paid, t, LT.StartAcquire(t), Acquiring).value, h);
    } else {
      var counted := paid.(books := paid.books.(rateRefused := paid.books.rateRefused + 1));
      h := EndsRefused(counted, t, fails);
      LeftFrom(counted, g, h, t, atomic, Paid2(g.books, now, e));
      EndsNext(g, t, fails, ToBreaker(counted, t, BT.StartFailure(t), Refused).value, h);
    }
  }

  /** The three stages in a row are the atomic call. */
  lemma StagesAreExecute(a: Gate.Gate, now: int, contextFirst: bool, fails: bool)
    ensures var (s, passed) := CB.AllowStep(a.breaker, now);
            Gate.ExecuteStep(a, Gate.Clock(now, now, now), contextFirst, fails) ==
            if !passed then (a.(breaker := s), Gate.Refused(Gate.BreakerRefused))
            else AfterBreaker(a.(breaker := s), now, contextFirst, fails)
  {
    CL.OutcomeExactly(a.slots, contextFirst);
    hide CB.AllowStep, CB.FailureStep, CB.SuccessStep, RL.AllowStep, CL.AcquireStep, CL.ReleaseStep;
  }

  lemma WrittenInStages(b: Books, now: int, e: Gate.Ended)
    requires e != Gate.Refused(Gate.BreakerRefused)
    ensures Written(b, now, e) == Paid2(b.(calls := b.calls + 1), now, e)
  {
  }

  lemma NotBreaker(a: Gate.Gate, now: int, contextFirst: bool, fails: bool)
    ensures AfterBreaker(a, now, contextFirst, fails).1 != Gate.Refused(Gate.BreakerRefused)
  {
    NotRate(a.(bucket := RL.AllowStep(a.bucket, now).0), now, contextFirst, fails);
    hide AfterBucket, RL.AllowStep;
  }

  /** Main result: an undisturbed ExecuteWithGate in the threaded gate is the atomic one.
      Whatever its ending, refused by breaker, bucket or limiter, failed or succeeded, the
      thread comes out, and breaker, bucket, limiter and books are what the atomic step
      and its ending say. */
  lemma ExecuteAlone(g: Shared, t: nat, contextFirst: bool, fails: bool) returns (h: Shared)
    requires Resting(g, t) && g.stages[t].Out?
    ensures var r := Apply(g, Execute(t)); r.Some? && Ends(r.value, t, fails, h)
    ensures var (atomic, e) := Gate.ExecuteStep(Atomic(g), Now(g), contextFirst, fails);
            Left(g, h, t, atomic, Written(g.books, g.breaker.now, e))
  {
    hide CB.AllowStep, ToBreaker, Ends, Left, AfterBreaker, Paid2, Gate.ExecuteStep, BT.Apply, LT.Apply;
    var now := g.breaker.now;
    var (s, passed) := CB.AllowStep(BT.Abstract(g.breaker), now);
    var called := g.(books := g.books.(calls := g.books.calls + 1));
    var asked := During(called, t, BT.StartAllow(t), Asking, s);
    ConfigStays(BT.Abstract(g.breaker), now);
    StagesAreExecute(Atomic(g), now, contextFirst, fails);
    var (atomic, e) := Gate.ExecuteStep(Atomic(g), Now(g), contextFirst, fails);
    if passed {
      var paying := At(asked, t, Paying);
      AskedRests(called, t, s);
      h := EndsPaying(paying, t, contextFirst, fails);
      NotBreaker(Atomic(paying), now, contextFirst, fails);
      WrittenInStages(g.books, now, e);
      assert paying.stages[t := Out] == g.stages[t := Out];
      LeftFrom(paying, g, h, t, atomic, Written(g.books, now, e));
      Asks(called, t, fails, paying, h);
    } else {
      var refused := At(asked, t, Out);
      h := refused.(books := refused.books.(breakerRefused := refused.books.breakerRefused + 1));
      RefusedRests(g, called, h, t, s);
      EndsHere(h, t, fails);
      Asks(called, t, fails, h, h);
    }
  }

  lemma AskedRests(g: Shared, t: nat, s: CB.Breaker)
    requires Resting(g, t) && s.maxFailures == g.breaker.maxFailures && s.resetTimeout == g.breaker.resetTimeout
    ensures var paying := At(During(g, t, BT.StartAllow(t), Asking, s), t, Paying);
            && Resting(paying, t) && paying.stages == g.stages[t := Paying]
            && Atomic(paying) == Atomic(g).(breaker := s) && paying.books == g.books && paying.breaker.now == g.breaker.now
  {
  }

  lemma RefusedRests(g: Shared, called: Shared, h: Shared, t: nat, s: CB.Breaker)
    requires Resting(g, t) && s.maxFailures == g.breaker.maxFailures && s.resetTimeout == g.breaker.resetTimeout
    requires called == g.(books := g.books.(calls := g.books.calls + 1))
    requires h.books == called.books.(breakerRefused := g.books.breakerRefused + 1)
    requires h == At(During(called, t, BT.StartAllow(t), Asking, s), t, Out).(books := h.books)
    ensures Left(g, h, t, Atomic(g).(breaker := s), Written(g.books, g.breaker.now, Gate.Refused(Gate.BreakerRefused)))
  {
  }

  /** The same for the other calls. */
  lemma ReleaseAlone(g: Shared, t: nat, fails: bool) returns (h: Shared)
    requires Resting(g, t) && g.stages[t].Out?
    ensures var r := Apply(g, Release(t)); r.Some? && Ends(r.value, t, fails, h)
    ensures Left(g, h, t, Gate.Step(Atomic(g), Gate.Release), g.books.(releases := g.books.releases + 1))
  {
    h := Released(g, t, Releasing);
    Releases(g, t, fails, Releasing);
    hide Ends, ToSlots;
  }

  lemma OutsideFailureAlone(g: Shared, t: nat, fails: bool) returns (h: Shared)
    requires Resting(g, t) && g.stages[t].Out?
    ensures var r := Apply(g, OutsideFailure(t)); r.Some? && Ends(r.value, t, fails, h)
    ensures var b := g.books;
            Left(g, h, t, Gate.Step(Atomic(g), Gate.OutsideFailure(g.breaker.now)),
                 b.(outsideFailures := b.outsideFailures + 1, failuresTold := b.failuresTold + 1))
  {
    hide CB.FailureStep, ToBreaker, Ends, Released, Left, BT.Apply, LT.Apply;
    var s := CB.FailureStep(BT.Abstract(g.breaker), g.breaker.now);
    var told := During(g, t, BT.StartFailure(t), OutsideFailing, s);
    h := Released(told, t, OutsideReturning);
    ConfigStays(BT.Abstract(g.breaker), g.breaker.now);
    TellsAndReleases(g, t, fails, OutsideFailing);
    ReleasedLeft(g, told, t, s, BT.StartFailure(t), OutsideFailing, OutsideReturning);
  }

  lemma OutsideSuccessAlone(g: Shared, t: nat, fails: bool) returns (h: Shared)
    requires Resting(g, t) && g.stages[t].Out?
    ensures var r := Apply(g, OutsideSuccess(t)); r.Some? && Ends(r.value, t, fails, h)
    ensures var b := g.books;
            Left(g, h, t, Gate.Step(Atomic(g), Gate.OutsideSuccess),
                 b.(outsideSuccesses := b.outsideSuccesses + 1, successesTold := b.successesTold + 1))
  {
    hide CB.SuccessStep, ToBreaker, Ends, Left, BT.Apply, LT.Apply;
    var s := CB.SuccessStep(BT.Abstract(g.breaker));
    var counted := g.(books := g.books.(outsideSuccesses := g.books.outsideSuccesses + 1));
    h := At(During(counted, t, BT.StartSuccess(t), Succeeding, s), t, Out);
    ConfigStays(BT.Abstract(g.breaker), g.breaker.now);
    TellsSuccess(counted, t, fails, h);
    ToldLeft(counted, t, BT.StartSuccess(t), Succeeding, s);
    LeftFrom(counted, g, h, t, Atomic(counted).(breaker := s), Told(counted.books, BT.StartSuccess(t)));
  }

  // ---- every quiet moment of every run ----

  /** A new threaded gate is a new gate, and every thread is at rest in it. */
  lemma StartsNew(c: Gate.Config, now: int, n: nat, t: nat)
    requires t < n
    ensures var g := Start(c, now, n);
            Atomic(g) == Gate.NewGate(c, now) && Resting(g, t) && g.stages[t] == Out
  {
  }

  lemma NobodyHolds(l: LT.Shared, t: nat)
    requires LT.Locked(l) && forall u | 0 <= u < |l.threads| :: l.threads[u] == LT.Idle
    ensures l.holder.None?
  {
  }

  lemma NobodyReads(b: BT.Shared, t: nat)
    requires BT.LockInv(b) && t < |b.threads| && forall u | 0 <= u < |b.threads| :: b.threads[u] == BT.Idle
    ensures BT.Quiet(b, t)
  {
    forall u | u in b.readers ensures u < |b.threads| && BT.HoldsRead(BT.Idle) {
      assert b.threads[u] == BT.Idle;
    }
  }

  /** In every reachable state in which nobody is on his way, every thread is at rest; so
      the lemmas above describe what any call does at any quiet moment of any run. */
  lemma {:induction false} QuietRests(c: Gate.Config, now: int, n: nat, moves: seq<Move>, t: nat)
    requires Run(Start(c, now, n), moves).Some?
    requires forall u | 0 <= u < |Run(Start(c, now, n), moves).value.stages| ::
               Run(Start(c, now, n), moves).value.stages[u] == Out
    requires t < |Run(Start(c, now, n), moves).value.stages|
    ensures Resting(Run(Start(c, now, n), moves).value, t)
  {
    var g := Run(Start(c, now, n), moves).value;
    InvStart(c, now, n);
    InvRun(Start(c, now, n), moves, RL.NewBucket(c.maxRequestsPerSecond, now), now);
    PartsAreParts(c, now, n, moves);
    hide Run, Start;
    forall u | 0 <= u < |g.stages| ensures g.breaker.threads[u] == BT.Idle && g.slots.threads[u] == LT.Idle {
      OutsideBoth(g, u);
    }
    var b0, l0 := BT.Start(c.maxFailures, c.resetTimeout, now, n), LT.Start(c.maxConnections, c.mode, c.timeout, n);
    var bm :| BT.Run(b0, bm) == Some(g.breaker);
    var lm :| LT.Run(l0, lm) == Some(g.slots);
    BT.InvRun(b0, bm);
    LT.LockedRun(l0, lm);
    NobodyHolds(g.slots, t);
    NobodyReads(g.breaker, t);
  }
}
