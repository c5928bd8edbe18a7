/** The circuit breaker of gate.go under any interleaving of any number of threads.
    One move is one lock operation, one atomic load, one atomic store or add, one
    clock test, or one passing of time. RecordSuccess loads the state before it
    locks, clears the counter without the lock when it saw closed, and never looks
    at the state again; Allow does not look again after it has locked. */
module BreakerThreads {
  import opened Wrappers
  import CB = CircuitBreaker

  type State = CB.State

  /** Where a thread stands inside a method; comments name what it does next. */
  datatype Pc =
    | Idle
    | AllowStart                                // RLock
    | AllowRead                                 // load state, holding the read lock
    | AllowReadDone(seen: State)                // RUnlock and branch
    | AllowWait                                 // Lock
    | AllowCheck                                // compare the clock with lastFailureTime
    | AllowSetState                             // store half-open
    | AllowSetCount                             // store 0
    | AllowUnlockOk                             // Unlock, return nil
    | AllowUnlockRefused                        // Unlock, return ErrCircuitOpen
    | SuccessLoad                               // load state, no lock held
    | SuccessWait                               // Lock
    | SuccessSetState                           // store closed
    | SuccessSetCount                           // store 0
    | SuccessUnlock                             // Unlock
    | SuccessClear                              // store 0, no lock held
    | FailWait                                  // Lock
    | FailLoad                                  // load state
    | FailAdd(seen: State)                      // add 1 to the counter
    | FailTime(seen: State, failures: int)      // store lastFailureTime
    | FailStore(seen: State, failures: int)     // maybe store open
    | FailUnlock                                // Unlock

  datatype Shared = Shared(
    maxFailures: int,
    resetTimeout: int,
    state: State,
    count: int,
    lastFailure: Option<int>,
    now: int,
    writer: Option<nat>,
    readers: set<nat>,
    threads: seq<Pc>)

  datatype Move = StartAllow(t: nat) | StartSuccess(t: nat) | StartFailure(t: nat) | Go(t: nat) | Tick(d: nat)

  predicate TimedOut(s: Shared) {
    s.lastFailure.None? || s.now - s.lastFailure.value > s.resetTimeout
  }

  function At(s: Shared, t: nat, pc: Pc): Shared
    requires t < |s.threads|
  {
    s.(threads := s.threads[t := pc])
  }

  /** The next state, or None when the move is not possible now. */
  function Apply(s: Shared, m: Move): Option<Shared> {
    match m
    case Tick(d) => Some(s.(now := s.now + d))
    case StartAllow(t) => if t < |s.threads| && s.threads[t] == Idle then Some(At(s, t, AllowStart)) else None
    case StartSuccess(t) => if t < |s.threads| && s.threads[t] == Idle then Some(At(s, t, SuccessLoad)) else None
    case StartFailure(t) => if t < |s.threads| && s.threads[t] == Idle then Some(At(s, t, FailWait)) else None
    case Go(t) => if t < |s.threads| then Advance(s, t) else None
  }

  function Lock(s: Shared, t: nat, pc: Pc): Option<Shared>
    requires t < |s.threads|
  {
    if s.writer.None? && s.readers == {} then Some(At(s, t, pc).(writer := Some(t))) else None
  }

  function Advance(s: Shared, t: nat): Option<Shared>
    requires t < |s.threads|
  {
    AdvanceFrom(s, t, s.threads[t])
  }

  function AdvanceFrom(s: Shared, t: nat, pc: Pc): Option<Shared>
    requires t < |s.threads|
  {
    match pc
    case Idle => None
    case AllowStart => if s.writer.None? then Some(At(s, t, AllowRead).(readers := s.readers + {t})) else None
    case AllowRead => Some(At(s, t, AllowReadDone(s.state)))
    case AllowReadDone(seen) =>
      Some(At(s, t, if seen == CB.Open then AllowWait else Idle).(readers := s.readers - {t}))
    case AllowWait => Lock(s, t, AllowCheck)
    case AllowCheck => Some(At(s, t, if TimedOut(s) then AllowSetState else AllowUnlockRefused))
    case AllowSetState => Some(At(s, t, AllowSetCount).(state := CB.HalfOpen))
    case AllowSetCount => Some(At(s, t, AllowUnlockOk).(count := 0))
    case AllowUnlockOk => Some(At(s, t, Idle).(writer := None))
    case AllowUnlockRefused => Some(At(s, t, Idle).(writer := None))
    case SuccessLoad =>
      Some(At(s, t, match s.state case HalfOpen => SuccessWait case Closed => SuccessClear case Open => Idle))
    case SuccessWait => Lock(s, t, SuccessSetState)
    case SuccessSetState => Some(At(s, t, SuccessSetCount).(state := CB.Closed))
    case SuccessSetCount => Some(At(s, t, SuccessUnlock).(count := 0))
    case SuccessUnlock => Some(At(s, t, Idle).(writer := None))
    case SuccessClear => Some(At(s, t, Idle).(count := 0))
    case FailWait => Lock(s, t, FailLoad)
    case FailLoad => Some(At(s, t, FailAdd(s.state)))
    case FailAdd(seen) => Some(At(s, t, FailTime(seen, s.count + 1)).(count := s.count + 1))
    case FailTime(seen, failures) => Some(At(s, t, FailStore(seen, failures)).(lastFailure := Some(s.now)))
    case FailStore(seen, failures) =>
      var trips := seen == CB.HalfOpen || (seen == CB.Closed && failures >= s.maxFailures);
      Some(At(s, t, FailUnlock).(state := if trips then CB.Open else s.state))
    case FailUnlock => Some(At(s, t, Idle).(writer := None))
  }

  function Run(s: Shared, moves: seq<Move>): Option<Shared>
    decreases |moves|
  {
    if moves == [] then Some(s)
    else
      match Apply(s, moves[0])
      case None => None
      case Some(next) => Run(next, moves[1..])
  }

  /** Any number of idle threads around a new breaker. */
  function Start(maxFailures: int, resetTimeout: int, now: int, n: nat): Shared {
    var b := CB.NewBreaker(maxFailures, resetTimeout);
    Shared(b.maxFailures, b.resetTimeout, b.state, b.failures, b.lastFailure, now, None, {}, seq(n, _ => Idle))
  }

  // ---- the invariant ----

  predicate HoldsLock(pc: Pc) {
    match pc
    case AllowCheck => true
    case AllowSetState => true
    case AllowSetCount => true
    case AllowUnlockOk => true
    case AllowUnlockRefused => true
    case SuccessSetState => true
    case SuccessSetCount => true
    case SuccessUnlock => true
    case FailLoad => true
    case FailAdd(_) => true
    case FailTime(_, _) => true
    case FailStore(_, _) => true
    case FailUnlock => true
    case _ => false
  }

  predicate HoldsRead(pc: Pc) {
    pc.AllowRead? || pc.AllowReadDone?
  }

  /** What the fields satisfy whenever no thread is inside a write section. */
  predicate Settled(s: Shared) {
    && (s.state == CB.Closed ==> s.count < s.maxFailures)
    && (s.state == CB.HalfOpen ==> s.count == 0)
  }

  /** What the fields satisfy while the lock is held by a thread at pc. */
  predicate Midway(s: Shared, pc: Pc) {
    match pc
    case AllowSetState => Settled(s) && TimedOut(s)
    case AllowSetCount => s.state == CB.HalfOpen && TimedOut(s)
    case AllowUnlockOk => Settled(s) && TimedOut(s) && s.state == CB.HalfOpen
    case SuccessSetCount => s.state == CB.Closed
    case FailAdd(seen) => Settled(s) && s.state == seen
    case FailTime(seen, failures) => s.state == seen && s.count <= failures && 0 < failures
    case FailStore(seen, failures) =>
      s.state == seen && s.count <= failures && 0 < failures && s.lastFailure.Some?
    case _ => Settled(s)
  }

  /** Who holds the lock: at most one write section, and no reader beside it. */
  ghost predicate LockInv(s: Shared) {
    && (forall t | 0 <= t < |s.threads| :: HoldsLock(s.threads[t]) <==> s.writer == Some(t))
    && (forall t | 0 <= t < |s.threads| :: HoldsRead(s.threads[t]) <==> t in s.readers)
    && (forall t | t in s.readers :: t < |s.threads|)
    && (s.writer.Some? ==> s.writer.value < |s.threads| && s.readers == {})
  }

  ghost predicate DataInv(s: Shared) {
    && 0 < s.maxFailures
    && 0 <= s.count
    && (if s.writer.None? then Settled(s)
        else s.writer.value < |s.threads| && Midway(s, s.threads[s.writer.value]))
  }

  ghost predicate Inv(s: Shared) {
    LockInv(s) && DataInv(s)
  }

  lemma LockStepFrom(s: Shared, t: nat, pc: Pc)
    requires LockInv(s) && t < |s.threads| && s.threads[t] == pc
    requires AdvanceFrom(s, t, pc).Some?
    ensures LockInv(AdvanceFrom(s, t, pc).value)
  {
    var s' := AdvanceFrom(s, t, pc).value;
    assert s'.threads == s.threads[t := s'.threads[t]];
    assert HoldsLock(s'.threads[t]) <==> s'.writer == Some(t);
    assert HoldsRead(s'.threads[t]) <==> t in s'.readers;
    hide AdvanceFrom, HoldsLock, HoldsRead;
  }

  lemma LockStep(s: Shared, m: Move)
    requires LockInv(s) && Apply(s, m).Some?
    ensures LockInv(Apply(s, m).value)
  {
    hide AdvanceFrom;
    if m.Go? {
      LockStepFrom(s, m.t, s.threads[m.t]);
    }
  }

  /** The thread inside the write section moves. */
  lemma HolderStep(s: Shared, t: nat, pc: Pc)
    requires DataInv(s) && s.writer == Some(t) && s.threads[t] == pc && HoldsLock(pc)
    requires AdvanceFrom(s, t, pc).Some?
    ensures DataInv(AdvanceFrom(s, t, pc).value)
  {
  }

  /** A thread outside the write section moves: it may at most take a free lock or
      store 0 into the counter. */
  lemma OutsiderStep(s: Shared, t: nat, pc: Pc)
    requires DataInv(s) && t < |s.threads| && s.writer != Some(t) && s.threads[t] == pc && !HoldsLock(pc)
    requires AdvanceFrom(s, t, pc).Some?
    ensures DataInv(AdvanceFrom(s, t, pc).value)
  {
  }

  lemma DataStep(s: Shared, m: Move)
    requires Inv(s) && Apply(s, m).Some?
    ensures DataInv(Apply(s, m).value)
  {
    if m.Go? {
      if HoldsLock(s.threads[m.t]) {
        HolderStep(s, m.t, s.threads[m.t]);
      } else {
        OutsiderStep(s, m.t, s.threads[m.t]);
      }
    }
  }

  lemma InvStep(s: Shared, m: Move)
    requires Inv(s) && Apply(s, m).Some?
    ensures Inv(Apply(s, m).value)
  {
    LockStep(s, m);
    DataStep(s, m);
  }

  lemma {:induction false} InvRun(s: Shared, moves: seq<Move>)
    requires Inv(s) && Run(s, moves).Some?
    ensures Inv(Run(s, moves).value)
    decreases |moves|
  {
    if moves != [] {
      InvStep(s, moves[0]);
      InvRun(Apply(s, moves[0]).value, moves[1..]);
    }
  }

  /** Main result: in every reachable state of every number of threads in which the
      mutex is not write-locked, closed means fewer than maxFailures counted failures
      and half-open means none. */
  lemma {:induction false} SettledWhenFree(maxFailures: int, resetTimeout: int, now: int, n: nat, moves: seq<Move>)
    requires Run(Start(maxFailures, resetTimeout, now, n), moves).Some?
    ensures var s := Run(Start(maxFailures, resetTimeout, now, n), moves).value;
            s.writer.None? ==>
              && (s.state == CB.Closed ==> 0 <= s.count < CB.NewBreaker(maxFailures, resetTimeout).maxFailures)
              && (s.state == CB.HalfOpen ==> s.count == 0)
  {
    InvRun(Start(maxFailures, resetTimeout, now, n), moves);
    ConfigFixed(Start(maxFailures, resetTimeout, now, n), moves);
  }

  lemma {:induction false} ConfigFixed(s: Shared, moves: seq<Move>)
    requires Run(s, moves).Some?
    ensures Run(s, moves).value.maxFailures == s.maxFailures
    ensures Run(s, moves).value.resetTimeout == s.resetTimeout
    decreases |moves|
  {
    if moves != [] {
      ConfigFixed(Apply(s, moves[0]).value, moves[1..]);
    }
  }

  /** The write lock excludes every other thread's write section and every reader. */
  lemma {:induction false} MutualExclusion(maxFailures: int, resetTimeout: int, now: int, n: nat, moves: seq<Move>, t: nat, u: nat)
    requires Run(Start(maxFailures, resetTimeout, now, n), moves).Some?
    requires var s := Run(Start(maxFailures, resetTimeout, now, n), moves).value;
             t < |s.threads| && u < |s.threads| && t != u && HoldsLock(s.threads[t])
    ensures var s := Run(Start(maxFailures, resetTimeout, now, n), moves).value;
            !HoldsLock(s.threads[u]) && !HoldsRead(s.threads[u])
  {
    InvRun(Start(maxFailures, resetTimeout, now, n), moves);
  }

  /** Places that a thread only gets to after the state was open or a failure was timed. */
  predicate NeedsFailure(pc: Pc) {
    || pc == AllowReadDone(CB.Open) || pc == AllowWait || pc == AllowCheck || pc == AllowSetState
    || pc == AllowSetCount || pc == AllowUnlockOk || pc.FailStore?
  }

  /** Open has never been entered, nor loaded, before a failure was timed. */
  ghost predicate Stamped(s: Shared) {
    s.lastFailure.None? ==>
      s.state != CB.Open && forall t | 0 <= t < |s.threads| :: !NeedsFailure(s.threads[t])
  }

  lemma FirstFailure(s: Shared, t: nat, pc: Pc)
    requires t < |s.threads| && s.threads[t] == pc && AdvanceFrom(s, t, pc).Some?
    ensures var next := AdvanceFrom(s, t, pc).value;
            && next.threads == s.threads[t := next.threads[t]]
            && (s.lastFailure.Some? ==> next.lastFailure.Some?)
            && (s.state != CB.Open && !NeedsFailure(pc) && next.lastFailure.None? ==>
                  next.state != CB.Open && !NeedsFailure(next.threads[t]))
  {
  }

  lemma StampedFrom(s: Shared, t: nat, pc: Pc)
    requires Stamped(s) && t < |s.threads| && s.threads[t] == pc && AdvanceFrom(s, t, pc).Some?
    ensures Stamped(AdvanceFrom(s, t, pc).value)
  {
    FirstFailure(s, t, pc);
    hide AdvanceFrom, NeedsFailure;
  }

  lemma StampedStep(s: Shared, m: Move)
    requires Stamped(s) && Apply(s, m).Some?
    ensures Stamped(Apply(s, m).value)
  {
    if m.Go? {
      hide AdvanceFrom;
      StampedFrom(s, m.t, s.threads[m.t]);
    }
  }

  lemma {:induction false} StampedRun(s: Shared, moves: seq<Move>)
    requires Stamped(s) && Run(s, moves).Some?
    ensures Stamped(Run(s, moves).value)
    decreases |moves|
  {
    if moves != [] {
      StampedStep(s, moves[0]);
      hide Apply, Stamped;
      StampedRun(Apply(s, moves[0]).value, moves[1..]);
    }
  }

  /** Main result: a thread that saw open and is about to return nil from Allow does
      so strictly more than resetTimeout after the latest recorded failure, of which
      there has been one. */
  lemma {:induction false} AdmittedAfterTimeout(maxFailures: int, resetTimeout: int, now: int, n: nat, moves: seq<Move>, t: nat)
    requires Run(Start(maxFailures, resetTimeout, now, n), moves).Some?
    requires var s := Run(Start(maxFailures, resetTimeout, now, n), moves).value;
             t < |s.threads| && s.threads[t] == AllowUnlockOk
    ensures var s := Run(Start(maxFailures, resetTimeout, now, n), moves).value;
            && s.lastFailure.Some?
            && s.now > s.lastFailure.value + CB.NewBreaker(maxFailures, resetTimeout).resetTimeout
  {
    InvRun(Start(maxFailures, resetTimeout, now, n), moves);
    StampedRun(Start(maxFailures, resetTimeout, now, n), moves);
    ConfigFixed(Start(maxFailures, resetTimeout, now, n), moves);
  }

  // ---- which move changes the state, and stale loads ----

  /** The state changes exactly at the three stores; open is entered only by the
      store of RecordFailure. */
  lemma StateChanges(s: Shared, m: Move)
    requires Apply(s, m).Some? && Apply(s, m).value.state != s.state
    ensures m.Go?
    ensures Apply(s, m).value.state == CB.Open ==> s.threads[m.t].FailStore?
    ensures Apply(s, m).value.state == CB.Closed ==> s.threads[m.t] == SuccessSetState
    ensures Apply(s, m).value.state == CB.HalfOpen ==> s.threads[m.t] == AllowSetState
  {
  }

  /** The store that enters a state. */
  predicate Stores(pc: Pc, to: State) {
    match to
    case Open => pc.FailStore?
    case Closed => pc == SuccessSetState
    case HalfOpen => pc == AllowSetState
  }

  /** A thread that has loaded this state, acts on it and has not stored yet. */
  predicate Saw(pc: Pc, seen: State) {
    match seen
    case HalfOpen => pc == SuccessWait || pc == SuccessSetState
    case Open => pc == AllowReadDone(CB.Open) || pc == AllowWait || pc == AllowCheck || pc == AllowSetState
    case Closed => false
  }

  /** Move i of the run is thread t's load of the state, and it loads `seen`. */
  ghost predicate LoadsAt(s0: Shared, moves: seq<Move>, t: nat, i: nat, seen: State) {
    && i < |moves| && moves[i] == Go(t)
    && var s := Run(s0, moves[..i]);
       && s.Some? && t < |s.value.threads| && s.value.state == seen
       && (s.value.threads[t] == SuccessLoad || s.value.threads[t] == AllowRead)
  }

  /** Move j of the run is thread u's store that takes the breaker into `to`. */
  ghost predicate EntersAt(s0: Shared, moves: seq<Move>, u: nat, j: nat, to: State) {
    && j < |moves| && moves[j] == Go(u)
    && var s, next := Run(s0, moves[..j]), Run(s0, moves[..j + 1]);
       && s.Some? && next.Some? && u < |s.value.threads|
       && s.value.state != to && next.value.state == to && Stores(s.value.threads[u], to)
  }

  /** The thread's own move. */
  lemma SawOwn(s: Shared, t: nat, pc: Pc, seen: State)
    requires t < |s.threads| && s.threads[t] == pc && AdvanceFrom(s, t, pc).Some?
    requires Saw(AdvanceFrom(s, t, pc).value.threads[t], seen)
    ensures var next := AdvanceFrom(s, t, pc).value;
            if Saw(pc, seen) then next.state == s.state
            else (pc == SuccessLoad || pc == AllowRead) && s.state == next.state == seen
  {
  }

  /** A move of another thread leaves this one where it was. */
  lemma OthersMove(s: Shared, m: Move, t: nat)
    requires Apply(s, m).Some? && t < |s.threads| && (m.Tick? || m.t != t)
    ensures Apply(s, m).value.threads[t] == s.threads[t]
  {
  }

  lemma SawStep(s: Shared, m: Move, t: nat, seen: State)
    requires Apply(s, m).Some? && t < |s.threads| && Saw(Apply(s, m).value.threads[t], seen)
    ensures var next := Apply(s, m).value;
            if Saw(s.threads[t], seen)
            then next.state != s.state ==> m.Go? && m.t != t && Stores(s.threads[m.t], next.state)
            else m == Go(t) && (s.threads[t] == SuccessLoad || s.threads[t] == AllowRead) && s.state == next.state == seen
  {
    if m.Tick? || m.t != t {
      OthersMove(s, m, t);
      if Apply(s, m).value.state != s.state {
        StateChanges(s, m);
      }
      hide Apply, Saw;
    } else if m.Go? {
      hide AdvanceFrom, Saw;
      SawOwn(s, t, s.threads[t], seen);
    }
  }

  lemma {:induction false} RunLast(s: Shared, moves: seq<Move>)
    requires moves != [] && Run(s, moves).Some?
    ensures Run(s, moves[..|moves| - 1]).Some?
    ensures Apply(Run(s, moves[..|moves| - 1]).value, moves[|moves| - 1]) == Run(s, moves)
    decreases |moves|
  {
    hide Apply;
    if |moves| > 1 {
      RunLast(Apply(s, moves[0]).value, moves[1..]);
      assert moves[1..][..|moves| - 2] == moves[..|moves| - 1][1..];
    }
  }

  /** Thread t has made no load of the state after move i. */
  ghost predicate LastLoad(s0: Shared, moves: seq<Move>, t: nat, i: nat) {
    forall k: nat, seen: State :: LoadsAt(s0, moves, t, k, seen) ==> k <= i
  }

  /** Nobody has taken the breaker from one state into another after move j. */
  ghost predicate LastEntry(s0: Shared, moves: seq<Move>, j: nat) {
    forall u: nat, k: nat, to: State :: EntersAt(s0, moves, u, k, to) ==> k <= j
  }

  /** The race: t's last load, at i, read `seen`; and the last move into another state
      came later, at j, was another thread's, and went to `to`. */
  ghost predicate Race(s0: Shared, moves: seq<Move>, t: nat, seen: State, to: State, i: nat, j: nat, u: nat) {
    && LoadsAt(s0, moves, t, i, seen) && LastLoad(s0, moves, t, i)
    && i < j && u != t
    && EntersAt(s0, moves, u, j, to) && LastEntry(s0, moves, j)
  }

  /** What one more move changes about loads and entries. */
  lemma LoadsAppend(s0: Shared, moves: seq<Move>, m: Move, t: nat, i: nat, seen: State)
    requires Run(s0, moves).Some?
    ensures LoadsAt(s0, moves + [m], t, i, seen) <==>
            LoadsAt(s0, moves, t, i, seen) ||
            (i == |moves| && m == Go(t) && IsLoad(Run(s0, moves).value, t, seen))
  {
    if i < |moves| {
      assert (moves + [m])[..i] == moves[..i];
    } else if i == |moves| {
      assert (moves + [m])[..i] == moves;
    }
  }

  predicate IsLoad(s: Shared, t: nat, seen: State) {
    t < |s.threads| && s.state == seen && (s.threads[t] == SuccessLoad || s.threads[t] == AllowRead)
  }

  predicate IsEntry(s: Shared, next: Shared, u: nat, to: State) {
    u < |s.threads| && s.state != to && next.state == to && Stores(s.threads[u], to)
  }

  lemma EntersAppend(s0: Shared, moves: seq<Move>, m: Move, u: nat, j: nat, to: State)
    requires Run(s0, moves).Some? && Run(s0, moves + [m]).Some?
    ensures EntersAt(s0, moves + [m], u, j, to) <==>
            EntersAt(s0, moves, u, j, to) ||
            (j == |moves| && m == Go(u) && IsEntry(Run(s0, moves).value, Run(s0, moves + [m]).value, u, to))
  {
    var longer := moves + [m];
    if j < |moves| {
      assert longer[..j] == moves[..j] && longer[..j + 1] == moves[..j + 1];
    } else if j == |moves| {
      assert longer[..j] == moves && longer[..j + 1] == longer;
    }
  }

  lemma ThreadsFixed(s: Shared, m: Move)
    requires Apply(s, m).Some?
    ensures |Apply(s, m).value.threads| == |s.threads|
  {
  }

  lemma ThreadsGo(s: Shared, m: Move)
    requires Apply(s, m).Some? && m.Go?
    ensures m.t < |s.threads|
  {
  }

  lemma SameLoads(s0: Shared, moves: seq<Move>, m: Move, t: nat, i: nat, seen: State)
    requires Run(s0, moves).Some? && forall other :: !IsLoad(Run(s0, moves).value, t, other)
    requires LoadsAt(s0, moves, t, i, seen) && LastLoad(s0, moves, t, i)
    ensures LoadsAt(s0, moves + [m], t, i, seen) && LastLoad(s0, moves + [m], t, i)
  {
    hide Run, IsLoad, LoadsAt;
    forall k: nat, other: State ensures LoadsAt(s0, moves + [m], t, k, other) <==> LoadsAt(s0, moves, t, k, other) {
      LoadsAppend(s0, moves, m, t, k, other);
    }
  }

  lemma SameEntries(s0: Shared, moves: seq<Move>, m: Move)
    requires Run(s0, moves).Some? && Run(s0, moves + [m]).Some?
    requires Run(s0, moves).value.state == Run(s0, moves + [m]).value.state
    ensures forall u: nat, j: nat, to: State :: EntersAt(s0, moves + [m], u, j, to) <==> EntersAt(s0, moves, u, j, to)
  {
    var s, next := Run(s0, moves).value, Run(s0, moves + [m]).value;
    assert forall u, to :: !IsEntry(s, next, u, to);
    hide Run, IsEntry, EntersAt;
    forall u: nat, j: nat, to: State ensures EntersAt(s0, moves + [m], u, j, to) <==> EntersAt(s0, moves, u, j, to) {
      EntersAppend(s0, moves, m, u, j, to);
    }
  }

  /** A move that changes the state is the last entry so far. */
  lemma NewEntry(s0: Shared, moves: seq<Move>, m: Move)
    requires Run(s0, moves).Some? && Run(s0, moves + [m]).Some?
    requires Run(s0, moves + [m]) == Apply(Run(s0, moves).value, m)
    requires Run(s0, moves).value.state != Run(s0, moves + [m]).value.state
    ensures m.Go? && EntersAt(s0, moves + [m], m.t, |moves|, Run(s0, moves + [m]).value.state)
    ensures LastEntry(s0, moves + [m], |moves|)
  {
    var s, next := Run(s0, moves).value, Run(s0, moves + [m]).value;
    StateChanges(s, m);
    ThreadsGo(s, m);
    assert IsEntry(s, next, m.t, next.state);
    EntersAppend(s0, moves, m, m.t, |moves|, next.state);
    hide Run, Apply, Stores;
  }

  /** A thread acting on a state it has loaded did load it at some move, and if the
      state is another one by now, there is a race. */
  lemma {:induction false} RaceOf(s0: Shared, moves: seq<Move>, t: nat, seen: State) returns (i: nat, j: nat, u: nat)
    requires forall k | 0 <= k < |s0.threads| :: s0.threads[k] == Idle
    requires Run(s0, moves).Some? && t < |Run(s0, moves).value.threads| && Saw(Run(s0, moves).value.threads[t], seen)
    ensures LoadsAt(s0, moves, t, i, seen) && LastLoad(s0, moves, t, i)
    ensures Run(s0, moves).value.state != seen ==> Race(s0, moves, t, seen, Run(s0, moves).value.state, i, j, u)
    decreases |moves|
  {
    i, j, u := 0, 0, 0;
    if moves != [] {
      var before, m := moves[..|moves| - 1], moves[|moves| - 1];
      RunLast(s0, moves);
      assert before + [m] == moves;
      var s, next := Run(s0, before).value, Run(s0, moves).value;
      ThreadsFixed(s, m);
      SawStep(s, m, t, seen);
      if Saw(s.threads[t], seen) {
        assert forall other :: !IsLoad(s, t, other);
        hide Run, Apply, Saw, Stores, IsLoad;
        i, j, u := RaceOf(s0, before, t, seen);
        SameLoads(s0, before, m, t, i, seen);
        if next.state != s.state {
          NewEntry(s0, before, m);
          j, u := |before|, m.t;
        } else {
          SameEntries(s0, before, m);
        }
      } else {
        i := |before|;
        LoadsAppend(s0, before, m, t, i, seen);
        hide Run, Apply, Saw, Stores;
      }
    }
  }

  /** The state that was entered last is still the state. */
  lemma {:induction false} EntryStays(s0: Shared, moves: seq<Move>, u: nat, j: nat, to: State)
    requires Run(s0, moves).Some? && EntersAt(s0, moves, u, j, to) && LastEntry(s0, moves, j)
    ensures Run(s0, moves).value.state == to
    decreases |moves|
  {
    var before, m := moves[..|moves| - 1], moves[|moves| - 1];
    RunLast(s0, moves);
    assert before + [m] == moves;
    hide Apply, Stores;
    if j == |before| {
      assert moves[..j + 1] == moves;
    } else if Run(s0, before).value.state != Run(s0, moves).value.state {
      NewEntry(s0, before, m);
      hide EntersAt;
    } else {
      hide EntersAt;
      SameEntries(s0, before, m);
      EntryStays(s0, before, u, j, to);
    }
  }

  /** The thread is about to store closed in RecordSuccess, or half-open in Allow. */
  predicate AboutToStore(s: Shared, t: nat) {
    t < |s.threads| && (s.threads[t] == SuccessSetState || s.threads[t] == AllowSetState)
  }

  /** The move takes the breaker from open straight to closed, or from closed to
      half-open: what atomic methods never do. */
  predicate Stale(s: Shared, next: Shared) {
    (s.state == CB.Open && next.state == CB.Closed) || (s.state == CB.Closed && next.state == CB.HalfOpen)
  }

  /** The store that thread t is about to make has been overtaken. */
  ghost predicate Overtaken(s0: Shared, moves: seq<Move>, t: nat, i: nat, j: nat, u: nat) {
    var s := Run(s0, moves);
    s.Some? && AboutToStore(s.value, t) &&
    if s.value.threads[t] == SuccessSetState
    then Race(s0, moves, t, CB.HalfOpen, CB.Open, i, j, u)
    else Race(s0, moves, t, CB.Open, CB.Closed, i, j, u)
  }

  lemma StoresNow(s: Shared, m: Move)
    requires Apply(s, m).Some?
    ensures Stale(s, Apply(s, m).value) <==>
            m.Go? && AboutToStore(s, m.t) && s.state == (if s.threads[m.t] == SuccessSetState then CB.Open else CB.Closed)
  {
    if m.Go? {
      ThreadsGo(s, m);
    }
    if Apply(s, m).value.state != s.state {
      StateChanges(s, m);
    }
  }

  lemma RaceEntry(s0: Shared, moves: seq<Move>, t: nat, i: nat, j: nat, u: nat)
    requires Overtaken(s0, moves, t, i, j, u)
    ensures var s := Run(s0, moves).value;
            s.state == if s.threads[t] == SuccessSetState then CB.Open else CB.Closed
  {
    var s := Run(s0, moves).value;
    hide Run;
    EntryStays(s0, moves, u, j, if s.threads[t] == SuccessSetState then CB.Open else CB.Closed);
  }

  /** Main result: under any interleaving, a move takes open straight to closed, or
      closed to half-open, if and only if it is the store of a RecordSuccess or Allow
      that has been overtaken: the thread's last load, at a move i, read half-open or
      open; and the last change of state since the beginning came after it, at a move
      j, and was another thread's store of the state now overwritten. */
  lemma {:induction false} StaleExactly(maxFailures: int, resetTimeout: int, now: int, n: nat, moves: seq<Move>, m: Move)
    requires Run(Start(maxFailures, resetTimeout, now, n), moves).Some?
    requires Apply(Run(Start(maxFailures, resetTimeout, now, n), moves).value, m).Some?
    ensures var s0 := Start(maxFailures, resetTimeout, now, n);
            var s := Run(s0, moves).value;
            Stale(s, Apply(s, m).value) <==> m.Go? && exists i: nat, j: nat, u: nat :: Overtaken(s0, moves, m.t, i, j, u)
  {
    var s0 := Start(maxFailures, resetTimeout, now, n);
    var s := Run(s0, moves).value;
    StoresNow(s, m);
    if Stale(s, Apply(s, m).value) {
      hide Apply, Run;
      var seen := if s.state == CB.Open then CB.HalfOpen else CB.Open;
      var i, j, u := RaceOf(s0, moves, m.t, seen);
      assert Overtaken(s0, moves, m.t, i, j, u);
    }
    hide Apply, Run, Race;
    if m.Go? && exists i: nat, j: nat, u: nat :: Overtaken(s0, moves, m.t, i, j, u) {
      var i: nat, j: nat, u: nat :| Overtaken(s0, moves, m.t, i, j, u);
      RaceEntry(s0, moves, m.t, i, j, u);
    }
  }

  // ---- one thread alone behaves like the atomic breaker ----

  function Abstract(s: Shared): CB.Breaker {
    CB.Breaker(s.maxFailures, s.resetTimeout, s.state, s.count, s.lastFailure)
  }

  predicate Quiet(s: Shared, t: nat) {
    s.writer.None? && s.readers == {} && t < |s.threads| && s.threads[t] == Idle
  }

  function Alone(t: nat, start: Move, k: nat): seq<Move> {
    [start] + seq(k, _ => Go(t))
  }

  lemma {:induction false} RunSplit(s: Shared, first: seq<Move>, rest: seq<Move>)
    requires Run(s, first).Some?
    ensures Run(s, first + rest) == Run(Run(s, first).value, rest)
    decreases |first|
  {
    if first == [] {
      assert first + rest == rest;
    } else {
      RunSplit(Apply(s, first[0]).value, first[1..], rest);
      assert (first + rest)[1..] == first[1..] + rest;
    }
  }

  /** k moves of one thread in a row. */
  function GoTimes(s: Shared, t: nat, k: nat): Option<Shared>
    requires t < |s.threads|
    decreases k
  {
    if k == 0 then Some(s)
    else
      match Advance(s, t)
      case None => None
      case Some(next) => GoTimes(next, t, k - 1)
  }

  lemma {:induction false} GoTimesRuns(s: Shared, t: nat, k: nat)
    requires t < |s.threads|
    ensures Run(s, seq(k, _ => Go(t))) == GoTimes(s, t, k)
    decreases k
  {
    if k > 0 && Advance(s, t).Some? {
      GoTimesRuns(Advance(s, t).value, t, k - 1);
      assert seq(k, _ => Go(t))[1..] == seq(k - 1, _ => Go(t));
    }
  }

  lemma AloneRuns(s: Shared, t: nat, start: Move, k: nat)
    requires t < |s.threads| && Apply(s, start).Some?
    ensures Run(s, Alone(t, start, k)) == GoTimes(Apply(s, start).value, t, k)
  {
    assert Alone(t, start, k)[1..] == seq(k, _ => Go(t));
    GoTimesRuns(Apply(s, start).value, t, k);
  }

  /** One move of the row, by the rule for the thread's present place. */
  lemma OneGo(s: Shared, t: nat, k: nat, pc: Pc, next: Shared)
    requires t < |s.threads| && k > 0 && s.threads[t] == pc && AdvanceFrom(s, t, pc) == Some(next)
    ensures GoTimes(s, t, k) == GoTimes(next, t, k - 1)
  {
  }

  lemma GoNone(s: Shared, t: nat)
    requires t < |s.threads|
    ensures GoTimes(s, t, 0) == Some(s)
  {
  }

  /** RecordSuccess after having seen half-open. */
  lemma ClosePhase(s: Shared, t: nat)
    requires Quiet(s, t) && s.state == CB.HalfOpen
    ensures GoTimes(At(s, t, SuccessLoad), t, 5) == Some(s.(state := CB.Closed, count := 0))
  {
    hide GoTimes;
    var s1 := At(s, t, SuccessLoad);
    var s2 := At(s1, t, SuccessWait);
    var s3 := At(s2, t, SuccessSetState).(writer := Some(t));
    var s4 := At(s3, t, SuccessSetCount).(state := CB.Closed);
    var s5 := At(s4, t, SuccessUnlock).(count := 0);
    var s6 := At(s5, t, Idle).(writer := None);
    OneGo(s1, t, 5, SuccessLoad, s2);
    OneGo(s2, t, 4, SuccessWait, s3);
    OneGo(s3, t, 3, SuccessSetState, s4);
    OneGo(s4, t, 2, SuccessSetCount, s5);
    OneGo(s5, t, 1, SuccessUnlock, s6);
    GoNone(s6, t);
    assert s6.threads == s.threads;
  }

  /** The moves of RecordSuccess with nobody in between are the atomic step. */
  lemma SuccessAlone(s: Shared, t: nat)
    requires Quiet(s, t)
    ensures var k := match s.state case HalfOpen => 5 case Closed => 2 case Open => 1;
            var r := Run(s, Alone(t, StartSuccess(t), k));
            && r.Some? && Quiet(r.value, t)
            && Abstract(r.value) == CB.SuccessStep(Abstract(s))
            && r.value == s.(state := r.value.state, count := r.value.count)
  {
    hide GoTimes;
    var k := match s.state case HalfOpen => 5 case Closed => 2 case Open => 1;
    AloneRuns(s, t, StartSuccess(t), k);
    var s1 := At(s, t, SuccessLoad);
    if s.state == CB.HalfOpen {
      ClosePhase(s, t);
    } else if s.state == CB.Closed {
      var s2 := At(s1, t, SuccessClear);
      var s3 := At(s2, t, Idle).(count := 0);
      OneGo(s1, t, 2, SuccessLoad, s2);
      OneGo(s2, t, 1, SuccessClear, s3);
      GoNone(s3, t);
      assert s3.threads == s.threads;
    } else {
      var s2 := At(s1, t, Idle);
      OneGo(s1, t, 1, SuccessLoad, s2);
      GoNone(s2, t);
      assert s2.threads == s.threads;
    }
  }

  /** Allow, up to the load of the state and the release of the read lock. */
  lemma ReadPhase(s: Shared, t: nat)
    requires Quiet(s, t)
    ensures GoTimes(At(s, t, AllowStart), t, 3) == Some(At(s, t, if s.state == CB.Open then AllowWait else Idle))
  {
    var s1 := At(s, t, AllowStart);
    var s2 := Advance(s1, t).value;
    var s3 := Advance(s2, t).value;
    var s4 := Advance(s3, t).value;
    assert GoTimes(s1, t, 3) == GoTimes(s2, t, 2) == GoTimes(s3, t, 1) == Some(s4);
    assert s4.readers == s.readers;
    assert s4.threads == At(s, t, if s.state == CB.Open then AllowWait else Idle).threads;
  }

  /** Allow, from the write lock on, after having seen open. */
  lemma LockPhase(s: Shared, t: nat)
    requires Quiet(s, t) && s.state == CB.Open
    ensures var k := if TimedOut(s) then 5 else 3;
            var r := GoTimes(At(s, t, AllowWait), t, k);
            && r.Some? && Quiet(r.value, t)
            && Abstract(r.value) == CB.AllowStep(Abstract(s), s.now).0
            && r.value == s.(state := r.value.state, count := r.value.count)
  {
    var k := if TimedOut(s) then 5 else 3;
    var s1 := At(s, t, AllowWait);
    var s2 := Advance(s1, t).value;
    var s3 := Advance(s2, t).value;
    var s4 := Advance(s3, t).value;
    assert GoTimes(s1, t, k) == GoTimes(s2, t, k - 1) == GoTimes(s3, t, k - 2) == GoTimes(s4, t, k - 3);
    if TimedOut(s) {
      var s5 := Advance(s4, t).value;
      assert GoTimes(s4, t, 2) == GoTimes(s5, t, 1);
      assert Advance(s5, t).value.threads == s.threads;
    } else {
      assert s4.threads == s.threads;
    }
  }

  /** Before its last move an undisturbed Allow stands at the refusing unlock exactly
      when the atomic one refuses. */
  lemma AllowAnswer(s: Shared, t: nat)
    requires Quiet(s, t)
    ensures var k := if s.state != CB.Open then 3 else if TimedOut(s) then 8 else 6;
            var r := GoTimes(At(s, t, AllowStart), t, k - 1);
            && r.Some? && t < |r.value.threads|
            && (r.value.threads[t] == AllowUnlockRefused <==> !CB.AllowStep(Abstract(s), s.now).1)
  {
    var s1 := At(s, t, AllowStart);
    var s2 := At(s1, t, AllowRead).(readers := s.readers + {t});
    var s3 := At(s2, t, AllowReadDone(s.state));
    if s.state != CB.Open {
      hide GoTimes;
      OneGo(s1, t, 2, AllowStart, s2);
      OneGo(s2, t, 1, AllowRead, s3);
      GoNone(s3, t);
    } else {
      ReadPhase(s, t);
      LockAnswer(s, t);
      hide GoTimes;
      GoTimesSplit(s1, t, 3, if TimedOut(s) then 4 else 2);
    }
  }

  lemma LockAnswer(s: Shared, t: nat)
    requires Quiet(s, t) && s.state == CB.Open
    ensures var r := GoTimes(At(s, t, AllowWait), t, if TimedOut(s) then 4 else 2);
            && r.Some? && t < |r.value.threads|
            && r.value.threads[t] == if TimedOut(s) then AllowUnlockOk else AllowUnlockRefused
  {
    hide GoTimes;
    var s1 := At(s, t, AllowWait);
    var s2 := At(s1, t, AllowCheck).(writer := Some(t));
    if TimedOut(s) {
      var s3 := At(s2, t, AllowSetState);
      var s4 := At(s3, t, AllowSetCount).(state := CB.HalfOpen);
      var s5 := At(s4, t, AllowUnlockOk).(count := 0);
      OneGo(s1, t, 4, AllowWait, s2);
      OneGo(s2, t, 3, AllowCheck, s3);
      OneGo(s3, t, 2, AllowSetState, s4);
      OneGo(s4, t, 1, AllowSetCount, s5);
      GoNone(s5, t);
    } else {
      var s3 := At(s2, t, AllowUnlockRefused);
      OneGo(s1, t, 2, AllowWait, s2);
      OneGo(s2, t, 1, AllowCheck, s3);
      GoNone(s3, t);
    }
  }

  lemma AdvanceKeeps(s: Shared, t: nat)
    requires t < |s.threads|
    ensures Advance(s, t).Some? ==> t < |Advance(s, t).value.threads|
  {
  }

  lemma {:induction false} GoTimesSplit(s: Shared, t: nat, j: nat, k: nat)
    requires t < |s.threads| && GoTimes(s, t, j).Some?
    ensures t < |GoTimes(s, t, j).value.threads|
    ensures GoTimes(s, t, j + k) == GoTimes(GoTimes(s, t, j).value, t, k)
    decreases j
  {
    hide Advance;
    if j > 0 {
      AdvanceKeeps(s, t);
      GoTimesSplit(Advance(s, t).value, t, j - 1, k);
    }
  }

  /** RecordFailure, from the lock to the add on the counter. */
  lemma CountPhase(s: Shared, t: nat)
    requires Quiet(s, t)
    ensures GoTimes(At(s, t, FailWait), t, 3) ==
            Some(At(s, t, FailTime(s.state, s.count + 1)).(count := s.count + 1, writer := Some(t)))
  {
    hide GoTimes;
    var s1 := At(s, t, FailWait);
    var s2 := At(s1, t, FailLoad).(writer := Some(t));
    var s3 := At(s2, t, FailAdd(s.state));
    var s4 := At(s3, t, FailTime(s.state, s.count + 1)).(count := s.count + 1);
    OneGo(s1, t, 3, FailWait, s2);
    OneGo(s2, t, 2, FailLoad, s3);
    OneGo(s3, t, 1, FailAdd(s.state), s4);
    GoNone(s4, t);
    assert s4.threads == At(s, t, FailTime(s.state, s.count + 1)).threads;
  }

  /** RecordFailure, from the time stamp to the unlock. */
  lemma TripPhase(s: Shared, t: nat)
    requires Quiet(s, t)
    ensures GoTimes(At(s, t, FailTime(s.state, s.count + 1)).(count := s.count + 1, writer := Some(t)), t, 3) ==
            Some(s.(state := CB.FailureStep(Abstract(s), s.now).state, count := s.count + 1, lastFailure := Some(s.now)))
  {
    hide GoTimes;
    var s4 := At(s, t, FailTime(s.state, s.count + 1)).(count := s.count + 1, writer := Some(t));
    var s5 := At(s4, t, FailStore(s.state, s.count + 1)).(lastFailure := Some(s.now));
    var s6 := At(s5, t, FailUnlock).(state := CB.FailureStep(Abstract(s), s.now).state);
    var s7 := At(s6, t, Idle).(writer := None);
    OneGo(s4, t, 3, FailTime(s.state, s.count + 1), s5);
    OneGo(s5, t, 2, FailStore(s.state, s.count + 1), s6);
    OneGo(s6, t, 1, FailUnlock, s7);
    GoNone(s7, t);
    assert s7.threads == s.threads;
  }

  /** Seven moves of RecordFailure with nobody in between are the atomic step. */
  lemma FailureAlone(s: Shared, t: nat)
    requires Quiet(s, t)
    ensures var r := Run(s, Alone(t, StartFailure(t), 6));
            && r.Some? && Quiet(r.value, t)
            && Abstract(r.value) == CB.FailureStep(Abstract(s), s.now)
            && r.value == s.(state := r.value.state, count := r.value.count, lastFailure := r.value.lastFailure)
  {
    hide Advance, GoTimes;
    AloneRuns(s, t, StartFailure(t), 6);
    CountPhase(s, t);
    TripPhase(s, t);
    GoTimesSplit(At(s, t, FailWait), t, 3, 3);
  }

  /** The moves of Allow with nobody in between are the atomic step. */
  lemma AllowAlone(s: Shared, t: nat)
    requires Quiet(s, t)
    ensures var k := if s.state != CB.Open then 3 else if TimedOut(s) then 8 else 6;
            var r := Run(s, Alone(t, StartAllow(t), k));
            && r.Some? && Quiet(r.value, t)
            && Abstract(r.value) == CB.AllowStep(Abstract(s), s.now).0
            && r.value == s.(state := r.value.state, count := r.value.count)
  {
    hide Advance;
    var k := if s.state != CB.Open then 3 else if TimedOut(s) then 8 else 6;
    AloneRuns(s, t, StartAllow(t), k);
    ReadPhase(s, t);
    if s.state == CB.Open {
      LockPhase(s, t);
      GoTimesSplit(At(s, t, AllowStart), t, 3, k - 3);
    } else {
      assert At(s, t, Idle).threads == s.threads;
    }
  }

  // ---- the stale transitions are reachable ----

  ghost predicate Reaches(a: Shared, b: Shared) {
    exists moves :: Run(a, moves) == Some(b)
  }

  lemma ReachesMore(a: Shared, b: Shared, moves: seq<Move>)
    requires Reaches(a, b) && Run(b, moves).Some?
    ensures Reaches(a, Run(b, moves).value)
  {
    var first :| Run(a, first) == Some(b);
    RunSplit(a, first, moves);
  }

  lemma ReachesNext(a: Shared, b: Shared, m: Move)
    requires Reaches(a, b) && Apply(b, m).Some?
    ensures Reaches(a, Apply(b, m).value)
  {
    assert [m][1..] == [];
    assert Run(b, [m]) == Apply(b, m);
    ReachesMore(a, b, [m]);
  }

  /** Thread 0 trips a breaker with threshold 1, and the timeout passes. */
  lemma TripAndWait(resetTimeout: nat, now: int) returns (s: Shared)
    requires resetTimeout > 0
    ensures Reaches(Start(1, resetTimeout, now, 2), s)
    ensures s == Start(1, resetTimeout, now + resetTimeout + 1, 2).(state := CB.Open, count := 1, lastFailure := Some(now))
  {
    hide Run, Alone;
    var s0 := Start(1, resetTimeout, now, 2);
    FailureAlone(s0, 0);
    s := Run(s0, Alone(0, StartFailure(0), 6)).value;
    ReachesNext(s0, s, Tick(resetTimeout + 1));
    s := Apply(s, Tick(resetTimeout + 1)).value;
  }

  /** And then thread 0 probes. */
  lemma TripAndProbe(resetTimeout: nat, now: int) returns (s: Shared)
    requires resetTimeout > 0
    ensures Reaches(Start(1, resetTimeout, now, 2), s)
    ensures s == Start(1, resetTimeout, now + resetTimeout + 1, 2).(state := CB.HalfOpen, count := 0, lastFailure := Some(now))
  {
    hide Run, Alone, Reaches;
    s := TripAndWait(resetTimeout, now);
    AllowAlone(s, 0);
    ReachesMore(Start(1, resetTimeout, now, 2), s, Alone(0, StartAllow(0), 8));
    s := Run(s, Alone(0, StartAllow(0), 8)).value;
  }

  /** Thread 1 loads half-open in RecordSuccess, thread 0 then records a failure that
      opens the breaker, and thread 1's store takes open straight to closed. */
  lemma StaleSuccessReachable(resetTimeout: nat, now: int) returns (s: Shared)
    requires resetTimeout > 0
    ensures Reaches(Start(1, resetTimeout, now, 2), s)
    ensures s.state == CB.Open
    ensures Apply(s, Go(1)).Some? && Apply(s, Go(1)).value.state == CB.Closed
  {
    hide Run, Alone, Reaches;
    var s0 := Start(1, resetTimeout, now, 2);
    s := TripAndProbe(resetTimeout, now);
    ReachesNext(s0, s, StartSuccess(1));
    s := At(s, 1, SuccessLoad);
    ReachesNext(s0, s, Go(1));
    s := At(s, 1, SuccessWait);
    assert s.threads[0] == Idle;
    FailureAlone(s, 0);
    ReachesMore(s0, s, Alone(0, StartFailure(0), 6));
    s := Run(s, Alone(0, StartFailure(0), 6)).value;
    ReachesNext(s0, s, Go(1));
    s := At(s, 1, SuccessSetState).(writer := Some(1));
  }

  /** Thread 1 loads open in Allow, thread 0 then probes and closes the breaker, and
      thread 1's store takes closed to half-open. */
  lemma StaleAllowReachable(resetTimeout: nat, now: int) returns (s: Shared)
    requires resetTimeout > 0
    ensures Reaches(Start(1, resetTimeout, now, 2), s)
    ensures s.state == CB.Closed
    ensures Apply(s, Go(1)).Some? && Apply(s, Go(1)).value.state == CB.HalfOpen
  {
    hide Run, Alone, Reaches, Midway, GoTimes;
    var s0 := Start(1, resetTimeout, now, 2);
    s := TripAndWait(resetTimeout, now);
    AloneRuns(s, 1, StartAllow(1), 3);
    ReadPhase(s, 1);
    ReachesMore(s0, s, Alone(1, StartAllow(1), 3));
    s := At(s, 1, AllowWait);
    assert s.threads[0] == Idle;
    AllowAlone(s, 0);
    ReachesMore(s0, s, Alone(0, StartAllow(0), 8));
    s := Run(s, Alone(0, StartAllow(0), 8)).value;
    SuccessAlone(s, 0);
    ReachesMore(s0, s, Alone(0, StartSuccess(0), 5));
    s := Run(s, Alone(0, StartSuccess(0), 5)).value;
    ReachesNext(s0, s, Go(1));
    s := At(s, 1, AllowCheck).(writer := Some(1));
    ReachesNext(s0, s, Go(1));
    s := At(s, 1, AllowSetState);
  }
}
