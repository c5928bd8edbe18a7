/** The connection limiter of gate.go under any interleaving of any number of threads.
    Without a semaphore the mutex covers test and add of an acquire, while a release
    only decrements. With a semaphore, the channel operation and the counter update
    of one acquire or release are two separate moves. */
module LimiterThreads {
  import opened Wrappers
  import CL = ConnectionLimiter

  /** Where a thread stands inside a method; comments name what it does next. */
  datatype Pc =
    | Idle
    | AcqLock            // Lock
    | AcqCheck           // compare the counter with the limit
    | AcqAdd             // add 1
    | AcqUnlock          // Unlock
    | SemTry             // non-blocking send
    | SemWait            // blocking send, timer or context
    | SemCount           // sent; add 1
    | RelTry             // non-blocking receive
    | RelReceived        // received; add -1
    | RelEmpty           // found the semaphore empty; add -1
    | RelPlain           // no semaphore; add -1

  datatype Shared = Shared(
    maxConnections: int,
    mode: CL.Mode,
    timeout: int,
    current: int,
    sem: Option<nat>,
    holder: Option<nat>,
    emptyReleases: nat,  // finished releases that found the semaphore empty
    threads: seq<Pc>)

  datatype Move = StartAcquire(t: nat) | StartRelease(t: nat) | Go(t: nat) | GiveUp(t: nat)

  function At(s: Shared, t: nat, pc: Pc): Shared
    requires t < |s.threads|
  {
    s.(threads := s.threads[t := pc])
  }

  function Apply(s: Shared, m: Move): Option<Shared> {
    if m.t >= |s.threads| then None
    else
      match m
      case StartAcquire(t) =>
        if s.threads[t] == Idle then Some(At(s, t, if s.sem.None? then AcqLock else SemTry)) else None
      case StartRelease(t) =>
        if s.threads[t] == Idle then Some(At(s, t, if s.sem.None? then RelPlain else RelTry)) else None
      case GiveUp(t) => if s.threads[t] == SemWait then Some(At(s, t, Idle)) else None
      case Go(t) => Advance(s, t, s.threads[t])
  }

  function Advance(s: Shared, t: nat, pc: Pc): Option<Shared>
    requires t < |s.threads|
  {
    match pc
    case Idle => None
    case AcqLock => if s.holder.None? then Some(At(s, t, AcqCheck).(holder := Some(t))) else None
    case AcqCheck => Some(At(s, t, if s.current >= s.maxConnections then AcqUnlock else AcqAdd))
    case AcqAdd => Some(At(s, t, AcqUnlock).(current := s.current + 1))
    case AcqUnlock => Some(At(s, t, Idle).(holder := None))
    case SemTry =>
      if s.sem.None? then None
      else if s.sem.value < s.maxConnections then Some(At(s, t, SemCount).(sem := Some(s.sem.value + 1)))
      else if s.mode == CL.Timeout && s.timeout <= 0 then Some(At(s, t, Idle))
      else Some(At(s, t, SemWait))
    case SemWait =>
      if s.sem.Some? && s.sem.value < s.maxConnections
      then Some(At(s, t, SemCount).(sem := Some(s.sem.value + 1))) else None
    case SemCount => Some(At(s, t, Idle).(current := s.current + 1))
    case RelTry =>
      if s.sem.None? then None
      else if s.sem.value > 0 then Some(At(s, t, RelReceived).(sem := Some(s.sem.value - 1)))
      else Some(At(s, t, RelEmpty))
    case RelReceived => Some(At(s, t, Idle).(current := s.current - 1))
    case RelEmpty => Some(At(s, t, Idle).(current := s.current - 1, emptyReleases := s.emptyReleases + 1))
    case RelPlain => Some(At(s, t, Idle).(current := s.current - 1))
  }

  function Run(s: Shared, moves: seq<Move>): Option<Shared>
    decreases |moves|
  {
    if moves == [] then Some(s)
    else
      match Apply(s, moves[0])
      case None => None
      case Some(next) => Run(next, moves[1..])
  }

  /** Any number of idle threads around a new limiter. */
  function Start(maxConnections: int, mode: CL.Mode, timeout: int, n: nat): Shared {
    var l := CL.NewLimiter(maxConnections, mode, timeout);
    Shared(l.maxConnections, l.mode, l.timeout, l.current, l.sem, None, 0, seq(n, _ => Idle))
  }

  /** How many threads stand at a place. */
  ghost function Count(s: Shared, pc: Pc): nat {
    multiset(s.threads)[pc]
  }

  lemma CountAt(s: Shared, t: nat, to: Pc, pc: Pc)
    requires t < |s.threads|
    ensures Count(At(s, t, to), pc) ==
            Count(s, pc) - (if s.threads[t] == pc then 1 else 0) + (if to == pc then 1 else 0)
  {
    assert s.threads[t] in multiset(s.threads);
    assert multiset(s.threads[t := to]) == multiset(s.threads) - multiset{s.threads[t]} + multiset{to};
  }

  lemma {:induction false} CountIdle(n: nat, pc: Pc)
    ensures multiset(seq(n, _ => Idle))[pc] == if pc == Idle then n else 0
  {
    if n > 0 {
      CountIdle(n - 1, pc);
      assert seq(n, _ => Idle) == seq(n - 1, _ => Idle) + [Idle];
    }
  }

  // ---- with a semaphore ----

  /** The channel length, the counter and the moves in progress always balance. */
  ghost predicate Balanced(s: Shared) {
    s.sem.Some? ==>
      && s.sem.value <= s.maxConnections
      && s.sem.value == s.current + Count(s, SemCount) - Count(s, RelReceived) + s.emptyReleases
  }

  ghost predicate OnSemaphore(s: Shared) {
    s.sem.Some? && forall t | 0 <= t < |s.threads| :: s.threads[t] == Idle || SemaphorePlace(s.threads[t])
  }

  predicate SemaphorePlace(pc: Pc) {
    pc.SemTry? || pc.SemWait? || pc.SemCount? || pc.RelTry? || pc.RelReceived? || pc.RelEmpty?
  }

  lemma OnSemaphoreStep(s: Shared, m: Move)
    requires OnSemaphore(s) && Apply(s, m).Some?
    ensures OnSemaphore(Apply(s, m).value)
  {
    assert s.threads[m.t] == Idle || SemaphorePlace(s.threads[m.t]);
  }

  /** A move of an acquire. */
  lemma BalancedAcquire(s: Shared, t: nat, pc: Pc)
    requires Balanced(s) && s.sem.Some? && t < |s.threads| && s.threads[t] == pc
    requires (pc.SemTry? || pc.SemWait? || pc.SemCount?) && Advance(s, t, pc).Some?
    ensures Balanced(Advance(s, t, pc).value)
  {
    var s' := Advance(s, t, pc).value;
    assert s'.threads == At(s, t, s'.threads[t]).threads;
    CountAt(s, t, s'.threads[t], SemCount);
    CountAt(s, t, s'.threads[t], RelReceived);
    hide Count;
  }

  /** A move of a release. */
  lemma BalancedRelease(s: Shared, t: nat, pc: Pc)
    requires Balanced(s) && s.sem.Some? && t < |s.threads| && s.threads[t] == pc
    requires (pc.RelTry? || pc.RelReceived? || pc.RelEmpty?) && Advance(s, t, pc).Some?
    ensures Balanced(Advance(s, t, pc).value)
  {
    var s' := Advance(s, t, pc).value;
    assert s'.threads == At(s, t, s'.threads[t]).threads;
    CountAt(s, t, s'.threads[t], SemCount);
    CountAt(s, t, s'.threads[t], RelReceived);
    hide Count;
  }

  lemma MaxFixed(s: Shared, m: Move)
    requires Apply(s, m).Some?
    ensures Apply(s, m).value.maxConnections == s.maxConnections
  {
  }

  lemma IdleStays(s: Shared, t: nat)
    requires t < |s.threads|
    ensures Advance(s, t, Idle).None?
  {
  }

  /** A call begins or a wait ends. */
  lemma BalancedStart(s: Shared, m: Move)
    requires Balanced(s) && s.sem.Some? && Apply(s, m).Some? && !m.Go?
    ensures Balanced(Apply(s, m).value)
  {
    var s' := Apply(s, m).value;
    assert s' == At(s, m.t, s'.threads[m.t]);
    CountAt(s, m.t, s'.threads[m.t], SemCount);
    CountAt(s, m.t, s'.threads[m.t], RelReceived);
    hide Count, Advance;
  }

  lemma BalancedStep(s: Shared, m: Move)
    requires Balanced(s) && OnSemaphore(s) && Apply(s, m).Some?
    ensures Balanced(Apply(s, m).value)
  {
    assert s.threads[m.t] == Idle || SemaphorePlace(s.threads[m.t]);
    hide Advance, Balanced;
    if m.Go? {
      var pc := s.threads[m.t];
      if pc.SemTry? || pc.SemWait? || pc.SemCount? {
        BalancedAcquire(s, m.t, pc);
      } else if pc != Idle {
        BalancedRelease(s, m.t, pc);
      } else {
        IdleStays(s, m.t);
      }
    } else {
      BalancedStart(s, m);
    }
  }

  lemma {:induction false} BalancedRun(s: Shared, moves: seq<Move>)
    requires Balanced(s) && OnSemaphore(s) && Run(s, moves).Some?
    ensures Balanced(Run(s, moves).value) && OnSemaphore(Run(s, moves).value)
    ensures Run(s, moves).value.maxConnections == s.maxConnections
    decreases |moves|
  {
    if moves != [] {
      BalancedStep(s, moves[0]);
      OnSemaphoreStep(s, moves[0]);
      MaxFixed(s, moves[0]);
      hide Apply, Balanced, OnSemaphore;
      BalancedRun(Apply(s, moves[0]).value, moves[1..]);
    }
  }

  /** Main result: in every reachable state, len(sem) is the counter, plus acquires
      sent but not counted, minus releases received but not counted, plus the finished
      releases that found the semaphore empty; so the counter exceeds the limit by at
      most the releases in progress. */
  lemma SemaphoreBalance(maxConnections: int, mode: CL.Mode, timeout: int, n: nat, moves: seq<Move>)
    requires mode != CL.Drop && Run(Start(maxConnections, mode, timeout, n), moves).Some?
    ensures var s := Run(Start(maxConnections, mode, timeout, n), moves).value;
            && s.sem.Some?
            && s.sem.value == s.current + Count(s, SemCount) - Count(s, RelReceived) + s.emptyReleases
            && 0 <= s.sem.value <= s.maxConnections
            && s.current <= s.maxConnections + Count(s, RelReceived)
            && 0 <= s.current + s.emptyReleases + Count(s, SemCount)
  {
    var s0 := Start(maxConnections, mode, timeout, n);
    CountIdle(n, SemCount);
    CountIdle(n, RelReceived);
    BalancedRun(s0, moves);
  }

  // ---- one thread alone behaves like the atomic limiter ----

  function Abstract(s: Shared): CL.Limiter {
    CL.Limiter(s.maxConnections, s.mode, s.timeout, s.current, s.sem)
  }

  lemma RunOne(s: Shared, m: Move)
    ensures Run(s, [m]) == Apply(s, m)
  {
    assert [m][1..] == [];
  }

  lemma {:induction false} RunNext(s: Shared, moves: seq<Move>, m: Move)
    requires Run(s, moves).Some?
    ensures Run(s, moves + [m]) == Apply(Run(s, moves).value, m)
    decreases |moves|
  {
    hide Apply;
    if moves == [] {
      assert moves + [m] == [m];
      RunOne(s, m);
    } else {
      assert (moves + [m])[1..] == moves[1..] + [m];
      RunNext(Apply(s, moves[0]).value, moves[1..], m);
    }
  }

  ghost predicate Reaches(a: Shared, b: Shared) {
    exists moves :: Run(a, moves) == Some(b)
  }

  lemma ReachesNext(a: Shared, b: Shared, m: Move)
    requires Reaches(a, b) && Apply(b, m).Some?
    ensures Reaches(a, Apply(b, m).value)
  {
    var moves :| Run(a, moves) == Some(b);
    RunNext(a, moves, m);
  }

  /** Three moves of one thread, by the rules for the places it passes through. */
  lemma StartGoGo(s: Shared, start: Move, pc1: Pc, s1: Shared, pc2: Pc, s2: Shared, s3: Shared)
    requires start.t < |s.threads| == |s1.threads| == |s2.threads| && Apply(s, start) == Some(s1)
    requires s1.threads[start.t] == pc1 && Advance(s1, start.t, pc1) == Some(s2)
    requires s2.threads[start.t] == pc2 && Advance(s2, start.t, pc2) == Some(s3)
    ensures Run(s, [start, Go(start.t), Go(start.t)]) == Some(s3)
  {
    var t := start.t;
    assert [start, Go(t), Go(t)][1..] == [Go(t), Go(t)] && [Go(t), Go(t)][1..] == [Go(t)];
    RunOne(s2, Go(t));
    hide Advance;
    assert Run(s1, [Go(t), Go(t)]) == Run(s2, [Go(t)]);
  }

  lemma BackToIdle(threads: seq<Pc>, t: nat, pc1: Pc, pc2: Pc)
    requires t < |threads| && threads[t] == Idle
    ensures threads[t := pc1][t := pc2][t := Idle] == threads
  {
  }

  /** An undisturbed acquire of a free semaphore slot is the atomic one. */
  lemma AcquireAlone(s: Shared, t: nat)
    requires t < |s.threads| && s.threads[t] == Idle && s.sem.Some? && s.sem.value < s.maxConnections
    ensures var r := Run(s, [StartAcquire(t), Go(t), Go(t)]);
            && r.Some?
            && (Abstract(r.value), CL.Acquired) == CL.AcquireStep(Abstract(s), false)
            && r.value == s.(sem := r.value.sem, current := r.value.current)
  {
    var s1 := At(s, t, SemTry);
    var s2 := At(s1, t, SemCount).(sem := Some(s.sem.value + 1));
    var s3 := s.(sem := s2.sem, current := s.current + 1);
    BackToIdle(s.threads, t, s1.threads[t], s2.threads[t]);
    hide Run, Advance;
    SendMove(s1, t);
    CountMove(s2, t);
    StartGoGo(s, StartAcquire(t), SemTry, s1, SemCount, s2, s3);
  }

  /** A waiting acquire that finds a place free takes it, as the atomic one would. */
  lemma WaiterTakes(s: Shared, t: nat)
    requires t < |s.threads| && s.threads[t] == SemWait && s.sem.Some? && s.sem.value < s.maxConnections
    ensures var r := Run(s, [Go(t), Go(t)]);
            && r.Some? && r.value.threads == s.threads[t := Idle]
            && (Abstract(r.value), CL.Acquired) == CL.AcquireStep(Abstract(s), false)
            && r.value.emptyReleases == s.emptyReleases && r.value.holder == s.holder
  {
    var s2 := At(s, t, SemCount).(sem := Some(s.sem.value + 1));
    var s3 := At(s2, t, Idle).(current := s.current + 1);
    assert s3.threads == s.threads[t := Idle];
    WaitMove(s, t);
    CountMove(s2, t);
    assert [Go(t), Go(t)][1..] == [Go(t)];
    RunOne(s2, Go(t));
    hide Advance;
    assert Run(s, [Go(t), Go(t)]) == Run(s2, [Go(t)]);
  }

  lemma WaitMove(s: Shared, t: nat)
    requires t < |s.threads| && s.sem.Some? && s.sem.value < s.maxConnections
    ensures Advance(s, t, SemWait) == Some(At(s, t, SemCount).(sem := Some(s.sem.value + 1)))
  {
  }

  lemma SendMove(s: Shared, t: nat)
    requires t < |s.threads| && s.sem.Some? && s.sem.value < s.maxConnections
    ensures Advance(s, t, SemTry) == Some(At(s, t, SemCount).(sem := Some(s.sem.value + 1)))
  {
  }

  lemma CountMove(s: Shared, t: nat)
    requires t < |s.threads|
    ensures Advance(s, t, SemCount) == Some(At(s, t, Idle).(current := s.current + 1))
  {
  }

  /** An undisturbed release is the atomic one. */
  lemma ReleaseAlone(s: Shared, t: nat)
    requires t < |s.threads| && s.threads[t] == Idle && s.sem.Some?
    ensures var r := Run(s, [StartRelease(t), Go(t), Go(t)]);
            && r.Some?
            && Abstract(r.value) == CL.ReleaseStep(Abstract(s))
            && r.value.threads == s.threads
            && r.value.emptyReleases == s.emptyReleases + if s.sem.value == 0 then 1 else 0
  {
    hide Run;
    if s.sem.value > 0 {
      ReceiveAndCount(s, t);
    } else {
      FindEmptyAndCount(s, t);
    }
  }

  lemma ReceiveAndCount(s: Shared, t: nat)
    requires t < |s.threads| && s.threads[t] == Idle && s.sem.Some? && s.sem.value > 0
    ensures Run(s, [StartRelease(t), Go(t), Go(t)]) == Some(s.(sem := Some(s.sem.value - 1), current := s.current - 1))
  {
    hide Run, Advance, Apply;
    var s1 := At(s, t, RelTry);
    var s2 := At(s1, t, RelReceived).(sem := Some(s.sem.value - 1));
    var s3 := At(s2, t, Idle).(current := s2.current - 1);
    BackToIdle(s.threads, t, RelTry, RelReceived);
    assert s3 == s.(sem := Some(s.sem.value - 1), current := s.current - 1);
    ReleaseMove(s, t);
    ReceiveMove(s1, t);
    ReceivedCountMove(s2, t);
    assert s1.threads[t] == RelTry && s2.threads[t] == RelReceived;
    hide At;
    StartGoGo(s, StartRelease(t), RelTry, s1, RelReceived, s2, s3);
  }

  lemma FindEmptyAndCount(s: Shared, t: nat)
    requires t < |s.threads| && s.threads[t] == Idle && s.sem.Some? && s.sem.value == 0
    ensures Run(s, [StartRelease(t), Go(t), Go(t)]) ==
            Some(s.(current := s.current - 1, emptyReleases := s.emptyReleases + 1))
  {
    hide Run, Advance, Apply;
    var s1 := At(s, t, RelTry);
    var s2 := At(s1, t, RelEmpty);
    var s3 := At(s2, t, Idle).(current := s2.current - 1, emptyReleases := s2.emptyReleases + 1);
    BackToIdle(s.threads, t, RelTry, RelEmpty);
    assert s3 == s.(current := s.current - 1, emptyReleases := s.emptyReleases + 1);
    ReleaseMove(s, t);
    EmptyMove(s1, t);
    EmptyCountMove(s2, t);
    assert s1.threads[t] == RelTry && s2.threads[t] == RelEmpty;
    hide At;
    StartGoGo(s, StartRelease(t), RelTry, s1, RelEmpty, s2, s3);
  }

  lemma ThreadGivesUp(s: Shared, t: nat)
    requires t < |s.threads| && s.threads[t] == SemWait
    ensures Apply(s, GiveUp(t)) == Some(At(s, t, Idle))
  {
  }

  lemma ReleaseMove(s: Shared, t: nat)
    requires t < |s.threads| && s.threads[t] == Idle && s.sem.Some?
    ensures Apply(s, StartRelease(t)) == Some(At(s, t, RelTry))
  {
  }

  lemma ReceiveMove(s: Shared, t: nat)
    requires t < |s.threads| && s.sem.Some? && s.sem.value > 0
    ensures Advance(s, t, RelTry) == Some(At(s, t, RelReceived).(sem := Some(s.sem.value - 1)))
  {
  }

  lemma ReceivedCountMove(s: Shared, t: nat)
    requires t < |s.threads|
    ensures Advance(s, t, RelReceived) == Some(At(s, t, Idle).(current := s.current - 1))
  {
  }

  lemma EmptyMove(s: Shared, t: nat)
    requires t < |s.threads| && s.sem.Some? && s.sem.value == 0
    ensures Advance(s, t, RelTry) == Some(At(s, t, RelEmpty))
  {
  }

  lemma EmptyCountMove(s: Shared, t: nat)
    requires t < |s.threads|
    ensures Advance(s, t, RelEmpty) ==
            Some(At(s, t, Idle).(current := s.current - 1, emptyReleases := s.emptyReleases + 1))
  {
  }

  /** The counter exceeds the limit exactly while releases that have freed the channel
      and not yet counted outnumber the free places, the acquires not yet counted and
      the releases that found the semaphore empty. */
  lemma {:induction false} OvershootsExactly(maxConnections: int, mode: CL.Mode, timeout: int, n: nat, moves: seq<Move>)
    requires mode != CL.Drop && Run(Start(maxConnections, mode, timeout, n), moves).Some?
    ensures var s := Run(Start(maxConnections, mode, timeout, n), moves).value;
            && s.sem.Some?
            && (s.current > s.maxConnections <==>
                Count(s, RelReceived) > (s.maxConnections - s.sem.value) + Count(s, SemCount) + s.emptyReleases)
  {
    SemaphoreBalance(maxConnections, mode, timeout, n, moves);
    hide Run, Count, Start;
  }

  /** An instance: two threads push the counter past the limit for a moment. A release has
      freed the channel and not yet counted when the next acquire counts. */
  lemma CounterOvershoots(n: nat) returns (before: seq<Move>, during: seq<Move>, last: seq<Move>)
    requires n >= 2
    ensures var s0 := Start(1, CL.Block, 0, n);
            && Run(s0, before).Some?
            && Run(Run(s0, before).value, during).Some?
            && Run(Run(Run(s0, before).value, during).value, last).Some?
            && Run(Run(Run(s0, before).value, during).value, last).value.current == 2
  {
    var s0 := Start(1, CL.Block, 0, n);
    before, during, last := [StartAcquire(0), Go(0), Go(0)], [StartRelease(0), Go(0)], [StartAcquire(1), Go(1), Go(1)];
    AcquireAlone(s0, 0);
    var s1 := Run(s0, before).value;
    assert during[1..] == [Go(0)];
    RunOne(At(s1, 0, RelTry), Go(0));
    assert At(s1, 0, RelTry).threads[0] == RelTry;
    var s2 := Run(s1, during).value;
    assert s2.threads[1] == Idle && s2.current == 1 && s2.sem == Some(0);
    AcquireAlone(s2, 1);
  }

  // ---- without a semaphore ----

  predicate HoldsLock(pc: Pc) {
    pc.AcqCheck? || pc.AcqAdd? || pc.AcqUnlock?
  }

  /** The mutex is held by the thread that stands inside it, in every mode. */
  ghost predicate Locked(s: Shared) {
    && (forall t | 0 <= t < |s.threads| :: HoldsLock(s.threads[t]) <==> s.holder == Some(t))
    && (s.holder.Some? ==> s.holder.value < |s.threads|)
  }

  lemma LockedFrom(s: Shared, t: nat, pc: Pc)
    requires Locked(s) && t < |s.threads| && s.threads[t] == pc && Advance(s, t, pc).Some?
    ensures Locked(Advance(s, t, pc).value)
  {
    var next := Advance(s, t, pc).value;
    assert next.threads == s.threads[t := next.threads[t]];
    assert HoldsLock(next.threads[t]) <==> next.holder == Some(t);
    hide Advance, HoldsLock;
  }

  lemma {:induction false} LockedRun(s: Shared, moves: seq<Move>)
    requires Locked(s) && Run(s, moves).Some?
    ensures Locked(Run(s, moves).value)
    decreases |moves|
  {
    if moves != [] {
      hide Advance;
      if moves[0].Go? {
        LockedFrom(s, moves[0].t, s.threads[moves[0].t]);
      }
      LockedRun(Apply(s, moves[0]).value, moves[1..]);
    }
  }

  ghost predicate Bounded(s: Shared) {
    && s.sem.None?
    && 0 < s.maxConnections
    && s.current <= s.maxConnections
    && (forall t | 0 <= t < |s.threads| :: HoldsLock(s.threads[t]) <==> s.holder == Some(t))
    && (forall t | 0 <= t < |s.threads| :: s.threads[t] == AcqAdd ==> s.current < s.maxConnections)
    && (forall t | 0 <= t < |s.threads| :: !SemaphorePlace(s.threads[t]))
  }

  /** What one move of a thread does to lock and counter. */
  lemma AdvancePlain(s: Shared, t: nat, pc: Pc)
    requires t < |s.threads| && s.threads[t] == pc && !SemaphorePlace(pc) && s.sem.None? && Advance(s, t, pc).Some?
    requires HoldsLock(pc) <==> s.holder == Some(t)
    requires s.current <= s.maxConnections && (pc == AcqAdd ==> s.current < s.maxConnections)
    ensures var next := Advance(s, t, pc).value;
            && next == At(s, t, next.threads[t]).(current := next.current, holder := next.holder)
            && !SemaphorePlace(next.threads[t])
            && next.current <= s.maxConnections
            && (HoldsLock(next.threads[t]) <==> next.holder == Some(t))
            && (next.holder != s.holder ==> s.holder.None? || (s.holder == Some(t) && next.holder.None?))
            && (next.threads[t] == AcqAdd ==> next.current < s.maxConnections)
            && (next.current > s.current ==> HoldsLock(pc))
  {
  }

  lemma BoundedGo(s: Shared, t: nat)
    requires Bounded(s) && t < |s.threads| && Advance(s, t, s.threads[t]).Some?
    ensures Bounded(Advance(s, t, s.threads[t]).value)
  {
    assert HoldsLock(s.threads[t]) <==> s.holder == Some(t);
    AdvancePlain(s, t, s.threads[t]);
    hide Advance, SemaphorePlace;
  }

  lemma BoundedStep(s: Shared, m: Move)
    requires Bounded(s) && Apply(s, m).Some?
    ensures Bounded(Apply(s, m).value)
  {
    if m.Go? {
      BoundedGo(s, m.t);
    } else {
      assert !SemaphorePlace(s.threads[m.t]);
    }
    hide Advance;
  }

  lemma {:induction false} BoundedRun(s: Shared, moves: seq<Move>)
    requires Bounded(s) && Run(s, moves).Some?
    ensures Bounded(Run(s, moves).value)
    ensures Run(s, moves).value.maxConnections == s.maxConnections
    decreases |moves|
  {
    if moves != [] {
      BoundedStep(s, moves[0]);
      MaxFixed(s, moves[0]);
      hide Apply, Bounded;
      BoundedRun(Apply(s, moves[0]).value, moves[1..]);
    }
  }

  /** Main result: without a semaphore the counter never exceeds the limit. */
  lemma DropModeBound(maxConnections: int, timeout: int, n: nat, moves: seq<Move>)
    requires Run(Start(maxConnections, CL.Drop, timeout, n), moves).Some?
    ensures var s := Run(Start(maxConnections, CL.Drop, timeout, n), moves).value;
            s.current <= CL.NewLimiter(maxConnections, CL.Drop, timeout).maxConnections
  {
    BoundedRun(Start(maxConnections, CL.Drop, timeout, n), moves);
  }
}
