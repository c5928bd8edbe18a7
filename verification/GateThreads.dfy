/** The connection gate of gate.go under any interleaving of any number of threads:
    the threaded breaker and the threaded slot limiter composed, with the bucket's Allow
    as one move since its mutex covers all of it. A move of a thread is one move of the
    part it is in; where that returns, the same move begins the next call. */
module GateThreads {
  import opened Wrappers
  import CB = CircuitBreaker
  import BT = BreakerThreads
  import RL = RateLimiter
  import CL = ConnectionLimiter
  import LT = LimiterThreads
  import Gate

  /** Where a thread stands; comments name the call it is in. */
  datatype Stage =
    | Out
    | Asking            // breaker.Allow
    | Paying            // about to make its call of rateLimiter.Allow
    | Acquiring         // connectionLimiter.AcquireWithContext
    | Taken             // the same, slot counted, about to unlock
    | Operating         // the operation
    | Refused           // breaker.RecordFailure after a refusal by bucket or limiter
    | Succeeding        // breaker.RecordSuccess
    | Failing           // breaker.RecordFailure after a failed operation
    | Returning         // connectionLimiter.Release after that
    | OutsideFailing    // breaker.RecordFailure of an outside failure
    | OutsideReturning  // connectionLimiter.Release after that
    | Releasing         // connectionLimiter.Release

  /** What has happened so far; `failuresTold` and `successesTold` are the calls of the
      breaker's RecordFailure and RecordSuccess, `times` the clock readings of the bucket. */
  datatype Books = Books(
    calls: nat, breakerRefused: nat, rateRefused: nat, slotRefused: nat,
    executed: nat, succeeded: nat, failed: nat, releases: nat, outsideFailures: nat, outsideSuccesses: nat,
    failuresTold: nat, successesTold: nat,
    times: seq<int>)

  datatype Shared = Shared(breaker: BT.Shared, bucket: RL.Bucket, slots: LT.Shared, stages: seq<Stage>, books: Books)

  datatype Move =
    | Execute(t: nat)
    | Release(t: nat)
    | OutsideFailure(t: nat)
    | OutsideSuccess(t: nat)
    | BreakerGo(t: nat)
    | Pay(t: nat)
    | SlotGo(t: nat)
    | GiveUp(t: nat)
    | Finish(t: nat, ok: bool)
    | Tick(d: nat)

  function At(g: Shared, t: nat, stage: Stage): Shared
    requires t < |g.stages|
  {
    g.(stages := g.stages[t := stage])
  }

  /** A call of the breaker begins. */
  function ToBreaker(g: Shared, t: nat, m: BT.Move, stage: Stage): Option<Shared>
    requires t < |g.stages|
  {
    match BT.Apply(g.breaker, m)
    case None => None
    case Some(b) => Some(At(g, t, stage).(breaker := b, books := Told(g.books, m)))
  }

  function Told(b: Books, m: BT.Move): Books {
    if m.StartFailure? then b.(failuresTold := b.failuresTold + 1)
    else if m.StartSuccess? then b.(successesTold := b.successesTold + 1)
    else b
  }

  /** A call of the limiter begins. */
  function ToSlots(g: Shared, t: nat, m: LT.Move, stage: Stage): Option<Shared>
    requires t < |g.stages|
  {
    match LT.Apply(g.slots, m)
    case None => None
    case Some(l) => Some(At(g, t, stage).(slots := l))
  }

  function Apply(g: Shared, m: Move): Option<Shared> {
    if m.Tick? then Some(g.(breaker := g.breaker.(now := g.breaker.now + m.d)))
    else if m.t >= |g.stages| then None
    else ApplyAt(g, m, g.stages[m.t])
  }

  function ApplyAt(g: Shared, m: Move, stage: Stage): Option<Shared>
    requires !m.Tick? && m.t < |g.stages|
  {
    match m
    case Execute(t) =>
      if stage != Out then None
      else ToBreaker(g.(books := g.books.(calls := g.books.calls + 1)), t, BT.StartAllow(t), Asking)
    case Release(t) => if stage != Out then None else ToSlots(g, t, LT.StartRelease(t), Releasing)
    case OutsideFailure(t) => if stage != Out then None else ToBreaker(g, t, BT.StartFailure(t), OutsideFailing)
    case OutsideSuccess(t) =>
      if stage != Out then None
      else ToBreaker(g.(books := g.books.(outsideSuccesses := g.books.outsideSuccesses + 1)), t, BT.StartSuccess(t), Succeeding)
    case BreakerGo(t) =>
      (match BT.Apply(g.breaker, BT.Go(t))
       case None => None
       case Some(b) =>
         if t < |b.threads| && b.threads[t] != BT.Idle then Some(g.(breaker := b))
         else BreakerReturns(g.(breaker := b), t, stage, g.breaker.threads[t] == BT.AllowUnlockRefused))
    case Pay(t) => if stage != Paying then None else PayStep(g, t)
    case SlotGo(t) =>
      (match LT.Apply(g.slots, LT.Go(t))
       case None => None
       case Some(l) => SlotMoved(g.(slots := l), t, stage, l.current > g.slots.current))
    case GiveUp(t) =>
      if stage != Acquiring then None
      else
        (match LT.Apply(g.slots, LT.GiveUp(t))
         case None => None
         case Some(l) => SlotRefusal(g.(slots := l), t))
    case Finish(t, ok) =>
      if stage != Operating then None
      else if ok
      then ToBreaker(g.(books := g.books.(succeeded := g.books.succeeded + 1)), t, BT.StartSuccess(t), Succeeding)
      else ToBreaker(g, t, BT.StartFailure(t), Failing)
  }

  /** The breaker's method has returned, `refused` with ErrCircuitOpen. */
  function BreakerReturns(g: Shared, t: nat, stage: Stage, refused: bool): Option<Shared>
    requires t < |g.stages|
  {
    match stage
    case Asking =>
      if refused then Some(At(g, t, Out).(books := g.books.(breakerRefused := g.books.breakerRefused + 1)))
      else Some(At(g, t, Paying))
    case Refused => Some(At(g, t, Out))
    case Succeeding => Some(At(g, t, Out))
    case Failing => ToSlots(g, t, LT.StartRelease(t), Returning)
    case OutsideFailing => ToSlots(g, t, LT.StartRelease(t), OutsideReturning)
    case _ => None
  }

  function PayStep(g: Shared, t: nat): Option<Shared>
    requires t < |g.stages|
  {
    var (bucket, ok) := RL.AllowStep(g.bucket, g.breaker.now);
    var paid := g.(bucket := bucket, books := g.books.(times := g.books.times + [g.breaker.now]));
    if ok then ToSlots(paid, t, LT.StartAcquire(t), Acquiring)
    else ToBreaker(paid.(books := paid.books.(rateRefused := paid.books.rateRefused + 1)), t, BT.StartFailure(t), Refused)
  }

  function SlotRefusal(g: Shared, t: nat): Option<Shared>
    requires t < |g.stages|
  {
    ToBreaker(g.(books := g.books.(slotRefused := g.books.slotRefused + 1)), t, BT.StartFailure(t), Refused)
  }

  function Operate(g: Shared, t: nat): Shared
    requires t < |g.stages|
  {
    At(g, t, Operating).(books := g.books.(executed := g.books.executed + 1))
  }

  /** The limiter's method has made a move, `counted` if it added 1 to the counter. */
  function SlotMoved(g: Shared, t: nat, stage: Stage, counted: bool): Option<Shared>
    requires t < |g.stages|
  {
    var returned := !(t < |g.slots.threads| && g.slots.threads[t] != LT.Idle);
    match stage
    case Acquiring =>
      if !returned then Some(At(g, t, if counted then Taken else Acquiring))
      else if counted then Some(Operate(g, t))
      else SlotRefusal(g, t)
    case Taken => if !returned then Some(g) else Some(Operate(g, t))
    case Returning =>
      if !returned then Some(g) else Some(At(g, t, Out).(books := g.books.(failed := g.books.failed + 1)))
    case OutsideReturning =>
      if !returned then Some(g)
      else Some(At(g, t, Out).(books := g.books.(outsideFailures := g.books.outsideFailures + 1)))
    case Releasing =>
      if !returned then Some(g) else Some(At(g, t, Out).(books := g.books.(releases := g.books.releases + 1)))
    case _ => None
  }

  function Run(g: Shared, moves: seq<Move>): Option<Shared>
    decreases |moves|
  {
    if moves == [] then Some(g)
    else
      match Apply(g, moves[0])
      case None => None
      case Some(next) => Run(next, moves[1..])
  }

  /** Any number of threads around a new gate. */
  function Start(c: Gate.Config, now: int, n: nat): Shared {
    Shared(BT.Start(c.maxFailures, c.resetTimeout, now, n),
           RL.NewBucket(c.maxRequestsPerSecond, now),
           LT.Start(c.maxConnections, c.mode, c.timeout, n),
           seq(n, _ => Out),
           Books(0, 0, 0, 0, 0, 0, 0, 0, 0, 0, 0, 0, []))
  }

  // ---- a thread is inside the part that its stage names, and only there ----

  predicate BreakerPlace(stage: Stage, pc: BT.Pc) {
    match stage
    case Asking =>
      pc.AllowStart? || pc.AllowRead? || pc.AllowReadDone? || pc.AllowWait? || pc.AllowCheck? ||
      pc.AllowSetState? || pc.AllowSetCount? || pc.AllowUnlockOk? || pc.AllowUnlockRefused?
    case Succeeding =>
      pc.SuccessLoad? || pc.SuccessWait? || pc.SuccessSetState? || pc.SuccessSetCount? || pc.SuccessUnlock? ||
      pc.SuccessClear?
    case Out => pc == BT.Idle
    case Paying => pc == BT.Idle
    case Acquiring => pc == BT.Idle
    case Taken => pc == BT.Idle
    case Operating => pc == BT.Idle
    case Returning => pc == BT.Idle
    case OutsideReturning => pc == BT.Idle
    case Releasing => pc == BT.Idle
    case _ => pc.FailWait? || pc.FailLoad? || pc.FailAdd? || pc.FailTime? || pc.FailStore? || pc.FailUnlock?
  }

  predicate SlotPlace(stage: Stage, pc: LT.Pc) {
    match stage
    case Acquiring =>
      pc.AcqLock? || pc.AcqCheck? || pc.AcqAdd? || pc.AcqUnlock? || pc.SemTry? || pc.SemWait? || pc.SemCount?
    case Taken => pc.AcqUnlock?
    case Returning => ReleasePlace(pc)
    case OutsideReturning => ReleasePlace(pc)
    case Releasing => ReleasePlace(pc)
    case _ => pc == LT.Idle
  }

  predicate ReleasePlace(pc: LT.Pc) {
    pc.RelTry? || pc.RelReceived? || pc.RelEmpty? || pc.RelPlain?
  }

  ghost predicate Placed(g: Shared) {
    && |g.stages| == |g.breaker.threads| == |g.slots.threads|
    && forall t | 0 <= t < |g.stages| :: PlacedAt(g, t)
  }

  predicate PlacedAt(g: Shared, t: nat)
    requires t < |g.stages| == |g.breaker.threads| == |g.slots.threads|
  {
    BreakerPlace(g.stages[t], g.breaker.threads[t]) && SlotPlace(g.stages[t], g.slots.threads[t])
  }

  /** Thread t stands where it stood except that its own places have changed. */
  ghost predicate OnlyOwn(g: Shared, next: Shared, t: nat) {
    && t < |g.stages| == |g.breaker.threads| == |g.slots.threads|
    && |next.stages| == |g.stages| && |next.breaker.threads| == |g.stages| && |next.slots.threads| == |g.stages|
    && next.stages == g.stages[t := next.stages[t]]
    && next.breaker.threads == g.breaker.threads[t := next.breaker.threads[t]]
    && next.slots.threads == g.slots.threads[t := next.slots.threads[t]]
  }

  /** The two parts' own models: what one move of thread t does to its place. */
  lemma BreakerMove(b: BT.Shared, t: nat, m: BT.Move, pc: BT.Pc)
    requires t < |b.threads| && b.threads[t] == pc
    requires m == BT.StartAllow(t) || m == BT.StartSuccess(t) || m == BT.StartFailure(t)
    ensures BT.Apply(b, m).Some? <==> pc == BT.Idle
    ensures pc == BT.Idle ==>
              BT.Apply(b, m) == Some(BT.At(b, t, if m.StartAllow? then BT.AllowStart
                                                 else if m.StartSuccess? then BT.SuccessLoad else BT.FailWait))
  {
    hide BT.AdvanceFrom;
  }

  lemma BreakerGoes(b: BT.Shared, t: nat, pc: BT.Pc, stage: Stage)
    requires t < |b.threads| && b.threads[t] == pc && BreakerPlace(stage, pc) && BT.Apply(b, BT.Go(t)).Some?
    ensures var next := BT.Apply(b, BT.Go(t)).value;
            && |next.threads| == |b.threads| && next.threads == b.threads[t := next.threads[t]] && next.now == b.now
            && (next.threads[t] != BT.Idle ==> BreakerPlace(stage, next.threads[t]))
    ensures stage.Asking? || stage.Succeeding? || stage.Refused? || stage.Failing? || stage.OutsideFailing?
  {
    assert BT.AdvanceFrom(b, t, pc).Some?;
  }

  lemma SlotStart(l: LT.Shared, t: nat, m: LT.Move, pc: LT.Pc)
    requires t < |l.threads| && l.threads[t] == pc && (m == LT.StartAcquire(t) || m == LT.StartRelease(t))
    ensures LT.Apply(l, m).Some? <==> pc == LT.Idle
    ensures pc == LT.Idle ==>
              exists to :: LT.Apply(l, m) == Some(LT.At(l, t, to)) &&
                (if m.StartAcquire? then SlotPlace(Acquiring, to) else ReleasePlace(to))
  {
    hide LT.Advance;
    if pc == LT.Idle {
      var to := LT.Apply(l, m).value.threads[t];
      assert LT.Apply(l, m) == Some(LT.At(l, t, to));
    }
  }

  lemma SlotGoes(l: LT.Shared, t: nat, pc: LT.Pc, stage: Stage)
    requires t < |l.threads| && l.threads[t] == pc && SlotPlace(stage, pc) && LT.Apply(l, LT.Go(t)).Some?
    ensures var next := LT.Apply(l, LT.Go(t)).value;
            && |next.threads| == |l.threads| && next.threads == l.threads[t := next.threads[t]]
            && match stage
               case Acquiring =>
                 && l.current <= next.current <= l.current + 1
                 && (next.threads[t] != LT.Idle ==>
                       SlotPlace(if next.current > l.current then Taken else Acquiring, next.threads[t]))
               case Taken => next.current == l.current && next.threads[t] == LT.Idle
               case _ =>
                 && next.current == l.current - (if next.threads[t] == LT.Idle then 1 else 0)
                 && (next.threads[t] != LT.Idle ==> ReleasePlace(next.threads[t]))
    ensures stage.Acquiring? || stage.Taken? || stage.Returning? || stage.OutsideReturning? || stage.Releasing?
  {
    assert LT.Advance(l, t, pc).Some?;
  }

  lemma SlotGivesUp(l: LT.Shared, t: nat)
    requires t < |l.threads| && LT.Apply(l, LT.GiveUp(t)).Some?
    ensures LT.Apply(l, LT.GiveUp(t)).value == LT.At(l, t, LT.Idle)
  {
    hide LT.Advance;
  }

  // ---- the books ----

  function Sum(stages: seq<Stage>, weight: Stage -> int): int {
    if stages == [] then 0 else weight(stages[0]) + Sum(stages[1..], weight)
  }

  lemma {:induction false} SumUpdate(stages: seq<Stage>, t: nat, to: Stage, weight: Stage -> int)
    requires t < |stages|
    ensures Sum(stages[t := to], weight) == Sum(stages, weight) - weight(stages[t]) + weight(to)
  {
    if t == 0 {
      assert stages[t := to][1..] == stages[1..];
    } else {
      assert stages[t := to][1..] == stages[1..][t - 1 := to];
      SumUpdate(stages[1..], t - 1, to, weight);
    }
  }

  lemma {:induction false} SumNone(stages: seq<Stage>, weight: Stage -> int)
    requires forall i | 0 <= i < |stages| :: weight(stages[i]) == 0
    ensures Sum(stages, weight) == 0
  {
    if stages != [] {
      SumNone(stages[1..], weight);
    }
  }

  /** Holds a slot that is neither kept by a success nor given back yet. */
  function Holding(stage: Stage): int {
    if stage.Taken? || stage.Operating? || stage.Failing? || stage.Returning? then 1 else 0
  }

  /** Has paid the bucket and is not yet let through or refused. */
  function Paid(stage: Stage): int {
    if stage.Acquiring? || stage.Taken? then 1 else 0
  }

  /** Is a call whose fate at the gate is open. */
  function Undecided(stage: Stage): int {
    if stage.Asking? || stage.Paying? then 1 else Paid(stage)
  }

  /** Runs its operation, or is giving up its slot after it failed. */
  function Running(stage: Stage): int {
    if stage.Operating? || stage.Failing? || stage.Returning? then 1 else 0
  }

  /** Has told the breaker of a failure that is not yet in the books as one. */
  function Telling(stage: Stage): int {
    if stage.Failing? || stage.Returning? || stage.OutsideFailing? || stage.OutsideReturning? then 1 else 0
  }

  function InFlight(g: Shared, weight: Stage -> int): int {
    Sum(g.stages, weight)
  }

  /** Slots, tokens, calls, operations and what the breaker is told are accounted for. */
  ghost predicate Balanced(g: Shared, tokens: int) {
    var b := g.books;
    && g.slots.current == b.succeeded - b.releases - b.outsideFailures + InFlight(g, Holding)
    && tokens == b.slotRefused + b.executed + InFlight(g, Paid)
    && b.calls == b.breakerRefused + b.rateRefused + b.slotRefused + b.executed + InFlight(g, Undecided)
    && b.executed == b.succeeded + b.failed + InFlight(g, Running)
    && b.failuresTold == b.rateRefused + b.slotRefused + b.failed + b.outsideFailures + InFlight(g, Telling)
    && b.successesTold == b.succeeded + b.outsideSuccesses
  }

  /** What is written into the books for a thread that goes from stage x to stage y. */
  predicate Entry(b: Books, c: Books, slots: int, x: Stage, y: Stage, tokens: int) {
    && slots == (c.succeeded - b.succeeded) - (c.releases - b.releases) - (c.outsideFailures - b.outsideFailures)
                + Holding(y) - Holding(x)
    && tokens == (c.slotRefused - b.slotRefused) + (c.executed - b.executed) + Paid(y) - Paid(x)
    && c.calls - b.calls ==
       (c.breakerRefused - b.breakerRefused) + (c.rateRefused - b.rateRefused)
       + (c.slotRefused - b.slotRefused) + (c.executed - b.executed) + Undecided(y) - Undecided(x)
    && c.executed - b.executed == (c.succeeded - b.succeeded) + (c.failed - b.failed) + Running(y) - Running(x)
    && c.failuresTold - b.failuresTold ==
       (c.rateRefused - b.rateRefused) + (c.slotRefused - b.slotRefused) + (c.failed - b.failed)
       + (c.outsideFailures - b.outsideFailures) + Telling(y) - Telling(x)
    && c.successesTold - b.successesTold == (c.succeeded - b.succeeded) + (c.outsideSuccesses - b.outsideSuccesses)
  }

  /** A move of thread t changes its own places only, keeps it inside the part that its
      stage names, and writes into the books what it changes. */
  ghost predicate Booked(g: Shared, next: Shared, t: nat, tokens: int) {
    && OnlyOwn(g, next, t)
    && PlacedAt(next, t)
    && Entry(g.books, next.books, next.slots.current - g.slots.current, g.stages[t], next.stages[t], tokens)
  }

  /** The token that a move takes from the bucket. */
  function Token(g: Shared, m: Move): int {
    if m.Pay? && RL.AllowStep(g.bucket, g.breaker.now).1 then 1 else 0
  }

  /** A thread outside both parts begins a call of the breaker. */
  lemma EntersBreaker(g: Shared, bucket: RL.Bucket, books: Books, t: nat, m: BT.Move, stage: Stage)
    requires t < |g.stages| == |g.breaker.threads| == |g.slots.threads|
    requires g.breaker.threads[t] == BT.Idle && g.slots.threads[t] == LT.Idle
    requires || (m == BT.StartAllow(t) && stage.Asking?)
             || (m == BT.StartSuccess(t) && stage.Succeeding?)
             || (m == BT.StartFailure(t) && (stage.Refused? || stage.Failing? || stage.OutsideFailing?))
    ensures var r := ToBreaker(g.(bucket := bucket, books := books), t, m, stage);
            && r.Some? && OnlyOwn(g, r.value, t) && PlacedAt(r.value, t)
            && r.value.stages[t] == stage && r.value.books == Told(books, m) && r.value.slots == g.slots
  {
    BreakerMove(g.breaker, t, m, g.breaker.threads[t]);
    hide BT.Apply;
  }

  /** A thread outside both parts begins a call of the limiter. */
  lemma EntersSlots(g: Shared, bucket: RL.Bucket, books: Books, t: nat, m: LT.Move, stage: Stage)
    requires t < |g.stages| == |g.breaker.threads| == |g.slots.threads|
    requires g.breaker.threads[t] == BT.Idle && g.slots.threads[t] == LT.Idle
    requires || (m == LT.StartAcquire(t) && stage.Acquiring?)
             || (m == LT.StartRelease(t) && (stage.Returning? || stage.OutsideReturning? || stage.Releasing?))
    ensures var r := ToSlots(g.(bucket := bucket, books := books), t, m, stage);
            && r.Some? && OnlyOwn(g, r.value, t) && PlacedAt(r.value, t)
            && r.value.stages[t] == stage && r.value.books == books && r.value.slots.current == g.slots.current
  {
    SlotStart(g.slots, t, m, g.slots.threads[t]);
    hide LT.Apply;
  }

  lemma OutsideBoth(g: Shared, t: nat)
    requires Placed(g) && t < |g.stages| && (g.stages[t].Out? || g.stages[t].Paying? || g.stages[t].Operating?)
    ensures g.breaker.threads[t] == BT.Idle && g.slots.threads[t] == LT.Idle
  {
    assert PlacedAt(g, t);
  }

  lemma BookedExecute(g: Shared, m: Move)
    requires Placed(g) && m.Execute? && Apply(g, m).Some?
    ensures Booked(g, Apply(g, m).value, m.t, 0)
  {
    var t, b := m.t, g.books;
    OutsideBoth(g, t);
    hide ToBreaker, OnlyOwn, BT.Apply, LT.Apply, Placed, PlacedAt;
    EntersBreaker(g, g.bucket, b.(calls := b.calls + 1), t, BT.StartAllow(t), Asking);
  }

  lemma BookedReleaseCall(g: Shared, m: Move)
    requires Placed(g) && m.Release? && Apply(g, m).Some?
    ensures Booked(g, Apply(g, m).value, m.t, 0)
  {
    OutsideBoth(g, m.t);
    hide ToBreaker, ToSlots, OnlyOwn, BT.Apply, LT.Apply, Placed, PlacedAt;
    EntersSlots(g, g.bucket, g.books, m.t, LT.StartRelease(m.t), Releasing);
  }

  lemma BookedOutsideFailure(g: Shared, m: Move)
    requires Placed(g) && m.OutsideFailure? && Apply(g, m).Some?
    ensures Booked(g, Apply(g, m).value, m.t, 0)
  {
    OutsideBoth(g, m.t);
    hide ToBreaker, ToSlots, OnlyOwn, BT.Apply, LT.Apply, Placed, PlacedAt;
    EntersBreaker(g, g.bucket, g.books, m.t, BT.StartFailure(m.t), OutsideFailing);
  }

  lemma BookedOutsideSuccess(g: Shared, m: Move)
    requires Placed(g) && m.OutsideSuccess? && Apply(g, m).Some?
    ensures Booked(g, Apply(g, m).value, m.t, 0)
  {
    OutsideBoth(g, m.t);
    hide ToBreaker, ToSlots, OnlyOwn, BT.Apply, LT.Apply, Placed, PlacedAt;
    EntersBreaker(g, g.bucket, g.books.(outsideSuccesses := g.books.outsideSuccesses + 1),
                  m.t, BT.StartSuccess(m.t), Succeeding);
  }

  lemma BookedFinish(g: Shared, m: Move)
    requires Placed(g) && m.Finish? && Apply(g, m).Some?
    ensures Booked(g, Apply(g, m).value, m.t, 0)
  {
    var t, b := m.t, g.books;
    OutsideBoth(g, t);
    hide ToBreaker, OnlyOwn, BT.Apply, LT.Apply, Placed, PlacedAt;
    EntersBreaker(g, g.bucket, b.(succeeded := b.succeeded + 1), t, BT.StartSuccess(t), Succeeding);
    EntersBreaker(g, g.bucket, b, t, BT.StartFailure(t), Failing);
  }

  lemma BookedPay(g: Shared, m: Move)
    requires Placed(g) && m.Pay? && Apply(g, m).Some?
    ensures Booked(g, Apply(g, m).value, m.t, Token(g, m))
  {
    var t := m.t;
    OutsideBoth(g, t);
    hide ToBreaker, ToSlots, RL.AllowStep, OnlyOwn, BT.Apply, LT.Apply, Placed, PlacedAt;
    var bucket, books := RL.AllowStep(g.bucket, g.breaker.now).0, g.books.(times := g.books.times + [g.breaker.now]);
    EntersSlots(g, bucket, books, t, LT.StartAcquire(t), Acquiring);
    EntersBreaker(g, bucket, books.(rateRefused := books.rateRefused + 1), t, BT.StartFailure(t), Refused);
  }

  /** A move that only changes the thread's place in the breaker. */
  lemma MovesInBreaker(g: Shared, t: nat)
    requires Placed(g) && t < |g.stages| && BT.Apply(g.breaker, BT.Go(t)).Some?
    ensures var next := g.(breaker := BT.Apply(g.breaker, BT.Go(t)).value);
            && OnlyOwn(g, next, t)
            && g.slots.threads[t] == LT.Idle
            && (next.breaker.threads[t] != BT.Idle ==> PlacedAt(next, t))
    ensures var stage := g.stages[t];
            stage.Asking? || stage.Succeeding? || stage.Refused? || stage.Failing? || stage.OutsideFailing?
  {
    assert PlacedAt(g, t);
    hide BT.Apply;
    BreakerGoes(g.breaker, t, g.breaker.threads[t], g.stages[t]);
  }

  lemma OwnAgain(g: Shared, moved: Shared, next: Shared, t: nat)
    requires OnlyOwn(g, moved, t) && OnlyOwn(moved, next, t)
    ensures OnlyOwn(g, next, t)
  {
  }

  lemma OwnStage(g: Shared, moved: Shared, t: nat, stage: Stage, books: Books)
    requires OnlyOwn(g, moved, t)
    ensures OnlyOwn(g, At(moved, t, stage).(books := books), t)
  {
  }

  lemma BookedBreaker(g: Shared, m: Move)
    requires Placed(g) && m.BreakerGo? && Apply(g, m).Some?
    ensures Booked(g, Apply(g, m).value, m.t, 0)
  {
    var t, stage, b := m.t, g.stages[m.t], g.books;
    MovesInBreaker(g, t);
    hide BT.Apply, ToSlots, OnlyOwn, Placed;
    var moved := g.(breaker := BT.Apply(g.breaker, BT.Go(t)).value);
    if moved.breaker.threads[t] == BT.Idle {
      if stage.Failing? {
        EntersSlots(moved, g.bucket, b, t, LT.StartRelease(t), Returning);
        OwnAgain(g, moved, Apply(g, m).value, t);
      } else if stage.OutsideFailing? {
        EntersSlots(moved, g.bucket, b, t, LT.StartRelease(t), OutsideReturning);
        OwnAgain(g, moved, Apply(g, m).value, t);
      } else {
        OwnStage(g, moved, t, Apply(g, m).value.stages[t], Apply(g, m).value.books);
      }
    }
  }

  /** A refusal for want of a slot: the limiter has returned with nothing counted. */
  lemma BookedRefusal(g: Shared, moved: Shared, t: nat)
    requires OnlyOwn(g, moved, t) && g.stages[t].Acquiring? && moved == g.(slots := moved.slots)
    requires g.breaker.threads[t] == BT.Idle && moved.slots.threads[t] == LT.Idle && moved.slots.current == g.slots.current
    ensures SlotRefusal(moved, t).Some? && Booked(g, SlotRefusal(moved, t).value, t, 0)
  {
    var b := g.books;
    hide ToBreaker;
    EntersBreaker(moved, g.bucket, b.(slotRefused := b.slotRefused + 1), t, BT.StartFailure(t), Refused);
    OwnAgain(g, moved, SlotRefusal(moved, t).value, t);
    hide OnlyOwn, PlacedAt;
  }

  lemma BookedGiveUp(g: Shared, m: Move)
    requires Placed(g) && m.GiveUp? && Apply(g, m).Some?
    ensures Booked(g, Apply(g, m).value, m.t, 0)
  {
    var t := m.t;
    assert PlacedAt(g, t);
    SlotGivesUp(g.slots, t);
    hide LT.Apply, SlotRefusal, Booked;
    BookedRefusal(g, g.(slots := LT.At(g.slots, t, LT.Idle)), t);
  }

  /** A move that only changes the thread's place in the limiter. */
  lemma MovesInSlots(g: Shared, t: nat)
    requires Placed(g) && t < |g.stages| && LT.Apply(g.slots, LT.Go(t)).Some?
    ensures OnlyOwn(g, g.(slots := LT.Apply(g.slots, LT.Go(t)).value), t)
    ensures g.breaker.threads[t] == BT.Idle
    ensures SlotPlace(g.stages[t], g.slots.threads[t])
  {
    assert PlacedAt(g, t);
    hide LT.Apply;
    SlotGoes(g.slots, t, g.slots.threads[t], g.stages[t]);
  }

  lemma BookedAcquire(g: Shared, m: Move)
    requires Placed(g) && m.SlotGo? && Apply(g, m).Some? && (g.stages[m.t].Acquiring? || g.stages[m.t].Taken?)
    ensures Booked(g, Apply(g, m).value, m.t, 0)
  {
    var t, stage := m.t, g.stages[m.t];
    MovesInSlots(g, t);
    SlotGoes(g.slots, t, g.slots.threads[t], stage);
    hide LT.Apply, SlotRefusal, OnlyOwn, Placed;
    var moved := g.(slots := LT.Apply(g.slots, LT.Go(t)).value);
    if stage.Acquiring? && moved.slots.threads[t] == LT.Idle && moved.slots.current == g.slots.current {
      BookedRefusal(g, moved, t);
    } else {
      OwnStage(g, moved, t, Apply(g, m).value.stages[t], Apply(g, m).value.books);
    }
  }

  lemma BookedRelease(g: Shared, m: Move)
    requires Placed(g) && m.SlotGo? && Apply(g, m).Some? && !g.stages[m.t].Acquiring? && !g.stages[m.t].Taken?
    ensures Booked(g, Apply(g, m).value, m.t, 0)
  {
    var t, stage := m.t, g.stages[m.t];
    MovesInSlots(g, t);
    SlotGoes(g.slots, t, g.slots.threads[t], stage);
    hide LT.Apply, OnlyOwn, Placed;
    var moved := g.(slots := LT.Apply(g.slots, LT.Go(t)).value);
    OwnStage(g, moved, t, Apply(g, m).value.stages[t], Apply(g, m).value.books);
  }

  lemma BookedStep(g: Shared, m: Move)
    requires Placed(g) && Apply(g, m).Some? && !m.Tick?
    ensures Booked(g, Apply(g, m).value, m.t, Token(g, m))
  {
    hide Apply, Booked;
    match m
    case BreakerGo(_) => BookedBreaker(g, m);
    case Pay(_) => BookedPay(g, m);
    case GiveUp(_) => BookedGiveUp(g, m);
    case Finish(_, _) => BookedFinish(g, m);
    case SlotGo(t) =>
      AtThread(g, m);
      if g.stages[t].Acquiring? || g.stages[t].Taken? { BookedAcquire(g, m); } else { BookedRelease(g, m); }
    case Execute(_) => BookedExecute(g, m);
    case Release(_) => BookedReleaseCall(g, m);
    case OutsideFailure(_) => BookedOutsideFailure(g, m);
    case OutsideSuccess(_) => BookedOutsideSuccess(g, m);
  }

  lemma AtThread(g: Shared, m: Move)
    requires Apply(g, m).Some? && !m.Tick?
    ensures m.t < |g.stages|
  {
  }

  // ---- what every run keeps ----

  lemma PlacedMove(g: Shared, next: Shared, t: nat, tokens: int)
    requires Placed(g) && Booked(g, next, t, tokens)
    ensures Placed(next)
  {
    hide BreakerPlace, SlotPlace, Entry;
    forall u | 0 <= u < |next.stages| ensures PlacedAt(next, u) {
      if u != t {
        assert PlacedAt(g, u);
      }
    }
  }

  lemma BalancedMove(g: Shared, next: Shared, t: nat, before: int, tokens: int)
    requires Balanced(g, before) && Booked(g, next, t, tokens)
    ensures Balanced(next, before + tokens)
  {
    SumUpdate(g.stages, t, next.stages[t], Holding);
    SumUpdate(g.stages, t, next.stages[t], Paid);
    SumUpdate(g.stages, t, next.stages[t], Undecided);
    SumUpdate(g.stages, t, next.stages[t], Running);
    SumUpdate(g.stages, t, next.stages[t], Telling);
    assert next.stages == g.stages[t := next.stages[t]];
    hide Sum, OnlyOwn, PlacedAt, Holding, Paid, Undecided, Running, Telling;
  }

  /** The bucket is a bucket that saw the calls in the books, on a monotone clock. */
  ghost predicate BucketHistory(g: Shared, b0: RL.Bucket, t0: int) {
    && g.bucket == RL.After(b0, g.books.times)
    && RL.Monotone(t0, g.books.times)
    && RL.End(t0, g.books.times) <= g.breaker.now
  }

  ghost predicate Inv(g: Shared, b0: RL.Bucket, t0: int) {
    Placed(g) && BucketHistory(g, b0, t0) && Balanced(g, RL.Admitted(b0, g.books.times))
  }

  lemma ClockStands(b: BT.Shared, m: BT.Move)
    requires BT.Apply(b, m).Some? && !m.Tick?
    ensures BT.Apply(b, m).value.now == b.now
  {
  }

  lemma EntryKeepsClock(g: Shared, t: nat, m: BT.Move, stage: Stage)
    requires t < |g.stages| && ToBreaker(g, t, m, stage).Some? && !m.Tick?
    ensures var next := ToBreaker(g, t, m, stage).value;
            next.breaker.now == g.breaker.now && next.bucket == g.bucket && next.books.times == g.books.times
  {
    ClockStands(g.breaker, m);
    hide BT.Apply;
  }

  lemma RefusalKeepsClock(g: Shared, t: nat)
    requires t < |g.stages| && SlotRefusal(g, t).Some?
    ensures var next := SlotRefusal(g, t).value;
            next.breaker.now == g.breaker.now && next.bucket == g.bucket && next.books.times == g.books.times
  {
    var b := g.books;
    hide ToBreaker;
    EntryKeepsClock(g.(books := b.(slotRefused := b.slotRefused + 1)), t, BT.StartFailure(t), Refused);
  }

  lemma CallsPayNothing(g: Shared, m: Move)
    requires Apply(g, m).Some? && (m.Execute? || m.Release? || m.OutsideFailure? || m.OutsideSuccess? || m.Finish?)
    ensures var next := Apply(g, m).value;
            next.breaker.now == g.breaker.now && next.bucket == g.bucket && next.books.times == g.books.times
  {
    var t, b := m.t, g.books;
    hide ToBreaker, LT.Apply, BT.Apply;
    match m {
      case Execute(_) => EntryKeepsClock(g.(books := b.(calls := b.calls + 1)), t, BT.StartAllow(t), Asking);
      case OutsideFailure(_) => EntryKeepsClock(g, t, BT.StartFailure(t), OutsideFailing);
      case OutsideSuccess(_) =>
        EntryKeepsClock(g.(books := b.(outsideSuccesses := b.outsideSuccesses + 1)), t, BT.StartSuccess(t), Succeeding);
      case Release(_) =>
      case Finish(_, ok) =>
        if ok {
          EntryKeepsClock(g.(books := b.(succeeded := b.succeeded + 1)), t, BT.StartSuccess(t), Succeeding);
        } else {
          EntryKeepsClock(g, t, BT.StartFailure(t), Failing);
        }
    }
  }

  lemma PartsPayNothing(g: Shared, m: Move)
    requires Apply(g, m).Some? && (m.BreakerGo? || m.SlotGo? || m.GiveUp?)
    ensures var next := Apply(g, m).value;
            next.breaker.now == g.breaker.now && next.bucket == g.bucket && next.books.times == g.books.times
  {
    var t := m.t;
    hide ToBreaker, SlotRefusal, LT.Apply, BT.Apply;
    match m {
      case BreakerGo(_) => ClockStands(g.breaker, BT.Go(t));
      case GiveUp(_) => RefusalKeepsClock(g.(slots := LT.Apply(g.slots, LT.GiveUp(t)).value), t);
      case SlotGo(_) =>
        var moved := g.(slots := LT.Apply(g.slots, LT.Go(t)).value);
        if SlotRefusal(moved, t).Some? {
          RefusalKeepsClock(moved, t);
        }
    }
  }

  /** Only a call of the bucket changes the bucket, and only Tick the clock. */
  lemma OnlyPayPays(g: Shared, m: Move)
    requires Apply(g, m).Some? && !m.Tick? && !m.Pay?
    ensures var next := Apply(g, m).value;
            next.breaker.now == g.breaker.now && next.bucket == g.bucket && next.books.times == g.books.times
  {
    if m.BreakerGo? || m.SlotGo? || m.GiveUp? {
      PartsPayNothing(g, m);
    } else {
      CallsPayNothing(g, m);
    }
    hide Apply;
  }

  lemma PayPays(g: Shared, m: Move)
    requires Apply(g, m).Some? && m.Pay?
    ensures var next := Apply(g, m).value;
            && next.breaker.now == g.breaker.now
            && next.bucket == RL.AllowStep(g.bucket, g.breaker.now).0
            && next.books.times == g.books.times + [g.breaker.now]
  {
    var t := m.t;
    var (bucket, ok) := RL.AllowStep(g.bucket, g.breaker.now);
    var books := g.books.(times := g.books.times + [g.breaker.now]);
    hide RL.AllowStep, LT.Apply;
    if !ok {
      hide ToBreaker;
      EntryKeepsClock(g.(bucket := bucket, books := books.(rateRefused := books.rateRefused + 1)),
                      t, BT.StartFailure(t), Refused);
    }
  }

  lemma BucketStep(g: Shared, m: Move, b0: RL.Bucket, t0: int)
    requires BucketHistory(g, b0, t0) && Apply(g, m).Some?
    ensures BucketHistory(Apply(g, m).value, b0, t0)
    ensures RL.Admitted(b0, Apply(g, m).value.books.times) == RL.Admitted(b0, g.books.times) + Token(g, m)
  {
    if m.Tick? {
    } else if m.Pay? {
      PayPays(g, m);
      var times := g.books.times + [g.breaker.now];
      assert times[..|times| - 1] == g.books.times;
      hide Apply, RL.AllowStep;
    } else {
      OnlyPayPays(g, m);
      hide Apply, RL.After, RL.Admitted, RL.Monotone;
    }
  }

  lemma InvStep(g: Shared, m: Move, b0: RL.Bucket, t0: int)
    requires Inv(g, b0, t0) && Apply(g, m).Some?
    ensures Inv(Apply(g, m).value, b0, t0)
  {
    BucketStep(g, m, b0, t0);
    hide BucketHistory, RL.Admitted, Token;
    if m.Tick? {
      var next := Apply(g, m).value;
      forall t | 0 <= t < |next.stages| ensures PlacedAt(next, t) {
        assert PlacedAt(g, t);
      }
      assert InFlight(next, Holding) == InFlight(g, Holding);
    } else {
      BookedStep(g, m);
      hide Apply, Booked, Balanced, Placed;
      PlacedMove(g, Apply(g, m).value, m.t, Token(g, m));
      BalancedMove(g, Apply(g, m).value, m.t, RL.Admitted(b0, g.books.times), Token(g, m));
    }
  }

  lemma {:induction false} InvRun(g: Shared, moves: seq<Move>, b0: RL.Bucket, t0: int)
    requires Inv(g, b0, t0) && Run(g, moves).Some?
    ensures Inv(Run(g, moves).value, b0, t0)
    decreases |moves|
  {
    if moves != [] {
      InvStep(g, moves[0], b0, t0);
      hide Apply, Inv;
      InvRun(Apply(g, moves[0]).value, moves[1..], b0, t0);
    }
  }

  lemma InvStart(c: Gate.Config, now: int, n: nat)
    ensures Inv(Start(c, now, n), RL.NewBucket(c.maxRequestsPerSecond, now), now)
  {
    var g := Start(c, now, n);
    SumNone(g.stages, Holding);
    SumNone(g.stages, Paid);
    SumNone(g.stages, Undecided);
    SumNone(g.stages, Running);
    SumNone(g.stages, Telling);
  }

  /** Main result: in every reachable state of every number of threads the books
      balance: the slot counter, the tokens taken, the calls and the operations, each
      up to the threads that are on their way. */
  lemma {:induction false} BooksBalance(c: Gate.Config, now: int, n: nat, moves: seq<Move>)
    requires Run(Start(c, now, n), moves).Some?
    ensures var g := Run(Start(c, now, n), moves).value;
            Balanced(g, RL.Admitted(RL.NewBucket(c.maxRequestsPerSecond, now), g.books.times))
  {
    InvStart(c, now, n);
    InvRun(Start(c, now, n), moves, RL.NewBucket(c.maxRequestsPerSecond, now), now);
  }

  /** Main result: whenever no call is in progress, however the calls before were
      interleaved, they are all accounted for, and the slot counter is what the
      successes took minus what Releases and outside failures gave back. */
  lemma {:induction false} Quiescent(c: Gate.Config, now: int, n: nat, moves: seq<Move>)
    requires Run(Start(c, now, n), moves).Some?
    requires forall t | 0 <= t < |Run(Start(c, now, n), moves).value.stages| ::
               Run(Start(c, now, n), moves).value.stages[t] == Out
    ensures var g := Run(Start(c, now, n), moves).value;
            var b := g.books;
            && g.slots.current == b.succeeded - b.releases - b.outsideFailures
            && b.calls == b.breakerRefused + b.rateRefused + b.slotRefused + b.failed + b.succeeded
            && b.failuresTold == b.rateRefused + b.slotRefused + b.failed + b.outsideFailures
            && b.successesTold == b.succeeded + b.outsideSuccesses
  {
    BooksBalance(c, now, n, moves);
    var g := Run(Start(c, now, n), moves).value;
    hide Run, Start;
    SumNone(g.stages, Holding);
    SumNone(g.stages, Undecided);
    SumNone(g.stages, Running);
    SumNone(g.stages, Telling);
  }

  lemma {:induction false} SumNonNegative(stages: seq<Stage>, weight: Stage -> int)
    requires forall stage :: weight(stage) >= 0
    ensures Sum(stages, weight) >= 0
  {
    if stages != [] {
      SumNonNegative(stages[1..], weight);
    }
  }

  /** Main result: under every interleaving, the operations begun never exceed maxTokens
      plus the whole tokens of the time since construction. */
  lemma {:induction false} ExecutedBound(c: Gate.Config, now: int, n: nat, moves: seq<Move>)
    requires Run(Start(c, now, n), moves).Some?
    ensures var g := Run(Start(c, now, n), moves).value;
            var b0 := RL.NewBucket(c.maxRequestsPerSecond, now);
            g.books.executed <= b0.maxTokens + RL.WholeTokens(RL.Inflow(g.breaker.now - now, b0.refillRate))
  {
    InvStart(c, now, n);
    InvRun(Start(c, now, n), moves, RL.NewBucket(c.maxRequestsPerSecond, now), now);
    hide Run, Start, Inv;
    PaidBound(Run(Start(c, now, n), moves).value, c.maxRequestsPerSecond, now);
  }

  lemma PaidBound(g: Shared, rate: int, t0: int)
    requires Inv(g, RL.NewBucket(rate, t0), t0)
    ensures var b0 := RL.NewBucket(rate, t0);
            g.books.executed <= b0.maxTokens + RL.WholeTokens(RL.Inflow(g.breaker.now - t0, b0.refillRate))
  {
    var b0, last := RL.NewBucket(rate, t0), RL.End(t0, g.books.times);
    SumNonNegative(g.stages, Paid);
    assert g.books.executed <= RL.Admitted(b0, g.books.times);
    assert RL.Monotone(t0, g.books.times) && last <= g.breaker.now && b0.refillRate > 0;
    hide Inv, RL.Inflow, RL.Admitted, RL.NewBucket, RL.WholeTokens, RL.Monotone;
    RL.TotalBound(rate, t0, g.books.times);
    RL.InflowGrows(last - t0, g.breaker.now - t0, b0.refillRate);
    RL.WholeTokensGrow(RL.Inflow(last - t0, b0.refillRate), RL.Inflow(g.breaker.now - t0, b0.refillRate));
  }

  // ---- what is proved of the parts holds inside the gate ----

  /** One move of the breaker's own model, or none. */
  ghost predicate BreakerSteps(a: BT.Shared, b: BT.Shared) {
    a == b || exists m :: BT.Apply(a, m) == Some(b)
  }

  ghost predicate SlotsStep(a: LT.Shared, b: LT.Shared) {
    a == b || exists m :: LT.Apply(a, m) == Some(b)
  }

  lemma BreakerPart(g: Shared, m: Move)
    requires Apply(g, m).Some?
    ensures BreakerSteps(g.breaker, Apply(g, m).value.breaker)
  {
    var t, b, next := if m.Tick? then 0 else m.t, g.breaker, Apply(g, m).value.breaker;
    hide BT.Apply, LT.Apply, RL.AllowStep;
    match m {
      case Tick(d) => BreakerTicks(b, d);
      case Execute(_) => assert BT.Apply(b, BT.StartAllow(t)) == Some(next);
      case Release(_) =>
      case OutsideFailure(_) => assert BT.Apply(b, BT.StartFailure(t)) == Some(next);
      case OutsideSuccess(_) => assert BT.Apply(b, BT.StartSuccess(t)) == Some(next);
      case BreakerGo(_) => assert BT.Apply(b, BT.Go(t)) == Some(next);
      case Pay(_) => assert next == b || BT.Apply(b, BT.StartFailure(t)) == Some(next);
      case SlotGo(_) => assert next == b || BT.Apply(b, BT.StartFailure(t)) == Some(next);
      case GiveUp(_) => assert BT.Apply(b, BT.StartFailure(t)) == Some(next);
      case Finish(_, ok) => assert BT.Apply(b, if ok then BT.StartSuccess(t) else BT.StartFailure(t)) == Some(next);
    }
  }

  lemma BreakerTicks(b: BT.Shared, d: nat)
    ensures BT.Apply(b, BT.Tick(d)) == Some(b.(now := b.now + d))
  {
  }

  lemma SlotsPart(g: Shared, m: Move)
    requires Apply(g, m).Some?
    ensures SlotsStep(g.slots, Apply(g, m).value.slots)
  {
    var t, l, next := if m.Tick? then 0 else m.t, g.slots, Apply(g, m).value.slots;
    hide BT.Apply, LT.Apply, RL.AllowStep;
    match m {
      case Release(_) => assert LT.Apply(l, LT.StartRelease(t)) == Some(next);
      case BreakerGo(_) => assert next == l || LT.Apply(l, LT.StartRelease(t)) == Some(next);
      case Pay(_) => assert next == l || LT.Apply(l, LT.StartAcquire(t)) == Some(next);
      case SlotGo(_) => assert LT.Apply(l, LT.Go(t)) == Some(next);
      case GiveUp(_) => assert LT.Apply(l, LT.GiveUp(t)) == Some(next);
      case _ =>
    }
  }

  lemma {:induction false} PartsReach(g: Shared, moves: seq<Move>, b0: BT.Shared, l0: LT.Shared)
    requires BT.Reaches(b0, g.breaker) && LT.Reaches(l0, g.slots) && Run(g, moves).Some?
    ensures BT.Reaches(b0, Run(g, moves).value.breaker) && LT.Reaches(l0, Run(g, moves).value.slots)
    decreases |moves|
  {
    if moves != [] {
      var next := Apply(g, moves[0]).value;
      BreakerPart(g, moves[0]);
      SlotsPart(g, moves[0]);
      hide Apply, BT.Apply, LT.Apply, BT.Reaches, LT.Reaches;
      if next.breaker != g.breaker {
        var m :| BT.Apply(g.breaker, m) == Some(next.breaker);
        BT.ReachesNext(b0, g.breaker, m);
      }
      if next.slots != g.slots {
        var m :| LT.Apply(g.slots, m) == Some(next.slots);
        LT.ReachesNext(l0, g.slots, m);
      }
      PartsReach(next, moves[1..], b0, l0);
    }
  }

  /** Main result: whatever the threads do with the gate, its breaker and its limiter
      are in states that their own threaded models reach from new ones; so all that is
      proved there of every interleaving holds inside the gate. */
  lemma {:induction false} PartsAreParts(c: Gate.Config, now: int, n: nat, moves: seq<Move>)
    requires Run(Start(c, now, n), moves).Some?
    ensures var g := Run(Start(c, now, n), moves).value;
            && BT.Reaches(BT.Start(c.maxFailures, c.resetTimeout, now, n), g.breaker)
            && LT.Reaches(LT.Start(c.maxConnections, c.mode, c.timeout, n), g.slots)
  {
    var b0, l0 := BT.Start(c.maxFailures, c.resetTimeout, now, n), LT.Start(c.maxConnections, c.mode, c.timeout, n);
    assert BT.Run(b0, []) == Some(b0) && LT.Run(l0, []) == Some(l0);
    PartsReach(Start(c, now, n), moves, b0, l0);
  }

  /** In drop mode the slots kept by successes and those of the threads between taking
      and giving back never exceed the limit together: so many operations at most run
      at the same time. */
  lemma {:induction false} RunningBound(c: Gate.Config, now: int, n: nat, moves: seq<Move>)
    requires c.mode == CL.Drop && Run(Start(c, now, n), moves).Some?
    ensures var g := Run(Start(c, now, n), moves).value;
            var b := g.books;
            b.succeeded - b.releases - b.outsideFailures + InFlight(g, Holding)
            <= CL.NewLimiter(c.maxConnections, c.mode, c.timeout).maxConnections
  {
    BooksBalance(c, now, n, moves);
    PartsAreParts(c, now, n, moves);
    hide Run, Start;
    var g := Run(Start(c, now, n), moves).value;
    var slotMoves :| LT.Run(LT.Start(c.maxConnections, c.mode, c.timeout, n), slotMoves) == Some(g.slots);
    LT.DropModeBound(c.maxConnections, c.timeout, n, slotMoves);
  }

  /** A thread never waits for itself: one that has to pay can pay, one whose operation
      ends can go on, and one outside can begin any call. */
  lemma {:induction false} NeverBlockedOutside(c: Gate.Config, now: int, n: nat, moves: seq<Move>, m: Move)
    requires Run(Start(c, now, n), moves).Some? && !m.Tick?
    requires var g := Run(Start(c, now, n), moves).value;
             m.t < |g.stages| &&
             match g.stages[m.t]
             case Out => m.Execute? || m.Release? || m.OutsideFailure? || m.OutsideSuccess?
             case Paying => m.Pay?
             case Operating => m.Finish?
             case _ => false
    ensures Apply(Run(Start(c, now, n), moves).value, m).Some?
  {
    InvStart(c, now, n);
    InvRun(Start(c, now, n), moves, RL.NewBucket(c.maxRequestsPerSecond, now), now);
    hide Run, Start, RL.AllowStep;
    var g, t := Run(Start(c, now, n), moves).value, m.t;
    OutsideBoth(g, t);
    assert |g.breaker.threads| == |g.slots.threads| == |g.stages|;
    hide Inv, Placed;
    BreakerMove(g.breaker, t, BT.StartAllow(t), BT.Idle);
    BreakerMove(g.breaker, t, BT.StartSuccess(t), BT.Idle);
    BreakerMove(g.breaker, t, BT.StartFailure(t), BT.Idle);
    SlotStart(g.slots, t, LT.StartAcquire(t), LT.Idle);
    SlotStart(g.slots, t, LT.StartRelease(t), LT.Idle);
    hide BT.Apply, LT.Apply;
  }
}
