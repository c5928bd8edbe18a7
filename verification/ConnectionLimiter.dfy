/** The connection limiter of gate.go with every method atomic. */
module ConnectionLimiter {
  import opened Wrappers

  /** "block" and "timeout" get a semaphore; every other mode string drops. */
  datatype Mode = Drop | Block | Timeout

  datatype Limiter = Limiter(maxConnections: int, mode: Mode, timeout: int, current: int, sem: Option<nat>)

  datatype Outcome = Acquired | ErrConnectionLimit | ErrContext

  const DEFAULT_MAX_CONNECTIONS := 100

  function NewLimiter(maxConnections: int, mode: Mode, timeout: int): Limiter {
    Limiter(if maxConnections > 0 then maxConnections else DEFAULT_MAX_CONNECTIONS, mode, timeout, 0,
            if mode == Drop then None else Some(0))
  }

  /** With nobody else running, a wait for the semaphore can only end by the timer or
      by the context; `contextFirst` says which of the two comes first. */
  function AcquireStep(l: Limiter, contextFirst: bool): (Limiter, Outcome) {
    match l.sem
    case None =>
      if l.current >= l.maxConnections then (l, ErrConnectionLimit) else (l.(current := l.current + 1), Acquired)
    case Some(n) =>
      if n < l.maxConnections then (l.(sem := Some(n + 1), current := l.current + 1), Acquired)
      else if l.mode == Block then (l, ErrContext)
      else if l.mode == Timeout && l.timeout > 0 && contextFirst then (l, ErrContext)
      else (l, ErrConnectionLimit)
  }

  function ReleaseStep(l: Limiter): Limiter {
    var sem := match l.sem case None => None case Some(n) => Some(if n > 0 then n - 1 else 0);
    l.(sem := sem, current := l.current - 1)
  }

  /** The places that are taken: by the channel where there is one, else by the counter. */
  function InUse(l: Limiter): int {
    if l.sem.Some? then l.sem.value else l.current
  }

  /** Which outcome comes when. A full limiter ends in the context's error only in the
      two waiting modes: always when blocking, and before the timer when there is one. */
  lemma OutcomeExactly(l: Limiter, contextFirst: bool)
    ensures var (next, r) := AcquireStep(l, contextFirst);
            && (r == Acquired <==> InUse(l) < l.maxConnections)
            && (r == ErrContext <==>
                  InUse(l) >= l.maxConnections && l.sem.Some? &&
                  (l.mode == Block || (l.mode == Timeout && l.timeout > 0 && contextFirst)))
            && (r != Acquired ==> next == l)
            && (r == Acquired ==> InUse(next) == InUse(l) + 1 && next.current == l.current + 1)
  {
  }

  /** A release right after an acquire undoes it, and without an acquire it is the
      counter that goes astray: it goes down although the channel had nothing to give. */
  lemma ReleaseUndoes(l: Limiter, contextFirst: bool)
    ensures AcquireStep(l, contextFirst).1 == Acquired ==> ReleaseStep(AcquireStep(l, contextFirst).0) == l
    ensures l.sem == Some(0) ==> ReleaseStep(l) == l.(current := l.current - 1)
  {
  }

  class Slots {
    const maxConnections: int
    const mode: Mode
    const timeout: int
    var currentConnections: int
    var sem: Option<nat>

    ghost function Model(): Limiter
      reads this
    {
      Limiter(maxConnections, mode, timeout, currentConnections, sem)
    }

    constructor (maxConnections: int, mode: Mode, timeout: int)
      ensures Model() == NewLimiter(maxConnections, mode, timeout)
      ensures this.maxConnections == (if maxConnections > 0 then maxConnections else 100)
      ensures this.mode == mode && this.timeout == timeout && currentConnections == 0
      ensures sem == if mode == Block || mode == Timeout then Some(0) else None
    {
      this.maxConnections := if maxConnections > 0 then maxConnections else DEFAULT_MAX_CONNECTIONS;
      this.mode := mode;
      this.timeout := timeout;
      currentConnections := 0;
      sem := if mode == Block || mode == Timeout then Some(0) else None;
    }

    method Acquire() returns (ok: bool)
      modifies this
      ensures sem == old(sem)
      ensures ok == (old(currentConnections) < maxConnections)
      ensures currentConnections == old(currentConnections) + if ok then 1 else 0
    {
      if currentConnections >= maxConnections {
        return false;
      }
      currentConnections := currentConnections + 1;
      return true;
    }

    method AcquireWithContext(contextFirst: bool) returns (r: Outcome)
      modifies this
      ensures (Model(), r) == AcquireStep(old(Model()), contextFirst)
    {
      if sem.None? {
        var ok := Acquire();
        return if ok then Acquired else ErrConnectionLimit;
      }
      if sem.value < maxConnections {
        sem := Some(sem.value + 1);
        currentConnections := currentConnections + 1;
        return Acquired;
      }
      match mode {
        case Block => return ErrContext;
        case Timeout =>
          if timeout <= 0 {
            return ErrConnectionLimit;
          }
          return if contextFirst then ErrContext else ErrConnectionLimit;
        case Drop => return ErrConnectionLimit;
      }
    }

    method Release()
      modifies this
      ensures Model() == ReleaseStep(old(Model()))
    {
      if sem.Some? && sem.value > 0 {
        sem := Some(sem.value - 1);
      }
      currentConnections := currentConnections - 1;
    }
  }
}
