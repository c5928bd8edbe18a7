/** The token bucket of gate.go: integer tokens, a refill truncated to whole
    tokens, and a lastRefill that only moves when at least one token is added.
    Times are nanoseconds; levels of the ideal bucket are in billionths of a token. */
module RateLimiter {
  const NANO: int := 1_000_000_000

  datatype Bucket = Bucket(tokens: int, maxTokens: int, refillRate: int, lastRefill: int)

  predicate ValidBucket(b: Bucket) {
    0 <= b.tokens <= b.maxTokens && 0 < b.maxTokens && 0 < b.refillRate
  }

  /** NewRateLimiter; a non-positive rate stands for no configuration. */
  function NewBucket(maxRequestsPerSecond: int, now: int): Bucket {
    if maxRequestsPerSecond > 0
    then Bucket(maxRequestsPerSecond * 10, maxRequestsPerSecond * 10, maxRequestsPerSecond, now)
    else Bucket(1000, 1000, 100, now)
  }

  function Min(a: int, b: int): int {
    if a < b then a else b
  }

  /** int64 conversion truncates toward zero. */
  function TruncDiv(a: int, b: int): int
    requires b > 0
  {
    if a >= 0 then a / b else -((-a) / b)
  }

  /** What flows in during a time span, in billionths of a token. */
  function Inflow(span: int, rate: int): int {
    span * rate
  }

  lemma InflowAdds(span1: int, span2: int, rate: int)
    ensures Inflow(span1 + span2, rate) == Inflow(span1, rate) + Inflow(span2, rate)
    ensures Inflow(0, rate) == 0
    ensures span2 >= 0 && rate > 0 ==> Inflow(span2, rate) >= 0
  {
  }

  function Refill(b: Bucket, now: int): Bucket {
    var add := TruncDiv(Inflow(now - b.lastRefill, b.refillRate), NANO);
    if add > 0 then b.(tokens := Min(b.tokens + add, b.maxTokens), lastRefill := now) else b
  }

  function AllowStep(b: Bucket, now: int): (Bucket, bool) {
    var r := Refill(b, now);
    if r.tokens > 0 then (r.(tokens := r.tokens - 1), true) else (r, false)
  }

  class Limiter {
    var tokens: int
    const maxTokens: int
    const refillRate: int
    var lastRefill: int

    ghost function Model(): Bucket
      reads this
    {
      Bucket(tokens, maxTokens, refillRate, lastRefill)
    }

    constructor (maxRequestsPerSecond: int, now: int)
      ensures Model() == NewBucket(maxRequestsPerSecond, now) && ValidBucket(Model())
      ensures refillRate == (if maxRequestsPerSecond > 0 then maxRequestsPerSecond else 100)
      ensures maxTokens == tokens == 10 * refillRate && lastRefill == now
    {
      maxTokens := 1000;
      refillRate := 100;
      lastRefill := now;
      if maxRequestsPerSecond > 0 {
        maxTokens := maxRequestsPerSecond * 10;
        refillRate := maxRequestsPerSecond;
      }
      tokens := maxTokens;
    }

    method Allow(now: int) returns (ok: bool)
      requires ValidBucket(Model())
      modifies this
      ensures ValidBucket(Model())
      ensures (Model(), ok) == AllowStep(old(Model()), now)
    {
      var elapsed := now - lastRefill;
      var tokensToAdd := TruncDiv(Inflow(elapsed, refillRate), NANO);
      if tokensToAdd > 0 {
        tokens := Min(tokens + tokensToAdd, maxTokens);
        lastRefill := now;
      }
      if tokens > 0 {
        tokens := tokens - 1;
        return true;
      }
      return false;
    }
  }

  // ---- runs ----

  /** The last clock reading of a run that began at `start`. */
  function End(start: int, times: seq<int>): int {
    if times == [] then start else times[|times| - 1]
  }

  /** The clock readings of the run never go backwards. */
  ghost predicate Monotone(start: int, times: seq<int>) {
    times != [] ==>
      && Monotone(start, times[..|times| - 1])
      && End(start, times[..|times| - 1]) <= times[|times| - 1]
  }

  lemma {:induction false} MonotoneSplit(start: int, first: seq<int>, rest: seq<int>)
    ensures Monotone(start, first + rest) <==> Monotone(start, first) && Monotone(End(start, first), rest)
    ensures End(start, first + rest) == End(End(start, first), rest)
  {
    if rest == [] {
      assert first + rest == first;
    } else {
      MonotoneSplit(start, first, rest[..|rest| - 1]);
      assert (first + rest)[..|first + rest| - 1] == first + rest[..|rest| - 1];
    }
  }

  function After(b: Bucket, times: seq<int>): Bucket {
    if times == [] then b else AllowStep(After(b, times[..|times| - 1]), times[|times| - 1]).0
  }

  /** How many of the calls are let through. */
  function Admitted(b: Bucket, times: seq<int>): nat {
    if times == [] then 0
    else
      var n := Admitted(b, times[..|times| - 1]);
      if AllowStep(After(b, times[..|times| - 1]), times[|times| - 1]).1 then n + 1 else n
  }

  lemma {:induction false} AfterValid(b: Bucket, times: seq<int>)
    requires ValidBucket(b)
    ensures ValidBucket(After(b, times))
    ensures After(b, times).maxTokens == b.maxTokens && After(b, times).refillRate == b.refillRate
  {
    if times != [] {
      AfterValid(b, times[..|times| - 1]);
    }
  }

  // ---- the ideal bucket ----

  /** A bucket that fills continuously up to a depth, in billionths of a token. */
  datatype Ideal = Ideal(level: int, depth: int, rate: int, at: int)

  function Flow(i: Ideal, now: int): Ideal {
    i.(level := Min(i.level + Inflow(now - i.at, i.rate), i.depth), at := now)
  }

  /** The ideal bucket can pay for a call at this moment. */
  predicate CanPay(i: Ideal, now: int) {
    Flow(i, now).level >= NANO
  }

  function Pay(i: Ideal, now: int): Ideal {
    Flow(i, now).(level := Flow(i, now).level - NANO)
  }

  /** The ideal bucket pays for exactly the calls that the code admits. */
  function IdealAfter(b: Bucket, i: Ideal, times: seq<int>): Ideal {
    if times == [] then i
    else
      var before := IdealAfter(b, i, times[..|times| - 1]);
      var now := times[|times| - 1];
      if AllowStep(After(b, times[..|times| - 1]), now).1 then Pay(before, now) else Flow(before, now)
  }

  /** What the ideal bucket has banked covers the tokens and the part of a token
      that truncation has not credited yet. */
  ghost predicate Covers(i: Ideal, b: Bucket, now: int) {
    && i.at == now
    && i.rate == b.refillRate
    && i.depth == (b.maxTokens + 1) * NANO
    && b.lastRefill <= now
    && Inflow(now - b.lastRefill, b.refillRate) < NANO
    && i.level >= b.tokens * NANO + Inflow(now - b.lastRefill, b.refillRate)
  }

  lemma TruncDivFloor(a: int, b: int)
    requires b > 0
    ensures a >= 0 ==> TruncDiv(a, b) * b <= a < (TruncDiv(a, b) + 1) * b
    ensures TruncDiv(a, b) > 0 <==> a >= b
  {
    if a >= 0 {
      assert a == (a / b) * b + a % b;
    } else {
      assert -a == ((-a) / b) * b + (-a) % b;
      if (-a) / b < 0 {
        assert false;
      }
    }
  }

  /** One call: the ideal bucket stays ahead and can pay whenever the code admits. */
  lemma CoversStep(i: Ideal, b: Bucket, last: int, now: int)
    requires ValidBucket(b) && Covers(i, b, last) && last <= now
    ensures AllowStep(b, now).1 ==> CanPay(i, now) && Covers(Pay(i, now), AllowStep(b, now).0, now)
    ensures !AllowStep(b, now).1 ==> Covers(Flow(i, now), AllowStep(b, now).0, now)
  {
    hide Inflow, TruncDiv;
    var credit := Inflow(now - b.lastRefill, b.refillRate);
    InflowAdds(last - b.lastRefill, now - last, b.refillRate);
    InflowAdds(0, last - b.lastRefill, b.refillRate);
    TruncDivFloor(credit, NANO);
    var r := Refill(b, now);
    assert Flow(i, now).level >= r.tokens * NANO + Inflow(now - r.lastRefill, r.refillRate);
  }

  /** Main result: an ideal bucket of depth maxTokens + 1 and rate refillRate, full
      as far as the code's tokens go, stays ahead over every monotone run. */
  lemma {:induction false} RefinesIdeal(b: Bucket, i: Ideal, start: int, times: seq<int>)
    requires ValidBucket(b) && Covers(i, b, start) && Monotone(start, times)
    ensures Covers(IdealAfter(b, i, times), After(b, times), End(start, times))
  {
    if times != [] {
      var before := times[..|times| - 1];
      RefinesIdeal(b, i, start, before);
      AfterValid(b, before);
      CoversStep(IdealAfter(b, i, before), After(b, before), End(start, before), times[|times| - 1]);
    }
  }

  /** Every single admission is one that the ideal bucket can pay for. */
  lemma {:induction false} AdmissionIsPaid(b: Bucket, i: Ideal, start: int, times: seq<int>, now: int)
    requires ValidBucket(b) && Covers(i, b, start)
    requires Monotone(start, times) && End(start, times) <= now
    ensures AllowStep(After(b, times), now).1 ==> CanPay(IdealAfter(b, i, times), now)
  {
    RefinesIdeal(b, i, start, times);
    AfterValid(b, times);
    CoversStep(IdealAfter(b, i, times), After(b, times), End(start, times), now);
  }

  /** The ideal bucket never holds more than it started with plus what flowed in
      minus what was paid out. */
  lemma {:induction false} IdealBudget(b: Bucket, i: Ideal, start: int, times: seq<int>)
    requires i.at == start && Inflow(0, i.rate) == 0
    ensures var end := End(start, times);
            && IdealAfter(b, i, times).at == end
            && IdealAfter(b, i, times).rate == i.rate
            && IdealAfter(b, i, times).depth == i.depth
            && IdealAfter(b, i, times).level <= i.level + Inflow(end - start, i.rate) - Admitted(b, times) * NANO
  {
    if times != [] {
      var before := times[..|times| - 1];
      IdealBudget(b, i, start, before);
      InflowAdds(End(start, before) - start, times[|times| - 1] - End(start, before), i.rate);
    }
  }

  /** The freshest ideal bucket that covers a code bucket at a moment. */
  function Matching(b: Bucket, now: int): Ideal {
    Ideal(b.tokens * NANO + Inflow(now - b.lastRefill, b.refillRate), (b.maxTokens + 1) * NANO, b.refillRate, now)
  }

  /** After any run of calls the bucket is one a window can start from. */
  lemma {:induction false} ReachableWindowStart(rate: int, t0: int, times: seq<int>)
    requires Monotone(t0, times)
    ensures var b := After(NewBucket(rate, t0), times);
            var end := End(t0, times);
            ValidBucket(b) && b.lastRefill <= end && Inflow(end - b.lastRefill, b.refillRate) < NANO
  {
    hide Inflow;
    var b := NewBucket(rate, t0);
    InflowAdds(0, 0, b.refillRate);
    RefinesIdeal(b, Matching(b, t0), t0, times);
    AfterValid(b, times);
  }

  /** Since construction: at most maxTokens plus the whole tokens of the elapsed time. */
  lemma {:induction false} TotalBound(rate: int, t0: int, times: seq<int>)
    requires Monotone(t0, times)
    ensures var b := NewBucket(rate, t0);
            Admitted(b, times) <= b.maxTokens + WholeTokens(Inflow(End(t0, times) - t0, b.refillRate))
  {
    hide Inflow;
    var b := NewBucket(rate, t0);
    InflowAdds(0, 0, b.refillRate);
    BudgetSpent(b, t0, times);
    WholeTokensFloor(Admitted(b, times) - b.maxTokens, Inflow(End(t0, times) - t0, b.refillRate));
  }

  lemma BudgetSpent(b: Bucket, start: int, times: seq<int>)
    requires ValidBucket(b) && b.lastRefill <= start && Inflow(start - b.lastRefill, b.refillRate) < NANO
    requires Monotone(start, times)
    ensures Admitted(b, times) * NANO <=
            b.tokens * NANO + Inflow(start - b.lastRefill, b.refillRate) + Inflow(End(start, times) - start, b.refillRate)
  {
    hide Inflow;
    var i := Matching(b, start);
    InflowAdds(0, 0, b.refillRate);
    RefinesIdeal(b, i, start, times);
    IdealBudget(b, i, start, times);
    AfterValid(b, times);
    InflowAdds(0, End(start, times) - After(b, times).lastRefill, b.refillRate);
  }

  lemma {:induction false} AdmittedSplit(b: Bucket, first: seq<int>, rest: seq<int>)
    ensures After(b, first + rest) == After(After(b, first), rest)
    ensures Admitted(b, first + rest) == Admitted(b, first) + Admitted(After(b, first), rest)
  {
    if rest == [] {
      assert first + rest == first;
    } else {
      AdmittedSplit(b, first, rest[..|rest| - 1]);
      assert (first + rest)[..|first + rest| - 1] == first + rest[..|rest| - 1];
    }
  }

  /** A window from any state whose first call leaves less than a token uncredited. */
  lemma WindowFrom(b: Bucket, first: int, rest: seq<int>)
    requires ValidBucket(b) && Monotone(first, rest)
    requires var b1 := AllowStep(b, first).0;
             b1.lastRefill <= first && Inflow(first - b1.lastRefill, b.refillRate) < NANO
    ensures Admitted(b, [first] + rest) * NANO <
            (b.maxTokens + 1) * NANO + Inflow(End(first, rest) - first, b.refillRate)
  {
    hide Inflow, AllowStep;
    OneCall(b, first);
    AdmittedSplit(b, [first], rest);
    AfterValid(b, [first]);
    BudgetSpent(After(b, [first]), first, rest);
  }

  lemma OneCall(b: Bucket, now: int)
    requires ValidBucket(b)
    ensures After(b, [now]) == AllowStep(b, now).0
    ensures After(b, [now]).tokens + Admitted(b, [now]) <= b.maxTokens
  {
    assert [now][..0] == [];
    assert After(b, []) == b && Admitted(b, []) == 0;
  }

  /** Main result: in any window of any run, measured from its first to its last
      call, fewer than maxTokens + 1 plus the inflow of the window are admitted. */
  lemma {:induction false} AnyWindow(rate: int, t0: int, before: seq<int>, first: int, rest: seq<int>)
    requires Monotone(t0, before + ([first] + rest))
    ensures var b := NewBucket(rate, t0);
            (Admitted(b, before + ([first] + rest)) - Admitted(b, before)) * NANO <
            (b.maxTokens + 1) * NANO + Inflow(End(first, rest) - first, b.refillRate)
  {
    hide Inflow, Admitted, AllowStep;
    var b := NewBucket(rate, t0);
    var to := before + [first];
    assert to + rest == before + ([first] + rest) && to[..|to| - 1] == before;
    MonotoneSplit(t0, to, rest);
    ReachableWindowStart(rate, t0, to);
    AdmittedSplit(b, before, [first] + rest);
    AfterValid(b, before);
    AfterValid(b, to);
    WindowFrom(After(b, before), first, rest);
  }

  function WholeTokens(flow: int): int {
    flow / NANO
  }

  lemma WholeTokensGrow(flow1: int, flow2: int)
    requires flow1 <= flow2
    ensures WholeTokens(flow1) <= WholeTokens(flow2)
  {
    assert flow1 == (flow1 / NANO) * NANO + flow1 % NANO;
    WholeTokensFloor(WholeTokens(flow1), flow2);
  }

  lemma WholeTokensFloor(n: int, flow: int)
    requires n * NANO <= flow
    ensures n <= WholeTokens(flow)
  {
    assert flow == (flow / NANO) * NANO + flow % NANO;
  }

  /** The bound one would expect of a bucket of depth maxTokens: over every further
      run, at most maxTokens plus the inflow since `start` are admitted. */
  ghost predicate WithinDepth(b: Bucket, start: int) {
    forall times | Monotone(start, times) :: WithinDepthOn(b, start, times)
  }

  predicate WithinDepthOn(b: Bucket, start: int, times: seq<int>) {
    Admitted(b, times) * NANO <= b.maxTokens * NANO + Inflow(End(start, times) - start, b.refillRate)
  }

  /** Main result: windows of a run that start at or after its last call. Depth
      maxTokens is enough for them if and only if there has been a call, or the window
      starts at construction, or the idle time since is worth a token. It fails just
      for a bucket that is still full: lastRefill does not move on it, so the part of
      a token it has been idle for is credited on top. */
  lemma {:induction false} DepthExactly(rate: int, t0: int, before: seq<int>, start: int)
    requires Monotone(t0, before) && End(t0, before) <= start
    ensures WithinDepth(After(NewBucket(rate, t0), before), start) <==>
            before != [] || start == t0 || Inflow(start - t0, NewBucket(rate, t0).refillRate) >= NANO
  {
    hide Inflow, WithinDepth;
    var b := After(NewBucket(rate, t0), before);
    ReachableWindowStart(rate, t0, before);
    if before != [] {
      AfterValid(NewBucket(rate, t0), before[..|before| - 1]);
    }
    DepthOfBucket(b, start);
  }

  /** The same for every bucket: full, and idle for some time worth less than a token,
      is the one case in which depth maxTokens is not enough. */
  lemma {:induction false} DepthOfBucket(b: Bucket, start: int)
    requires ValidBucket(b) && b.lastRefill <= start
    ensures WithinDepth(b, start) <==>
            b.tokens < b.maxTokens || b.lastRefill == start || Inflow(start - b.lastRefill, b.refillRate) >= NANO
  {
    hide Inflow, Admitted, After, Monotone, WithinDepthOn;
    if b.tokens < b.maxTokens || b.lastRefill == start || Inflow(start - b.lastRefill, b.refillRate) >= NANO {
      forall times | Monotone(start, times) ensures WithinDepthOn(b, start, times) {
        if Inflow(start - b.lastRefill, b.refillRate) < NANO {
          DepthEnough(b, start, times);
        } else {
          DepthAfterRefill(b, start, times);
        }
      }
    } else {
      var times := BurstAndOne(b, start);
      assert !WithinDepthOn(b, start, times);
    }
  }

  lemma {:induction false} DepthEnough(b: Bucket, start: int, times: seq<int>)
    requires ValidBucket(b) && b.lastRefill <= start && Inflow(start - b.lastRefill, b.refillRate) < NANO
    requires b.tokens < b.maxTokens || b.lastRefill == start
    requires Monotone(start, times)
    ensures WithinDepthOn(b, start, times)
  {
    hide Inflow;
    BudgetSpent(b, start, times);
    InflowAdds(0, 0, b.refillRate);
  }

  /** A call that comes a token's worth of time after the last refill is admitted. */
  lemma CallRefills(b: Bucket, now: int)
    requires ValidBucket(b) && Inflow(now - b.lastRefill, b.refillRate) >= NANO
    ensures AllowStep(b, now).0.lastRefill == now && AllowStep(b, now).1
  {
    TruncDivFloor(Inflow(now - b.lastRefill, b.refillRate), NANO);
    hide TruncDiv, Inflow;
  }

  /** The first call refills, so nothing is left uncredited behind it. */
  lemma {:induction false} DepthAfterRefill(b: Bucket, start: int, times: seq<int>)
    requires ValidBucket(b) && b.lastRefill <= start && Inflow(start - b.lastRefill, b.refillRate) >= NANO
    requires Monotone(start, times)
    ensures WithinDepthOn(b, start, times)
  {
    hide Inflow;
    InflowAdds(0, 0, b.refillRate);
    if times != [] {
      var first, rest := times[0], times[1..];
      assert times == [first] + rest && [first][..0] == [];
      MonotoneSplit(start, [first], rest);
      InflowGrows(start - b.lastRefill, first - b.lastRefill, b.refillRate);
      hide TruncDiv, Monotone, Admitted, AllowStep, After;
      CallRefills(b, first);
      OneCall(b, first);
      AfterValid(b, [first]);
      AdmittedSplit(b, [first], rest);
      BudgetSpent(After(b, [first]), first, rest);
      InflowGrows(End(first, rest) - first, End(first, rest) - start, b.refillRate);
    }
  }

  /** The first moment at which the bucket is credited a token. */
  function NextToken(b: Bucket): int
    requires b.refillRate > 0
  {
    b.lastRefill + (NANO + b.refillRate - 1) / b.refillRate
  }

  lemma NextTokenIsNext(b: Bucket, start: int)
    requires b.refillRate > 0 && b.lastRefill < start && Inflow(start - b.lastRefill, b.refillRate) < NANO
    ensures start <= NextToken(b)
    ensures Inflow(NextToken(b) - b.lastRefill, b.refillRate) >= NANO
    ensures Inflow(NextToken(b) - start, b.refillRate) < NANO
  {
    var r, n, d := b.refillRate, NextToken(b) - b.lastRefill, start - b.lastRefill;
    CeilToken(r);
    hide Inflow;
    InflowGrows(1, d, r);
    if n < d {
      InflowGrows(n, d, r);
    }
    InflowAdds(d, n - d, r);
  }

  /** The least whole time whose inflow is a token. */
  lemma CeilToken(rate: int)
    requires rate > 0
    ensures NANO <= Inflow((NANO + rate - 1) / rate, rate) < NANO + rate
    ensures Inflow(1, rate) == rate
  {
    var x := NANO + rate - 1;
    assert x == (x / rate) * rate + x % rate;
  }

  lemma InflowGrows(span1: int, span2: int, rate: int)
    requires span1 <= span2 && rate > 0
    ensures Inflow(span1, rate) <= Inflow(span2, rate)
  {
    InflowAdds(span1, span2 - span1, rate);
  }

  /** A full idle bucket: a burst of maxTokens now, and one more call at the moment
      of the next token, which comes less than a token's worth of time later. */
  lemma {:induction false} BurstAndOne(b: Bucket, start: int) returns (times: seq<int>)
    requires ValidBucket(b) && b.lastRefill < start && Inflow(start - b.lastRefill, b.refillRate) < NANO
    requires b.tokens == b.maxTokens
    ensures Monotone(start, times) && !WithinDepthOn(b, start, times)
    ensures Admitted(b, times) == b.maxTokens + 1
  {
    var burst, last := seq(b.maxTokens, _ => start), NextToken(b);
    times := burst + [last];
    assert times[..|times| - 1] == burst;
    NextTokenIsNext(b, start);
    hide Inflow, NextToken;
    TruncDivFloor(Inflow(start - b.lastRefill, b.refillRate), NANO);
    SpendAt(b, start, b.maxTokens);
    MonotoneAt(start, start, b.maxTokens);
    CallRefills(After(b, burst), last);
    hide TruncDiv, AllowStep;
    assert End(start, burst) == start;
  }

  /** An instance: with one request per second, a full bucket left alone for 0.9 s
      hands out 11 tokens within the next 0.1 s. */
  lemma {:induction false} DepthMaxTokensFails()
    ensures var b := NewBucket(1, 0);
            var times := seq(10, _ => 900_000_000) + [NANO];
            && Monotone(0, times)
            && Admitted(b, times) == 11
            && Admitted(b, times) * NANO > b.maxTokens * NANO + Inflow(times[10] - times[0], b.refillRate)
  {
    var b := NewBucket(1, 0);
    var burst := seq(10, _ => 900_000_000);
    var same := burst + [NANO];
    assert same[..10] == burst;
    SpendAt(b, 900_000_000, 10);
    MonotoneAt(0, 900_000_000, 10);
  }

  lemma {:induction false} MonotoneAt(start: int, now: int, k: nat)
    requires start <= now
    ensures Monotone(start, seq(k, _ => now))
  {
    if k > 0 {
      MonotoneAt(start, now, k - 1);
      assert seq(k, _ => now)[..k - 1] == seq(k - 1, _ => now);
    }
  }

  /** With no whole token to add, k calls at one moment spend k tokens. */
  lemma {:induction false} SpendAt(b: Bucket, now: int, k: nat)
    requires ValidBucket(b) && k <= b.tokens
    requires TruncDiv(Inflow(now - b.lastRefill, b.refillRate), NANO) <= 0
    ensures After(b, seq(k, _ => now)) == b.(tokens := b.tokens - k)
    ensures Admitted(b, seq(k, _ => now)) == k
  {
    if k > 0 {
      SpendAt(b, now, k - 1);
      assert seq(k, _ => now)[..k - 1] == seq(k - 1, _ => now);
    }
  }

  // ---- what the bucket does let through ----

  /** The time before call k since the previous call, or since the last refill. */
  function Gap(b: Bucket, times: seq<int>, k: nat): int
    requires k < |times|
  {
    times[k] - if k == 0 then b.lastRefill else times[k - 1]
  }

  /** Calls spaced at least one token apart are never refused, when the first of
      them comes at least that long after the last refill. */
  lemma {:induction false} SustainedRate(b: Bucket, times: seq<int>)
    requires ValidBucket(b)
    requires forall k | 0 <= k < |times| :: Inflow(Gap(b, times, k), b.refillRate) >= NANO
    ensures Admitted(b, times) == |times|
    ensures times != [] ==> After(b, times).lastRefill == times[|times| - 1]
  {
    if times != [] {
      var before := times[..|times| - 1];
      hide Inflow;
      forall k | 0 <= k < |before| ensures Inflow(Gap(b, before, k), b.refillRate) >= NANO {
        assert Gap(b, before, k) == Gap(b, times, k);
      }
      SustainedRate(b, before);
      AfterValid(b, before);
      var pre := After(b, before);
      TruncDivFloor(Inflow(Gap(b, times, |times| - 1), pre.refillRate), NANO);
    }
  }

  /** Calls at one moment, none of which is credited a token: they spend what is there. */
  lemma {:induction false} SpendAll(b: Bucket, now: int, k: nat)
    requires ValidBucket(b)
    requires TruncDiv(Inflow(now - b.lastRefill, b.refillRate), NANO) <= 0
    ensures After(b, seq(k, _ => now)) == b.(tokens := if k < b.tokens then b.tokens - k else 0)
    ensures Admitted(b, seq(k, _ => now)) == if k < b.tokens then k else b.tokens
  {
    if k > 0 {
      SpendAll(b, now, k - 1);
      assert seq(k, _ => now)[..k - 1] == seq(k - 1, _ => now);
      hide TruncDiv, Inflow;
    }
  }

  /** What a refill amounts to, in the fields. */
  lemma RefillExactly(b: Bucket, now: int)
    requires ValidBucket(b) && b.lastRefill <= now
    ensures var credit := ((now - b.lastRefill) * b.refillRate) / 1_000_000_000;
            var r := Refill(b, now);
            && r.tokens == (if b.tokens + credit < b.maxTokens then b.tokens + credit else b.maxTokens)
            && r.lastRefill == (if credit > 0 then now else b.lastRefill)
            && r.maxTokens == b.maxTokens && r.refillRate == b.refillRate
            && TruncDiv(Inflow(now - r.lastRefill, r.refillRate), NANO) == 0
  {
    InflowAdds(0, now - b.lastRefill, b.refillRate);
  }

  /** Main result: a burst at any moment is served exactly as far as the tokens reach
      that were left, plus all whole tokens of the time since the last refill, up to
      maxTokens. */
  lemma {:induction false} BurstExactly(b: Bucket, now: int, k: nat)
    requires ValidBucket(b) && b.lastRefill <= now
    ensures var credit := ((now - b.lastRefill) * b.refillRate) / 1_000_000_000;
            var there := if b.tokens + credit < b.maxTokens then b.tokens + credit else b.maxTokens;
            && Admitted(b, seq(k, _ => now)) == (if k < there then k else there)
            && (Admitted(b, seq(k, _ => now)) == k <==> k <= there)
  {
    RefillExactly(b, now);
    var full := Refill(b, now);
    hide TruncDiv, Inflow, Refill;
    if k > 0 {
      SpendAll(full, now, k);
      FirstRefills(b, full, now, k);
    } else {
      assert seq(k, _ => now) == [];
    }
  }

  /** After an idle time worth maxTokens, a burst of exactly maxTokens is served. */
  lemma {:induction false} FullBurst(b: Bucket, now: int)
    requires ValidBucket(b) && Inflow(now - b.lastRefill, b.refillRate) >= b.maxTokens * NANO
    ensures Admitted(b, seq(b.maxTokens, _ => now)) == b.maxTokens
    ensures !AllowStep(After(b, seq(b.maxTokens, _ => now)), now).1
  {
    IdleIsForward(now - b.lastRefill, b.refillRate, b.maxTokens);
    RefillExactly(b, now);
    BurstExactly(b, now, b.maxTokens);
    BurstExactly(b, now, b.maxTokens + 1);
    hide TruncDiv, Inflow, Refill, AllowStep;
    var n := b.maxTokens + 1;
    assert seq(n, _ => now)[..n - 1] == seq(n - 1, _ => now);
  }

  lemma IdleIsForward(span: int, rate: int, n: int)
    requires rate > 0 && n > 0 && Inflow(span, rate) >= n * NANO
    ensures span > 0 && (span * rate) / 1_000_000_000 >= n
  {
    if span <= 0 {
      InflowGrows(span, 0, rate);
      InflowAdds(0, 0, rate);
    }
  }

  lemma {:induction false} FirstRefills(b: Bucket, full: Bucket, now: int, k: nat)
    requires k > 0 && full == Refill(b, now) && Refill(full, now) == full
    ensures After(b, seq(k, _ => now)) == After(full, seq(k, _ => now))
    ensures Admitted(b, seq(k, _ => now)) == Admitted(full, seq(k, _ => now))
  {
    assert seq(k, _ => now)[..k - 1] == seq(k - 1, _ => now);
    if k > 1 {
      FirstRefills(b, full, now, k - 1);
    } else {
      hide Refill;
      assert After(b, []) == b && After(full, []) == full && Admitted(b, []) == Admitted(full, []) == 0;
    }
  }

  // ---- a lower bound over whole runs ----

  /** What has been credited since a bucket b0: tokens spent and tokens there, beyond
      those that were there. */
  function Credited(b0: Bucket, times: seq<int>): int {
    Admitted(b0, times) + After(b0, times).tokens - b0.tokens
  }

  /** At least half of the time that has been credited, and no more than all of it. */
  ghost predicate HalfCredited(b0: Bucket, times: seq<int>) {
    var b := After(b0, times);
    Credited(b0, times) * NANO <= Inflow(b.lastRefill - b0.lastRefill, b0.refillRate) <= 2 * Credited(b0, times) * NANO
  }

  /** The bucket is deep enough for all that flows in until then. */
  ghost predicate FitsUntil(b0: Bucket, until: int) {
    b0.tokens * NANO + Inflow(until - b0.lastRefill, b0.refillRate) <= b0.maxTokens * NANO
  }

  lemma CreditStep(b0: Bucket, b: Bucket, spent: int, now: int)
    requires ValidBucket(b0) && ValidBucket(b) && b.maxTokens == b0.maxTokens && b.refillRate == b0.refillRate
    requires b.lastRefill <= now && FitsUntil(b0, now)
    requires var credited := spent + b.tokens - b0.tokens;
             credited * NANO <= Inflow(b.lastRefill - b0.lastRefill, b0.refillRate) <= 2 * credited * NANO
    requires spent >= 0
    ensures var r := Refill(b, now);
            var credited := spent + r.tokens - b0.tokens;
            && credited * NANO <= Inflow(r.lastRefill - b0.lastRefill, b0.refillRate) <= 2 * credited * NANO
            && Inflow(now - r.lastRefill, b0.refillRate) < NANO
  {
    hide Inflow, TruncDiv;
    var flow := Inflow(now - b.lastRefill, b.refillRate);
    InflowAdds(b.lastRefill - b0.lastRefill, now - b.lastRefill, b0.refillRate);
    InflowAdds(0, now - b.lastRefill, b0.refillRate);
    TruncDivFloor(flow, NANO);
  }

  lemma {:induction false} HalfCreditedRun(b0: Bucket, times: seq<int>)
    requires ValidBucket(b0) && Monotone(b0.lastRefill, times) && FitsUntil(b0, End(b0.lastRefill, times))
    ensures HalfCredited(b0, times)
    ensures After(b0, times).lastRefill <= End(b0.lastRefill, times)
    ensures times != [] ==> Inflow(End(b0.lastRefill, times) - After(b0, times).lastRefill, b0.refillRate) < NANO
  {
    hide Inflow;
    InflowAdds(0, 0, b0.refillRate);
    if times != [] {
      var before, now := times[..|times| - 1], times[|times| - 1];
      InflowGrows(End(b0.lastRefill, before) - b0.lastRefill, now - b0.lastRefill, b0.refillRate);
      HalfCreditedRun(b0, before);
      AfterValid(b0, before);
      CreditStep(b0, After(b0, before), Admitted(b0, before), now);
    }
  }

  /** Main result, from below: whenever a call is refused, more than half of the whole
      tokens that have flowed in since any earlier moment has been handed out, and all
      that were there, as long as the bucket could have held them. */
  lemma {:induction false} RefusedAfterHalf(b0: Bucket, times: seq<int>)
    requires ValidBucket(b0) && FitsUntil(b0, End(b0.lastRefill, times))
    ensures Monotone(b0.lastRefill, times) && RefusedLast(b0, times) ==>
              Inflow(End(b0.lastRefill, times) - b0.lastRefill, b0.refillRate) <
              (2 * (Admitted(b0, times) - b0.tokens) + 1) * NANO
  {
    hide Inflow;
    if Monotone(b0.lastRefill, times) && RefusedLast(b0, times) {
      HalfCreditedRun(b0, times);
      AfterValid(b0, times[..|times| - 1]);
      var b, end := After(b0, times), End(b0.lastRefill, times);
      InflowAdds(b.lastRefill - b0.lastRefill, end - b.lastRefill, b0.refillRate);
      EmptyWhenRefused(After(b0, times[..|times| - 1]), end);
    }
  }

  predicate RefusedLast(b0: Bucket, times: seq<int>) {
    times != [] && !AllowStep(After(b0, times[..|times| - 1]), times[|times| - 1]).1
  }

  lemma EmptyWhenRefused(b: Bucket, now: int)
    requires ValidBucket(b)
    ensures !AllowStep(b, now).1 ==> AllowStep(b, now).0.tokens == 0
  {
    hide TruncDiv, Inflow;
  }
}
