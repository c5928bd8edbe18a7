/** The per-IP rate limit of tcp_server.go: a request is let through when the last
    one let through from the same address is at least one second old. */
module IpLimiter {
  type IP = string

  const SECOND: int := 1_000_000_000

  datatype Request = Request(ip: IP, at: int)

  type Limits = map<IP, int>

  /** A non-positive rateLimitPerIP switches the check off; its size has no effect. */
  function CheckStep(last: Limits, rateLimitPerIP: int, r: Request): (Limits, bool) {
    if rateLimitPerIP <= 0 then (last, true)
    else if r.ip in last && r.at - last[r.ip] < SECOND then (last, false)
    else (last[r.ip := r.at], true)
  }

  class RateLimits {
    const rateLimitPerIP: int
    var ipRateLimits: map<IP, int>

    constructor (rateLimitPerIP: int)
      ensures this.rateLimitPerIP == rateLimitPerIP && ipRateLimits == map[]
    {
      this.rateLimitPerIP := rateLimitPerIP;
      ipRateLimits := map[];
    }

    method CheckRateLimit(ip: IP, now: int) returns (ok: bool)
      modifies this
      ensures (ipRateLimits, ok) == CheckStep(old(ipRateLimits), rateLimitPerIP, Request(ip, now))
    {
      if rateLimitPerIP <= 0 {
        return true;
      }
      if ip !in ipRateLimits {
        ipRateLimits := ipRateLimits[ip := now];
        return true;
      }
      if now - ipRateLimits[ip] < SECOND {
        return false;
      }
      ipRateLimits := ipRateLimits[ip := now];
      return true;
    }
  }

  /** The decisions of a whole run, in order. */
  function Decisions(last: Limits, rate: int, run: seq<Request>): (d: seq<bool>)
    ensures |d| == |run|
    decreases |run|
  {
    if run == [] then []
    else
      var (next, ok) := CheckStep(last, rate, run[0]);
      [ok] + Decisions(next, rate, run[1..])
  }

  ghost predicate Monotone(run: seq<Request>) {
    forall i, j | 0 <= i < j < |run| :: run[i].at <= run[j].at
  }

  // ---- admitted requests are spaced ----

  /** Requests of one address picked out of the run, any two at least a second apart. */
  ghost predicate Spaced(run: seq<Request>, ip: IP, picks: seq<bool>) {
    && |picks| == |run|
    && (forall i | 0 <= i < |run| && picks[i] :: run[i].ip == ip)
    && (forall i, j | 0 <= i < j < |run| && picks[i] && picks[j] :: run[j].at - run[i].at >= SECOND)
  }

  /** What the limiter picks of one address. */
  function AdmittedOf(run: seq<Request>, ip: IP, d: seq<bool>): (picks: seq<bool>)
    requires |d| == |run|
    ensures |picks| == |run|
    ensures forall i | 0 <= i < |run| :: picks[i] == (d[i] && run[i].ip == ip)
  {
    seq(|run|, i requires 0 <= i < |run| => d[i] && run[i].ip == ip)
  }

  function Count(picks: seq<bool>): nat {
    if picks == [] then 0 else (if picks[0] then 1 else 0) + Count(picks[1..])
  }

  /** Admissions come at least a second after the recorded one and after each other. */
  lemma {:induction false} AdmittedAfter(last: Limits, rate: int, run: seq<Request>, ip: IP)
    requires rate > 0 && Monotone(run)
    ensures var d := Decisions(last, rate, run);
            && Spaced(run, ip, AdmittedOf(run, ip, d))
            && (ip in last ==> forall i | 0 <= i < |run| && d[i] && run[i].ip == ip :: run[i].at - last[ip] >= SECOND)
    decreases |run|
  {
    if run != [] {
      var (next, ok) := CheckStep(last, rate, run[0]);
      var d, rest := Decisions(last, rate, run), Decisions(next, rate, run[1..]);
      assert Monotone(run[1..]) by {
        forall i, j | 0 <= i < j < |run[1..]| ensures run[1..][i].at <= run[1..][j].at {
          assert run[i + 1].at <= run[j + 1].at;
        }
      }
      AdmittedAfter(next, rate, run[1..], ip);
      var picks, tail := AdmittedOf(run, ip, d), AdmittedOf(run[1..], ip, rest);
      forall i | 0 < i < |run| ensures picks[i] == tail[i - 1] && run[i] == run[1..][i - 1] && d[i] == rest[i - 1] {}
      forall i, j | 0 <= i < j < |run| && picks[i] && picks[j] ensures run[j].at - run[i].at >= SECOND {
        if i > 0 {
          assert tail[i - 1] && tail[j - 1];
          assert run[1..][j - 1].at - run[1..][i - 1].at >= SECOND;
        } else {
          assert ip in next && next[ip] == run[0].at;
          assert rest[j - 1] && run[1..][j - 1].ip == ip;
          assert run[1..][j - 1].at - next[ip] >= SECOND;
        }
      }
      forall i | 0 <= i < |run| && ip in last && d[i] && run[i].ip == ip ensures run[i].at - last[ip] >= SECOND {
        if i > 0 {
          assert rest[i - 1] && run[1..][i - 1].ip == ip;
          assert run[0].at <= run[i].at;
          if ok && run[0].ip == ip {
            assert run[0].at - last[ip] >= SECOND;
          } else {
            assert next[ip] == last[ip];
          }
        }
      }
    }
  }

  // ---- each address is limited on its own ----

  function Project(run: seq<Request>, ip: IP): seq<Request> {
    if run == [] then []
    else if run[0].ip == ip then [run[0]] + Project(run[1..], ip)
    else Project(run[1..], ip)
  }

  /** The decisions about one address, in order. */
  function DecisionsOf(run: seq<Request>, ip: IP, d: seq<bool>): seq<bool>
    requires |d| == |run|
  {
    if run == [] then []
    else if run[0].ip == ip then [d[0]] + DecisionsOf(run[1..], ip, d[1..])
    else DecisionsOf(run[1..], ip, d[1..])
  }

  ghost predicate SameFor(a: Limits, b: Limits, ip: IP) {
    (ip in a <==> ip in b) && (ip in a ==> a[ip] == b[ip])
  }

  /** Main result: what is decided about an address is what would be decided if no
      other address had ever sent anything. */
  lemma {:induction false} Independence(last: Limits, alone: Limits, rate: int, run: seq<Request>, ip: IP)
    requires SameFor(last, alone, ip)
    ensures DecisionsOf(run, ip, Decisions(last, rate, run)) == Decisions(alone, rate, Project(run, ip))
    decreases |run|
  {
    if run != [] {
      var (next, ok) := CheckStep(last, rate, run[0]);
      assert Decisions(last, rate, run)[1..] == Decisions(next, rate, run[1..]);
      if run[0].ip == ip {
        var (next', ok') := CheckStep(alone, rate, run[0]);
        Independence(next, next', rate, run[1..], ip);
        assert Project(run, ip)[1..] == Project(run[1..], ip);
      } else {
        Independence(next, alone, rate, run[1..], ip);
      }
    }
  }

  // ---- greedy is optimal ----

  /** How many requests of an address are let through, told by the time of the last
      one let through before (`first` if there was none). */
  function Greedy(run: seq<Request>, ip: IP, first: bool, last: int): nat {
    if run == [] then 0
    else if run[0].ip == ip && (first || run[0].at - last >= SECOND)
    then 1 + Greedy(run[1..], ip, false, run[0].at)
    else Greedy(run[1..], ip, first, last)
  }

  lemma {:induction false} GreedyIsDecisions(limits: Limits, rate: int, run: seq<Request>, ip: IP)
    requires rate > 0
    ensures Count(AdmittedOf(run, ip, Decisions(limits, rate, run))) ==
            Greedy(run, ip, ip !in limits, if ip in limits then limits[ip] else 0)
    decreases |run|
  {
    if run != [] {
      var (next, ok) := CheckStep(limits, rate, run[0]);
      var d := Decisions(limits, rate, run);
      assert d[1..] == Decisions(next, rate, run[1..]);
      GreedyIsDecisions(next, rate, run[1..], ip);
      assert AdmittedOf(run, ip, d)[1..] == AdmittedOf(run[1..], ip, d[1..]);
      if ip !in limits && ip !in next {
        assert Greedy(run[1..], ip, true, 0) == Greedy(run[1..], ip, ip !in next, 0);
      }
    }
  }

  /** A later last admission costs requests, but never more than one. */
  lemma {:induction false} LaterCostsAtMostOne(run: seq<Request>, ip: IP, first: bool, early: int, late: int)
    requires Monotone(run) && (first || early <= late)
    requires forall i | 0 <= i < |run| :: late <= run[i].at
    ensures Greedy(run, ip, false, late) <= Greedy(run, ip, first, early) <= Greedy(run, ip, false, late) + 1
  {
    if run != [] {
      var rest, u := run[1..], run[0].at;
      TailMonotone(run);
      if run[0].ip == ip && (first || u - early >= SECOND) {
        LaterCostsAtMostOne(rest, ip, false, late, u);
      } else {
        LaterCostsAtMostOne(rest, ip, first, early, late);
      }
    }
  }

  lemma TailMonotone(run: seq<Request>)
    requires run != [] && Monotone(run)
    ensures Monotone(run[1..])
    ensures forall i | 0 <= i < |run| - 1 :: run[0].at <= run[1..][i].at
  {
    forall i, j | 0 <= i < j < |run[1..]| ensures run[1..][i].at <= run[1..][j].at {
      assert run[i + 1].at <= run[j + 1].at;
    }
    forall i | 0 <= i < |run| - 1 ensures run[0].at <= run[1..][i].at {
      assert run[0].at <= run[i + 1].at;
    }
  }

  /** Greedy stays ahead of every spaced choice that starts no earlier than it. */
  lemma {:induction false} GreedyStaysAhead(run: seq<Request>, ip: IP, first: bool, last: int, picks: seq<bool>)
    requires Monotone(run) && Spaced(run, ip, picks)
    requires forall i | 0 <= i < |run| && picks[i] :: first || run[i].at - last >= SECOND
    requires forall i | 0 <= i < |run| :: first || last <= run[i].at
    ensures Count(picks) <= Greedy(run, ip, first, last)
  {
    if run != [] {
      var rest, u := run[1..], run[0].at;
      TailMonotone(run);
      assert Spaced(rest, ip, picks[1..]) by {
        forall i, j | 0 <= i < j < |rest| && picks[1..][i] && picks[1..][j] ensures rest[j].at - rest[i].at >= SECOND {
          assert picks[i + 1] && picks[j + 1];
          assert run[j + 1].at - run[i + 1].at >= SECOND;
        }
      }
      if picks[0] {
        forall i | 0 <= i < |rest| && picks[1..][i] ensures rest[i].at - u >= SECOND {
          assert picks[0] && picks[i + 1];
          assert run[i + 1].at - run[0].at >= SECOND;
        }
        GreedyStaysAhead(rest, ip, false, u, picks[1..]);
      } else {
        GreedyStaysAhead(rest, ip, first, last, picks[1..]);
        if run[0].ip == ip && (first || u - last >= SECOND) {
          LaterCostsAtMostOne(rest, ip, first, last, u);
        }
      }
    }
  }

  /** Main result: over any run with a clock that never goes back, what is let through
      of an address is spaced by a second, and no spaced choice among its requests is
      larger. */
  lemma GreedyOptimal(rate: int, run: seq<Request>, ip: IP, picks: seq<bool>)
    requires rate > 0 && Monotone(run) && Spaced(run, ip, picks)
    ensures var mine := AdmittedOf(run, ip, Decisions(map[], rate, run));
            Spaced(run, ip, mine) && Count(picks) <= Count(mine)
  {
    AdmittedAfter(map[], rate, run, ip);
    GreedyIsDecisions(map[], rate, run, ip);
    GreedyStaysAhead(run, ip, true, 0, picks);
  }

  /** The size of the configured limit makes no difference. */
  lemma {:induction false} SizeIgnored(last: Limits, rate1: int, rate2: int, run: seq<Request>)
    requires rate1 > 0 && rate2 > 0
    ensures Decisions(last, rate1, run) == Decisions(last, rate2, run)
    decreases |run|
  {
    if run != [] {
      SizeIgnored(CheckStep(last, rate1, run[0]).0, rate1, rate2, run[1..]);
    }
  }

  // ---- switched off, and one request at a time ----

  /** A limit that is not positive lets everything through and records nothing. */
  lemma {:induction false} OffAdmitsAll(last: Limits, rate: int, run: seq<Request>)
    requires rate <= 0
    ensures forall i | 0 <= i < |run| :: Decisions(last, rate, run)[i]
    ensures Final(last, rate, run) == last
    decreases |run|
  {
    if run != [] {
      OffAdmitsAll(last, rate, run[1..]);
    }
  }

  /** The recorded requests after a run. */
  function Final(last: Limits, rate: int, run: seq<Request>): Limits
    decreases |run|
  {
    if run == [] then last else Final(CheckStep(last, rate, run[0]).0, rate, run[1..])
  }

  lemma {:induction false} OneMore(last: Limits, rate: int, run: seq<Request>, r: Request)
    ensures Decisions(last, rate, run + [r]) == Decisions(last, rate, run) + [CheckStep(Final(last, rate, run), rate, r).1]
    ensures Final(last, rate, run + [r]) == CheckStep(Final(last, rate, run), rate, r).0
    decreases |run|
  {
    if run == [] {
      assert run + [r] == [r] && [r][1..] == [];
    } else {
      assert (run + [r])[1..] == run[1..] + [r];
      OneMore(CheckStep(last, rate, run[0]).0, rate, run[1..], r);
    }
  }

  /** The latest request of the address that was let through. */
  function LastAdmitted(run: seq<Request>, d: seq<bool>, ip: IP): (i: int)
    requires |d| == |run|
    ensures -1 <= i < |run|
    ensures i >= 0 ==> run[i].ip == ip && d[i]
    ensures forall j | i < j < |run| :: !(run[j].ip == ip && d[j])
  {
    if run == [] then -1
    else if run[|run| - 1].ip == ip && d[|run| - 1] then |run| - 1
    else LastAdmitted(run[..|run| - 1], d[..|run| - 1], ip)
  }

  lemma {:induction false} FinalIsLastAdmitted(rate: int, run: seq<Request>, ip: IP)
    requires rate > 0
    ensures var i := LastAdmitted(run, Decisions(map[], rate, run), ip);
            var last := Final(map[], rate, run);
            (ip in last <==> i >= 0) && (i >= 0 ==> last[ip] == run[i].at)
    decreases |run|
  {
    if run != [] {
      var before, r := run[..|run| - 1], run[|run| - 1];
      assert before + [r] == run;
      FinalIsLastAdmitted(rate, before, ip);
      OneMore(map[], rate, before, r);
      assert Decisions(map[], rate, run)[..|run| - 1] == Decisions(map[], rate, before);
    }
  }

  /** Every single decision over a run: refused exactly when the limit is on and the
      latest request of the same address that was let through is less than a second old. */
  lemma {:induction false} RefusedExactly(rate: int, run: seq<Request>, r: Request)
    ensures var d := Decisions(map[], rate, run);
            var i := LastAdmitted(run, d, r.ip);
            !Decisions(map[], rate, run + [r])[|run|] <==>
            rate > 0 && i >= 0 && r.at - run[i].at < 1_000_000_000
  {
    OneMore(map[], rate, run, r);
    if rate > 0 {
      FinalIsLastAdmitted(rate, run, r.ip);
    }
  }
}
