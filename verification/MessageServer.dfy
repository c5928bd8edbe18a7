/** Message handling of tcp_server.go, one message at a time: size check, per-IP rate
    check, idempotency check, runtime, idempotency store. */
module MessageServer {
  import opened Wrappers
  import opened LruModel
  import LruHistory
  import LruCache
  import Ip = IpLimiter

  /** CLOSE has no case of its own in the switch and falls under Unknown. */
  datatype Kind = Ping | Exec | Query | Stats | Metrics | Unknown

  datatype Message = Message(kind: Kind, id: string, key: Key, size: int, ip: string)

  datatype Response = Response(id: string, payload: string)

  /** What the runtime would return for this message if it were asked: an error, a
      result that cannot be encoded, or a result. */
  datatype Outcome = RuntimeError | NotEncodable | Data(payload: string)

  datatype Reply =
    | TooLarge
    | RateLimited
    | Replayed(response: Response)
    | Answered(response: Response)
    | Info
    | Error

  datatype Config = Config(idempotency: bool, ddosProtection: bool, maxRequestSize: int, rateLimitPerIP: int)

  /** The clock readings of one message, in the order in which the code makes them. */
  datatype Clock = Clock(rateAt: Time, checkAt: Time, storeAt: Time)

  datatype Server = Server(limits: Ip.Limits, cache: Lru<Response>)

  /** One message, its clock readings and what the runtime would say to it. */
  datatype Arrival = Arrival(m: Message, clock: Clock, outcome: Outcome)

  const CACHE_CAPACITY: nat := 10000
  const CACHE_TTL: int := 300_000_000_000

  function NewCache(): Lru<Response> {
    New(CACHE_CAPACITY, CACHE_TTL)
  }

  function NewServer(): Server {
    Server(map[], NewCache())
  }

  predicate Oversized(cfg: Config, m: Message) {
    cfg.ddosProtection && cfg.maxRequestSize > 0 && m.size > cfg.maxRequestSize
  }

  function RateStep(cfg: Config, limits: Ip.Limits, m: Message, now: Time): (Ip.Limits, bool) {
    if cfg.ddosProtection then Ip.CheckStep(limits, cfg.rateLimitPerIP, Ip.Request(m.ip, now)) else (limits, true)
  }

  predicate Keyed(cfg: Config, m: Message) {
    cfg.idempotency && m.key != ""
  }

  predicate Runs(m: Message) {
    m.kind == Exec || m.kind == Query
  }

  /** The reply, and whether the runtime was asked. */
  function HandleStep(cfg: Config, s: Server, a: Arrival): (Server, Reply, bool) {
    var m := a.m;
    if Oversized(cfg, m) then (s, TooLarge, false)
    else
      var (limits, ok) := RateStep(cfg, s.limits, m, a.clock.rateAt);
      if !ok then (s.(limits := limits), RateLimited, false)
      else
        var (cache, hit) := if Keyed(cfg, m) then GetStep(s.cache, m.key, a.clock.checkAt) else (s.cache, None);
        if hit.Some? then (Server(limits, cache), Replayed(hit.value), false)
        else if !Runs(m) then (Server(limits, cache), if m.kind == Unknown then Error else Info, false)
        else
          match a.outcome
          case Data(payload) =>
            var response := Response(m.id, payload);
            var stored := if Keyed(cfg, m) then SetStep(cache, m.key, response, CACHE_TTL, a.clock.storeAt) else cache;
            (Server(limits, stored), Answered(response), true)
          case _ => (Server(limits, cache), Error, true)
  }

  class TcpServer {
    const config: Config
    const limits: Ip.RateLimits
    const cache: LruCache.InMemoryCache?<Response>

    ghost predicate Valid()
      reads cache, if cache == null then {} else {cache.ll}, if cache == null then {} else cache.ll.repr
    {
      && (config.idempotency <==> cache != null)
      && (cache != null ==> cache.Valid() && cache.capacity == CACHE_CAPACITY && cache.defaultTTL == CACHE_TTL)
      && limits.rateLimitPerIP == config.rateLimitPerIP
    }

    ghost function Model(): Server
      reads limits, cache, if cache == null then {} else {cache.ll}
    {
      Server(limits.ipRateLimits, if cache == null then NewCache() else cache.Model())
    }

    constructor (config: Config)
      ensures Valid() && Model() == NewServer() && this.config == config
      ensures limits.ipRateLimits == map[] && (cache != null <==> config.idempotency)
      ensures cache != null ==> cache.capacity == 10_000 && cache.defaultTTL == 300_000_000_000 && cache.ll.entries == []
    {
      this.config := config;
      limits := new Ip.RateLimits(config.rateLimitPerIP);
      var c: LruCache.InMemoryCache?<Response> := null;
      if config.idempotency {
        c := new LruCache.InMemoryCache<Response>(CACHE_CAPACITY, CACHE_TTL);
      }
      cache := c;
    }

    method CheckIdempotency(m: Message, now: Time) returns (r: Option<Response>)
      requires Valid()
      modifies cache, if cache == null then {} else {cache.ll}, if cache == null then {} else cache.ll.repr
      ensures Valid()
      ensures cache != null ==> cache.ll.repr == old(cache.ll.repr)
      ensures (Model(), r) ==
              if Keyed(config, m)
              then (old(Model()).(cache := GetStep(old(Model()).cache, m.key, now).0), GetStep(old(Model()).cache, m.key, now).1)
              else (old(Model()), None)
    {
      if cache == null || m.key == "" {
        return None;
      }
      r := cache.Get(m.key, now);
    }

    method StoreIdempotency(m: Message, response: Option<Response>, now: Time)
      requires Valid()
      modifies cache, if cache == null then {} else {cache.ll}, if cache == null then {} else cache.ll.repr
      ensures Valid()
      ensures Model() ==
              if Keyed(config, m) && response.Some?
              then old(Model()).(cache := SetStep(old(Model()).cache, m.key, response.value, CACHE_TTL, now))
              else old(Model())
    {
      if cache == null || m.key == "" || response.None? {
        return;
      }
      cache.Set(m.key, response.value, CACHE_TTL, now);
    }

    method HandleMessage(a: Arrival) returns (reply: Reply, asked: bool)
      requires Valid()
      modifies limits, cache, if cache == null then {} else {cache.ll}, if cache == null then {} else cache.ll.repr
      ensures Valid()
      ensures (Model(), reply, asked) == HandleStep(config, old(Model()), a)
    {
      hide GetStep, SetStep;
      var m := a.m;
      if config.ddosProtection && config.maxRequestSize > 0 {
        if m.size > config.maxRequestSize {
          return TooLarge, false;
        }
      }
      if config.ddosProtection {
        var ok := limits.CheckRateLimit(m.ip, a.clock.rateAt);
        if !ok {
          return RateLimited, false;
        }
      }
      if config.idempotency && m.key != "" {
        var result := CheckIdempotency(m, a.clock.checkAt);
        if result.Some? {
          return Replayed(result.value), false;
        }
      }
      match m.kind {
        case Unknown => return Error, false;
        case Ping => return Info, false;
        case Stats => return Info, false;
        case Metrics => return Info, false;
        case Exec => reply, asked := Execute(a);
        case Query => reply, asked := Execute(a);
      }
    }

    /** handleExec or handleQuery followed by the store; a failed or unencodable
        execution hands nothing to the store. */
    method Execute(a: Arrival) returns (reply: Reply, asked: bool)
      requires Valid()
      modifies cache, if cache == null then {} else {cache.ll}, if cache == null then {} else cache.ll.repr
      ensures Valid() && asked
      ensures reply == if a.outcome.Data? then Answered(Response(a.m.id, a.outcome.payload)) else Error
      ensures Model() ==
              if Keyed(config, a.m) && a.outcome.Data?
              then old(Model()).(cache := SetStep(old(Model()).cache, a.m.key, Response(a.m.id, a.outcome.payload),
                                                  CACHE_TTL, a.clock.storeAt))
              else old(Model())
    {
      var response := if a.outcome.Data? then Some(Response(a.m.id, a.outcome.payload)) else None;
      if config.idempotency && a.m.key != "" {
        StoreIdempotency(a.m, response, a.clock.storeAt);
      }
      return if response.Some? then Answered(response.value) else Error, true;
    }
  }

  // ---- runs ----

  function After(cfg: Config, run: seq<Arrival>): Server {
    if run == [] then NewServer() else HandleStep(cfg, After(cfg, run[..|run| - 1]), run[|run| - 1]).0
  }

  /** The cache calls that one message makes. */
  function CacheCalls(cfg: Config, s: Server, a: Arrival): seq<Event<Response>> {
    if !Keyed(cfg, a.m) || HandleStep(cfg, s, a).1 == TooLarge || HandleStep(cfg, s, a).1 == RateLimited then []
    else if HandleStep(cfg, s, a).1.Answered?
    then [Event(Get(a.m.key), a.clock.checkAt)] +
         [Event(Set(a.m.key, HandleStep(cfg, s, a).1.response, CACHE_TTL), a.clock.storeAt)]
    else [Event(Get(a.m.key), a.clock.checkAt)]
  }

  function CacheRun(cfg: Config, run: seq<Arrival>): seq<Event<Response>> {
    if run == [] then []
    else CacheRun(cfg, run[..|run| - 1]) + CacheCalls(cfg, After(cfg, run[..|run| - 1]), run[|run| - 1])
  }

  /** The latest successful execution that was stored under the key. */
  ghost function LastStored(cfg: Config, run: seq<Arrival>, key: Key): Option<LruHistory.Write<Response>> {
    if run == [] then None
    else
      var a := run[|run| - 1];
      var reply := HandleStep(cfg, After(cfg, run[..|run| - 1]), a).1;
      if a.m.key == key && Keyed(cfg, a.m) && reply.Answered?
      then Some(LruHistory.Write(reply.response, CACHE_TTL, a.clock.storeAt))
      else LastStored(cfg, run[..|run| - 1], key)
  }

  /** Messages are handled one after the other on a clock that does not go back. */
  ghost predicate Serialised(run: seq<Arrival>, until: Time) {
    if run == [] then true
    else
      var clock := run[|run| - 1].clock;
      clock.checkAt <= clock.storeAt <= until && Serialised(run[..|run| - 1], clock.checkAt)
  }

  function GetCall(a: Arrival): Event<Response> {
    Event(Get(a.m.key), a.clock.checkAt)
  }

  function SetCall(a: Arrival, response: Response): Event<Response> {
    Event(Set(a.m.key, response, CACHE_TTL), a.clock.storeAt)
  }

  /** What one message does to the cache, in terms of its cache calls. */
  lemma MessageCalls(cfg: Config, s: Server, a: Arrival)
    ensures var calls := CacheCalls(cfg, s, a);
            var (next, reply, _) := HandleStep(cfg, s, a);
            && (calls == [] ==> next.cache == s.cache && !(Keyed(cfg, a.m) && reply.Answered?))
            && (calls != [] ==>
                  && Keyed(cfg, a.m)
                  && calls == (if reply.Answered? then [GetCall(a)] + [SetCall(a, reply.response)] else [GetCall(a)])
                  && next.cache == (if reply.Answered? then Step(Step(s.cache, GetCall(a)), SetCall(a, reply.response))
                                    else Step(s.cache, GetCall(a))))
  {
    hide GetStep, SetStep, RateStep;
  }

  lemma CallsExtend(cfg: Config, s: Server, a: Arrival, calls: seq<Event<Response>>, until: Time)
    requires s.cache == LruModel.After(NewCache(), calls)
    requires Monotone(calls, a.clock.checkAt) && a.clock.checkAt <= a.clock.storeAt <= until
    ensures HandleStep(cfg, s, a).0.cache == LruModel.After(NewCache(), calls + CacheCalls(cfg, s, a))
    ensures Monotone(calls + CacheCalls(cfg, s, a), until)
  {
    MessageCalls(cfg, s, a);
    hide HandleStep, CacheCalls, Step, LruModel.After, Monotone;
    var more, reply := CacheCalls(cfg, s, a), HandleStep(cfg, s, a).1;
    if more == [] {
      assert calls + more == calls;
      LruHistory.MonotoneLater(calls, a.clock.checkAt, until);
    } else {
      LruHistory.AppendCall(NewCache(), calls, GetCall(a), a.clock.checkAt);
      if reply.Answered? {
        LruHistory.AppendCall(NewCache(), calls + [GetCall(a)], SetCall(a, reply.response), a.clock.checkAt);
        assert calls + more == calls + [GetCall(a)] + [SetCall(a, reply.response)];
        LruHistory.MonotoneLater(calls + more, a.clock.storeAt, until);
      } else {
        LruHistory.MonotoneLater(calls + more, a.clock.checkAt, until);
      }
    }
  }

  /** The server's cache is a cache that only saw these calls. */
  lemma {:induction false} CacheRefines(cfg: Config, run: seq<Arrival>, until: Time)
    requires Serialised(run, until)
    ensures After(cfg, run).cache == LruModel.After(NewCache(), CacheRun(cfg, run))
    ensures Monotone(CacheRun(cfg, run), until)
  {
    if run != [] {
      var before, a := run[..|run| - 1], run[|run| - 1];
      CacheRefines(cfg, before, a.clock.checkAt);
      hide HandleStep, CacheCalls, LruModel.After, Monotone;
      CallsExtend(cfg, After(cfg, before), a, CacheRun(cfg, before), until);
    }
  }

  /** What one message adds to the history of writes. */
  lemma MessageWrites(cfg: Config, s: Server, a: Arrival, calls: seq<Event<Response>>, key: Key)
    ensures LruHistory.LastWrite(calls + CacheCalls(cfg, s, a), key) ==
            if a.m.key == key && Keyed(cfg, a.m) && HandleStep(cfg, s, a).1.Answered?
            then Some(LruHistory.Write(HandleStep(cfg, s, a).1.response, CACHE_TTL, a.clock.storeAt))
            else LruHistory.LastWrite(calls, key)
  {
    MessageCalls(cfg, s, a);
    hide HandleStep, CacheCalls, Step, LruHistory.LastWrite;
    var more, reply := CacheCalls(cfg, s, a), HandleStep(cfg, s, a).1;
    if more == [] {
      assert calls + more == calls;
    } else {
      LruHistory.WriteAppend(calls, GetCall(a), key);
      if reply.Answered? {
        LruHistory.WriteAppend(calls + [GetCall(a)], SetCall(a, reply.response), key);
        assert calls + more == calls + [GetCall(a)] + [SetCall(a, reply.response)];
      }
    }
  }

  /** The cache's history of writes is the history of stored executions. */
  lemma {:induction false} WritesAreStores(cfg: Config, run: seq<Arrival>, key: Key)
    ensures LruHistory.LastWrite(CacheRun(cfg, run), key) == LastStored(cfg, run, key)
    ensures LastStored(cfg, run, key).Some? ==> LastStored(cfg, run, key).value.ttl == CACHE_TTL
  {
    if run != [] {
      var before, a := run[..|run| - 1], run[|run| - 1];
      WritesAreStores(cfg, before, key);
      hide HandleStep, CacheCalls, LruHistory.LastWrite, Keyed;
      MessageWrites(cfg, After(cfg, before), a, CacheRun(cfg, before), key);
    }
  }

  /** The other keys whose entries were stored or replayed since this key's last
      store or replay. */
  ghost function OthersSince(cfg: Config, run: seq<Arrival>, key: Key): set<Key> {
    LruHistory.Since(NewCache(), CacheRun(cfg, run), key)
  }

  /** Main result: within 300 s of the latest stored execution under a key, and while
      fewer than 10000 other keys were touched since the key's last touch, a message
      with that key never reaches the runtime; unless the size or rate check turns it
      away, it is answered with that very response. */
  lemma {:induction false} AtMostOnce(cfg: Config, run: seq<Arrival>, a: Arrival)
    requires Keyed(cfg, a.m) && Serialised(run, a.clock.checkAt)
    requires LastStored(cfg, run, a.m.key).Some?
    requires a.clock.checkAt <= LastStored(cfg, run, a.m.key).value.at + CACHE_TTL
    requires |OthersSince(cfg, run, a.m.key)| < CACHE_CAPACITY
    ensures var (_, reply, asked) := HandleStep(cfg, After(cfg, run), a);
            && !asked
            && reply == (if Oversized(cfg, a.m) then TooLarge
                         else if !RateStep(cfg, After(cfg, run).limits, a.m, a.clock.rateAt).1 then RateLimited
                         else Replayed(LastStored(cfg, run, a.m.key).value.value))
  {
    hide LruHistory.Since, GetStep, LruHistory.LastWrite, LruModel.After, RateStep;
    CacheRefines(cfg, run, a.clock.checkAt);
    WritesAreStores(cfg, run, a.m.key);
    LruHistory.Retention(CACHE_CAPACITY, CACHE_TTL, CacheRun(cfg, run), a.m.key, a.clock.checkAt);
  }

  // ---- the answer in full ----

  /** The message is too large for a protected server with a positive maximum. */
  predicate TooBig(cfg: Config, m: Message) {
    cfg.ddosProtection && 0 < cfg.maxRequestSize < m.size
  }

  /** The requests that the rate check sees: under protection, one for each message that
      is not too large, from the message's own address. */
  function Requests(cfg: Config, run: seq<Arrival>): seq<Ip.Request> {
    if run == [] then []
    else
      var a := run[|run| - 1];
      var before := Requests(cfg, run[..|run| - 1]);
      if cfg.ddosProtection && !TooBig(cfg, a.m) then before + [Ip.Request(a.m.ip, a.clock.rateAt)] else before
  }

  lemma MessageLimits(cfg: Config, s: Server, a: Arrival)
    ensures HandleStep(cfg, s, a).0.limits ==
            if cfg.ddosProtection && !TooBig(cfg, a.m)
            then Ip.CheckStep(s.limits, cfg.rateLimitPerIP, Ip.Request(a.m.ip, a.clock.rateAt)).0 else s.limits
    ensures HandleStep(cfg, s, a).1 == RateLimited <==>
            cfg.ddosProtection && !TooBig(cfg, a.m) &&
            !Ip.CheckStep(s.limits, cfg.rateLimitPerIP, Ip.Request(a.m.ip, a.clock.rateAt)).1
  {
    hide GetStep, SetStep, Ip.CheckStep;
  }

  lemma {:induction false} LimitsRefine(cfg: Config, run: seq<Arrival>)
    ensures After(cfg, run).limits == Ip.Final(map[], cfg.rateLimitPerIP, Requests(cfg, run))
  {
    if run != [] {
      var before, a := run[..|run| - 1], run[|run| - 1];
      LimitsRefine(cfg, before);
      MessageLimits(cfg, After(cfg, before), a);
      Ip.OneMore(map[], cfg.rateLimitPerIP, Requests(cfg, before), Ip.Request(a.m.ip, a.clock.rateAt));
      hide HandleStep, Ip.CheckStep, Ip.Final;
    }
  }

  /** The rate check turns this message away after this run. */
  predicate TurnedAway(cfg: Config, run: seq<Arrival>, a: Arrival) {
    cfg.ddosProtection && !TooBig(cfg, a.m) &&
    var requests := Requests(cfg, run);
    !Ip.Decisions(map[], cfg.rateLimitPerIP, requests + [Ip.Request(a.m.ip, a.clock.rateAt)])[|requests|]
  }

  /** The server's rate decisions are those of the per-IP limiter on the addresses of
      the messages that reach the check. */
  lemma {:induction false} RateLimitedExactly(cfg: Config, run: seq<Arrival>, a: Arrival)
    ensures HandleStep(cfg, After(cfg, run), a).1 == RateLimited <==> TurnedAway(cfg, run, a)
  {
    LimitsRefine(cfg, run);
    MessageLimits(cfg, After(cfg, run), a);
    Ip.OneMore(map[], cfg.rateLimitPerIP, Requests(cfg, run), Ip.Request(a.m.ip, a.clock.rateAt));
    hide HandleStep, Ip.CheckStep;
  }

  /** A response is stored under the message's key that is at most 300 s old and has not
      been pushed out. */
  ghost predicate Live(cfg: Config, run: seq<Arrival>, a: Arrival) {
    && cfg.idempotency && a.m.key != ""
    && LastStored(cfg, run, a.m.key).Some?
    && a.clock.checkAt <= LastStored(cfg, run, a.m.key).value.at + 300_000_000_000
    && !LruHistory.EvictedSince(LruModel.New<Response>(10_000, 300_000_000_000), CacheRun(cfg, run), a.m.key)
  }

  /** Main result: the answer to any message after any serialised run, by the message's
      own fields. Too large, rate limited and replayed come first, in this order; after
      that an EXEC or QUERY, and nothing else, asks the runtime and is answered with its
      data under the message's own ID, key or no key, and with an error otherwise. */
  lemma {:induction false} ReplyExactly(cfg: Config, run: seq<Arrival>, a: Arrival)
    requires Serialised(run, a.clock.checkAt)
    ensures var (next, reply, asked) := HandleStep(cfg, After(cfg, run), a);
            var passed := !TooBig(cfg, a.m) && !TurnedAway(cfg, run, a) && !Live(cfg, run, a);
            && (reply == TooLarge <==> TooBig(cfg, a.m))
            && (reply == RateLimited <==> TurnedAway(cfg, run, a))
            && (reply.Replayed? <==> !TooBig(cfg, a.m) && !TurnedAway(cfg, run, a) && Live(cfg, run, a))
            && (reply.Replayed? ==> reply.response == LastStored(cfg, run, a.m.key).value.value)
            && (asked <==> passed && (a.m.kind == Exec || a.m.kind == Query))
            && (passed ==> match a.m.kind
                           case Exec => reply == RuntimeReply(a)
                           case Query => reply == RuntimeReply(a)
                           case Unknown => reply == Error
                           case _ => reply == Info)
            && (reply == TooLarge || reply == RateLimited ==> next == After(cfg, run))
  {
    hide LruHistory.EvictedSince, LruModel.After, LruHistory.LastWrite, GetStep, SetStep, TurnedAway;
    RateLimitedExactly(cfg, run, a);
    CacheRefines(cfg, run, a.clock.checkAt);
    WritesAreStores(cfg, run, a.m.key);
    LruHistory.GetAnswersLastWrite(CACHE_CAPACITY, CACHE_TTL, CacheRun(cfg, run), a.m.key, a.clock.checkAt);
  }

  /** The runtime's own word: its data under the message's ID, or an error. */
  function RuntimeReply(a: Arrival): Reply {
    match a.outcome
    case Data(payload) => Answered(Response(a.m.id, payload))
    case RuntimeError => Error
    case NotEncodable => Error
  }

  /** Whatever is replayed is the latest stored execution, at most 300 s old; failed
      and unencodable executions are never replayed. */
  lemma {:induction false} ReplayIsLastStored(cfg: Config, run: seq<Arrival>, a: Arrival)
    requires Serialised(run, a.clock.checkAt) && HandleStep(cfg, After(cfg, run), a).1.Replayed?
    ensures LastStored(cfg, run, a.m.key).Some?
    ensures HandleStep(cfg, After(cfg, run), a).1.response == LastStored(cfg, run, a.m.key).value.value
    ensures a.clock.checkAt <= LastStored(cfg, run, a.m.key).value.at + CACHE_TTL
  {
    hide LruHistory.EvictedSince, LruHistory.LastWrite, LruModel.After, RateStep;
    CacheRefines(cfg, run, a.clock.checkAt);
    WritesAreStores(cfg, run, a.m.key);
    LruHistory.GetAnswersLastWrite(CACHE_CAPACITY, CACHE_TTL, CacheRun(cfg, run), a.m.key, a.clock.checkAt);
  }

  // ---- two connections at once ----

  /** One message up to the call of the runtime: the reply if it ends before. */
  function Begin(cfg: Config, s: Server, a: Arrival): (Server, Option<Reply>) {
    if Oversized(cfg, a.m) then (s, Some(TooLarge))
    else
      var (limits, ok) := RateStep(cfg, s.limits, a.m, a.clock.rateAt);
      if !ok then (s.(limits := limits), Some(RateLimited))
      else
        var (cache, hit) := if Keyed(cfg, a.m) then GetStep(s.cache, a.m.key, a.clock.checkAt) else (s.cache, None);
        (Server(limits, cache),
         if hit.Some? then Some(Replayed(hit.value))
         else if !Runs(a.m) then Some(if a.m.kind == Unknown then Error else Info)
         else None)
  }

  /** The call of the runtime and the store. */
  function Finish(cfg: Config, s: Server, a: Arrival): (Server, Reply) {
    match a.outcome
    case Data(payload) =>
      var response := Response(a.m.id, payload);
      (if Keyed(cfg, a.m) then s.(cache := SetStep(s.cache, a.m.key, response, CACHE_TTL, a.clock.storeAt)) else s,
       Answered(response))
    case _ => (s, Error)
  }

  /** A message handled alone is its two parts in a row. */
  lemma HandleSplits(cfg: Config, s: Server, a: Arrival)
    ensures var (begun, reply) := Begin(cfg, s, a);
            HandleStep(cfg, s, a) ==
            if reply.Some? then (begun, reply.value, false)
            else (Finish(cfg, begun, a).0, Finish(cfg, begun, a).1, true)
  {
    hide GetStep, SetStep, RateStep;
  }

  /** The parts of the messages of any number of connections, as they happen. */
  datatype Part = Begins(a: Arrival) | Finishes(a: Arrival)

  function PartStep(cfg: Config, s: Server, p: Part): Server {
    match p
    case Begins(a) => Begin(cfg, s, a).0
    case Finishes(a) => Finish(cfg, s, a).0
  }

  function PartsAfter(cfg: Config, s: Server, run: seq<Part>): Server {
    if run == [] then s else PartStep(cfg, PartsAfter(cfg, s, run[..|run| - 1]), run[|run| - 1])
  }

  /** The messages that have gone on to the runtime and have not finished. */
  function Pending(cfg: Config, s: Server, run: seq<Part>): multiset<Arrival> {
    if run == [] then multiset{}
    else
      var p, pending := run[|run| - 1], Pending(cfg, s, run[..|run| - 1]);
      if p.Finishes? then pending - multiset{p.a}
      else if Begin(cfg, PartsAfter(cfg, s, run[..|run| - 1]), p.a).1.None? then pending + multiset{p.a}
      else pending
  }

  /** Only messages that have gone on to the runtime finish, each once. */
  predicate Proper(cfg: Config, s: Server, run: seq<Part>) {
    run != [] ==>
      && Proper(cfg, s, run[..|run| - 1])
      && (run[|run| - 1].Finishes? ==> run[|run| - 1].a in Pending(cfg, s, run[..|run| - 1]))
  }

  /** The part stores an execution under the key. */
  predicate Stores(cfg: Config, p: Part, key: Key) {
    p.Finishes? && Keyed(cfg, p.a.m) && p.a.m.key == key && p.a.outcome.Data?
  }

  predicate Unstored(s: Server, key: Key) {
    Find(s.cache.list, key).None?
  }

  lemma BeginStoresNothing(cfg: Config, s: Server, a: Arrival, key: Key)
    ensures Unstored(s, key) ==> Unstored(Begin(cfg, s, a).0, key)
    ensures Keyed(cfg, a.m) && a.m.key == key && Begin(cfg, s, a).1.None? ==> Unstored(Begin(cfg, s, a).0, key)
  {
    hide RateStep;
    var found := Find(s.cache.list, a.m.key);
    if found.Some? {
      FindCons(found.value, Without(s.cache.list, a.m.key), key);
    }
  }

  lemma PartStepValid(cfg: Config, s: Server, p: Part)
    requires Valid(s.cache)
    ensures Valid(PartStep(cfg, s, p).cache)
  {
    StepValid(s.cache, GetCall(p.a));
    if p.a.outcome.Data? {
      StepValid(s.cache, SetCall(p.a, Response(p.a.m.id, p.a.outcome.payload)));
    }
    hide GetStep, SetStep, RateStep, Valid;
  }

  lemma PartStoresNothing(cfg: Config, s: Server, p: Part, key: Key)
    requires Valid(s.cache) && Unstored(s, key) && !Stores(cfg, p, key)
    ensures Unstored(PartStep(cfg, s, p), key)
  {
    if p.Begins? {
      BeginStoresNothing(cfg, s, p.a, key);
    } else if p.a.outcome.Data? {
      var response := Response(p.a.m.id, p.a.outcome.payload);
      LruHistory.FindAfterSet(s.cache, p.a.m.key, response, CACHE_TTL, p.a.clock.storeAt, key);
    }
    hide Begin, SetStep;
  }

  /** At-most-once needs the serialisation: once one message has gone on to the
      runtime, and through any interleaving of parts of other messages that stores
      nothing under its key, every message with that key that passes the size and rate
      checks reaches the runtime too. */
  lemma {:induction false} InterleavedTwice(cfg: Config, s: Server, a: Arrival, between: seq<Part>, b: Arrival)
    requires Valid(s.cache) && Keyed(cfg, a.m) && Begin(cfg, s, a).1.None?
    requires forall i | 0 <= i < |between| :: !Stores(cfg, between[i], a.m.key)
    requires b.m.key == a.m.key && Runs(b.m)
    ensures var now := PartsAfter(cfg, Begin(cfg, s, a).0, between);
            && Valid(now.cache) && Unstored(now, a.m.key)
            && (Begin(cfg, now, b).1.None? <==>
                !Oversized(cfg, b.m) && RateStep(cfg, now.limits, b.m, b.clock.rateAt).1)
  {
    BeginStoresNothing(cfg, s, a, a.m.key);
    PartStepValid(cfg, s, Begins(a));
    hide Begin, Unstored, Stores, Valid;
    if between != [] {
      var earlier, p := between[..|between| - 1], between[|between| - 1];
      InterleavedTwice(cfg, s, a, earlier, b);
      PartStepValid(cfg, PartsAfter(cfg, Begin(cfg, s, a).0, earlier), p);
      PartStoresNothing(cfg, PartsAfter(cfg, Begin(cfg, s, a).0, earlier), p, a.m.key);
    }
    BeginUnstored(cfg, PartsAfter(cfg, Begin(cfg, s, a).0, between), b);
  }

  lemma BeginUnstored(cfg: Config, s: Server, b: Arrival)
    requires Keyed(cfg, b.m) && Runs(b.m) && Unstored(s, b.m.key)
    ensures Begin(cfg, s, b).1.None? <==> !Oversized(cfg, b.m) && RateStep(cfg, s.limits, b.m, b.clock.rateAt).1
  {
    hide RateStep;
  }

  /** Executions stored under the key. */
  function Executions(cfg: Config, run: seq<Part>, key: Key): nat {
    if run == [] then 0
    else Executions(cfg, run[..|run| - 1], key) + if Stores(cfg, run[|run| - 1], key) then 1 else 0
  }

  lemma LastPart(cfg: Config, s: Server, run: seq<Part>, p: Part, key: Key)
    ensures PartsAfter(cfg, s, run + [p]) == PartStep(cfg, PartsAfter(cfg, s, run), p)
    ensures Proper(cfg, s, run + [p]) <==> Proper(cfg, s, run) && (p.Finishes? ==> p.a in Pending(cfg, s, run))
    ensures Pending(cfg, s, run + [p]) ==
            if p.Finishes? then Pending(cfg, s, run) - multiset{p.a}
            else if Begin(cfg, PartsAfter(cfg, s, run), p.a).1.None? then Pending(cfg, s, run) + multiset{p.a}
            else Pending(cfg, s, run)
    ensures Executions(cfg, run + [p], key) == Executions(cfg, run, key) + if Stores(cfg, p, key) then 1 else 0
  {
    assert (run + [p])[..|run|] == run;
    hide Begin, PartStep, Stores;
  }

  /** An instance on a new server: two messages with one key on two connections are
      both executed successfully, whatever the configuration, when the second one
      begins before the first one's store and is not turned away. */
  lemma ExecutedTwice(cfg: Config, a: Arrival, b: Arrival)
    requires Keyed(cfg, a.m) && a.m.key == b.m.key && Runs(a.m) && Runs(b.m)
    requires a.outcome.Data? && b.outcome.Data? && !Oversized(cfg, a.m) && !Oversized(cfg, b.m)
    requires RateStep(cfg, RateStep(cfg, map[], a.m, a.clock.rateAt).0, b.m, b.clock.rateAt).1
    ensures var run := [Begins(a)] + [Begins(b)] + [Finishes(a)] + [Finishes(b)];
            Proper(cfg, NewServer(), run) && Executions(cfg, run, a.m.key) == 2
  {
    FirstBegins(cfg, a);
    InterleavedTwice(cfg, NewServer(), a, [], b);
    StoresOwn(cfg, a);
    StoresOwn(cfg, b);
    hide Begin, RateStep, NewServer, Stores, Valid, Proper, Executions;
    BothFinish(cfg, NewServer(), a, b, a.m.key);
  }

  lemma FirstBegins(cfg: Config, a: Arrival)
    requires Keyed(cfg, a.m) && Runs(a.m) && !Oversized(cfg, a.m)
    ensures Valid(NewServer().cache) && Begin(cfg, NewServer(), a).1.None?
    ensures Begin(cfg, NewServer(), a).0.limits == RateStep(cfg, map[], a.m, a.clock.rateAt).0
  {
  }

  /** Two messages go on to the runtime one after the other, */
  lemma BothBegin(cfg: Config, s: Server, a: Arrival, b: Arrival, key: Key)
    requires Begin(cfg, s, a).1.None? && Begin(cfg, Begin(cfg, s, a).0, b).1.None?
    requires !Stores(cfg, Begins(a), key) && !Stores(cfg, Begins(b), key)
    ensures var run := [Begins(a)] + [Begins(b)];
            && Proper(cfg, s, run) && Executions(cfg, run, key) == 0
            && Pending(cfg, s, run) == multiset{} + multiset{a} + multiset{b}
  {
    hide Begin, PartStep, Stores, Proper, Pending, Executions, PartsAfter;
    var run1 := [] + [Begins(a)];
    assert run1 == [Begins(a)];
    NoParts(cfg, s, key);
    BeginsFirst(cfg, s, a);
    LastPart(cfg, s, [], Begins(a), key);
    LastPart(cfg, s, run1, Begins(b), key);
  }

  /** and then both finish. */
  lemma BothFinish(cfg: Config, s: Server, a: Arrival, b: Arrival, key: Key)
    requires Begin(cfg, s, a).1.None? && Begin(cfg, Begin(cfg, s, a).0, b).1.None?
    requires Stores(cfg, Finishes(a), key) && Stores(cfg, Finishes(b), key)
    requires !Stores(cfg, Begins(a), key) && !Stores(cfg, Begins(b), key)
    ensures var run := [Begins(a)] + [Begins(b)] + [Finishes(a)] + [Finishes(b)];
            Proper(cfg, s, run) && Executions(cfg, run, key) == 2
  {
    hide Begin, PartStep, Stores, Proper, Pending, Executions, PartsAfter;
    var run2 := [Begins(a)] + [Begins(b)];
    BothBegin(cfg, s, a, b, key);
    OneOfTwo(a, b);
    LastPart(cfg, s, run2, Finishes(a), key);
    LastPart(cfg, s, run2 + [Finishes(a)], Finishes(b), key);
  }

  lemma OneOfTwo(a: Arrival, b: Arrival)
    ensures a in multiset{} + multiset{a} + multiset{b}
    ensures b in multiset{} + multiset{a} + multiset{b} - multiset{a}
  {
  }

  lemma BeginsFirst(cfg: Config, s: Server, a: Arrival)
    ensures PartStep(cfg, s, Begins(a)) == Begin(cfg, s, a).0
  {
    hide Begin;
  }

  lemma NoParts(cfg: Config, s: Server, key: Key)
    ensures Proper(cfg, s, []) && PartsAfter(cfg, s, []) == s
    ensures Pending(cfg, s, []) == multiset{} && Executions(cfg, [], key) == 0
  {
  }

  lemma StoresOwn(cfg: Config, a: Arrival)
    requires Keyed(cfg, a.m) && a.outcome.Data?
    ensures Stores(cfg, Finishes(a), a.m.key)
    ensures forall c :: !Stores(cfg, Begins(c), a.m.key)
  {
  }

  // ---- what reaches the runtime, over every interleaving ----

  /** The cache calls of one part. */
  function PartCalls(cfg: Config, s: Server, p: Part): seq<Event<Response>> {
    match p
    case Begins(a) =>
      if Keyed(cfg, a.m) && !Oversized(cfg, a.m) && RateStep(cfg, s.limits, a.m, a.clock.rateAt).1
      then [GetCall(a)] else []
    case Finishes(a) =>
      if Stores(cfg, p, a.m.key) then [SetCall(a, Response(a.m.id, a.outcome.payload))] else []
  }

  function PartRun(cfg: Config, run: seq<Part>): seq<Event<Response>> {
    if run == [] then []
    else PartRun(cfg, run[..|run| - 1]) + PartCalls(cfg, PartsAfter(cfg, NewServer(), run[..|run| - 1]), run[|run| - 1])
  }

  function TimeOf(p: Part): Time {
    match p case Begins(a) => a.clock.checkAt case Finishes(a) => a.clock.storeAt
  }

  /** The cache is called in the order of the clock. */
  ghost predicate Ordered(run: seq<Part>, until: Time) {
    run != [] ==> TimeOf(run[|run| - 1]) <= until && Ordered(run[..|run| - 1], TimeOf(run[|run| - 1]))
  }

  /** The latest execution stored under the key, of whatever connection. */
  ghost function LastFinished(cfg: Config, run: seq<Part>, key: Key): Option<LruHistory.Write<Response>> {
    if run == [] then None
    else
      var p := run[|run| - 1];
      if Stores(cfg, p, key)
      then Some(LruHistory.Write(Response(p.a.m.id, p.a.outcome.payload), CACHE_TTL, p.a.clock.storeAt))
      else LastFinished(cfg, run[..|run| - 1], key)
  }

  lemma PartExtends(cfg: Config, s: Server, p: Part, calls: seq<Event<Response>>, until: Time)
    requires s.cache == LruModel.After(NewCache(), calls) && Monotone(calls, TimeOf(p)) && TimeOf(p) <= until
    ensures PartStep(cfg, s, p).cache == LruModel.After(NewCache(), calls + PartCalls(cfg, s, p))
    ensures Monotone(calls + PartCalls(cfg, s, p), until)
  {
    hide LruModel.After, Monotone, GetStep, SetStep, RateStep;
    var more := PartCalls(cfg, s, p);
    if more == [] {
      assert calls + more == calls;
      LruHistory.MonotoneLater(calls, TimeOf(p), until);
    } else {
      assert more == [more[0]];
      LruHistory.AppendCall(NewCache(), calls, more[0], TimeOf(p));
      LruHistory.MonotoneLater(calls + more, TimeOf(p), until);
    }
  }

  lemma {:induction false} PartsRefine(cfg: Config, run: seq<Part>, until: Time)
    requires Ordered(run, until)
    ensures PartsAfter(cfg, NewServer(), run).cache == LruModel.After(NewCache(), PartRun(cfg, run))
    ensures Monotone(PartRun(cfg, run), until)
  {
    if run != [] {
      var before, p := run[..|run| - 1], run[|run| - 1];
      PartsRefine(cfg, before, TimeOf(p));
      hide PartStep, PartCalls, LruModel.After, Monotone;
      PartExtends(cfg, PartsAfter(cfg, NewServer(), before), p, PartRun(cfg, before), until);
    }
  }

  lemma {:induction false} FinishesAreWrites(cfg: Config, run: seq<Part>, key: Key)
    ensures LruHistory.LastWrite(PartRun(cfg, run), key) == LastFinished(cfg, run, key)
    ensures LastFinished(cfg, run, key).Some? ==> LastFinished(cfg, run, key).value.ttl == CACHE_TTL
  {
    if run != [] {
      var before, p := run[..|run| - 1], run[|run| - 1];
      var calls, more := PartRun(cfg, before), PartCalls(cfg, PartsAfter(cfg, NewServer(), before), p);
      FinishesAreWrites(cfg, before, key);
      hide LruHistory.LastWrite, RateStep, PartsAfter;
      if more == [] {
        assert calls + more == calls;
      } else {
        assert more == [more[0]];
        LruHistory.WriteAppend(calls, more[0], key);
      }
    }
  }

  /** Main result: over every interleaving of any number of connections, exactly which
      messages reach the runtime. A message that passes the size and rate checks is
      answered from the cache if and only if an execution has been stored under its
      key, at most 300 s ago, and not pushed out; the answer is the latest such one. */
  lemma {:induction false} ReachesRuntimeExactly(cfg: Config, run: seq<Part>, b: Arrival)
    requires Ordered(run, b.clock.checkAt)
    ensures var s := PartsAfter(cfg, NewServer(), run);
            var stored := LastFinished(cfg, run, b.m.key);
            var live := Keyed(cfg, b.m) && stored.Some? && b.clock.checkAt <= stored.value.at + CACHE_TTL &&
                        !LruHistory.EvictedSince(NewCache(), PartRun(cfg, run), b.m.key);
            Begin(cfg, s, b).1 ==
            if Oversized(cfg, b.m) then Some(TooLarge)
            else if !RateStep(cfg, s.limits, b.m, b.clock.rateAt).1 then Some(RateLimited)
            else if live then Some(Replayed(stored.value.value))
            else if Runs(b.m) then None
            else Some(if b.m.kind == Unknown then Error else Info)
  {
    hide LruHistory.EvictedSince, LruModel.After, LruHistory.LastWrite, RateStep, GetStep;
    PartsRefine(cfg, run, b.clock.checkAt);
    FinishesAreWrites(cfg, run, b.m.key);
    LruHistory.GetAnswersLastWrite(CACHE_CAPACITY, CACHE_TTL, PartRun(cfg, run), b.m.key, b.clock.checkAt);
  }

  // ---- a whole session ----

  function Keys(run: seq<Arrival>): set<Key> {
    set i | 0 <= i < |run| :: run[i].m.key
  }

  /** Executions under the key that reached the runtime and succeeded. */
  function Successes(cfg: Config, run: seq<Arrival>, key: Key): nat {
    if run == [] then 0
    else
      var a := run[|run| - 1];
      var n := Successes(cfg, run[..|run| - 1], key);
      if a.m.key == key && HandleStep(cfg, After(cfg, run[..|run| - 1]), a).1.Answered? then n + 1 else n
  }

  ghost function CallKeys<V>(run: seq<Event<V>>): set<Key> {
    if run == [] then {}
    else if run[|run| - 1].op.Purge? then CallKeys(run[..|run| - 1])
    else CallKeys(run[..|run| - 1]) + {run[|run| - 1].op.key}
  }

  lemma CallKeysAppend<V>(run: seq<Event<V>>, ev: Event<V>)
    ensures CallKeys(run + [ev]) == CallKeys(run) + if ev.op.Purge? then {} else {ev.op.key}
  {
    assert (run + [ev])[..|run|] == run;
  }

  lemma MessageKeys(cfg: Config, s: Server, a: Arrival, calls: seq<Event<Response>>)
    ensures CallKeys(calls + CacheCalls(cfg, s, a)) <= CallKeys(calls) + {a.m.key}
  {
    MessageCalls(cfg, s, a);
    hide HandleStep, CacheCalls, Step, CallKeys;
    var more, reply := CacheCalls(cfg, s, a), HandleStep(cfg, s, a).1;
    if more == [] {
      assert calls + more == calls;
    } else {
      CallKeysAppend(calls, GetCall(a));
      if reply.Answered? {
        CallKeysAppend(calls + [GetCall(a)], SetCall(a, reply.response));
        assert calls + more == calls + [GetCall(a)] + [SetCall(a, reply.response)];
      }
    }
  }

  lemma {:induction false} CacheKeys(cfg: Config, run: seq<Arrival>)
    ensures CallKeys(CacheRun(cfg, run)) <= Keys(run)
  {
    if run != [] {
      var before, a := run[..|run| - 1], run[|run| - 1];
      CacheKeys(cfg, before);
      hide HandleStep, CacheCalls, Keys, CallKeys;
      KeysAppend(before, a);
      assert before + [a] == run;
      MessageKeys(cfg, After(cfg, before), a, CacheRun(cfg, before));
    }
  }

  lemma KeysAppend(run: seq<Arrival>, a: Arrival)
    ensures Keys(run + [a]) == Keys(run) + {a.m.key}
  {
    forall k | k in Keys(run) + {a.m.key} ensures k in Keys(run + [a]) {
      if k in Keys(run) {
        var i :| 0 <= i < |run| && run[i].m.key == k;
        assert (run + [a])[i].m.key == k;
      } else {
        assert (run + [a])[|run|].m.key == k;
      }
    }
  }

  lemma {:induction false} SinceAreCallKeys<V>(c: Lru<V>, run: seq<Event<V>>, key: Key)
    ensures LruHistory.Since(c, run, key) <= CallKeys(run) - {key}
  {
    if run != [] {
      SinceAreCallKeys(c, DropLast(run), key);
    }
  }

  lemma NotExecutedAgain(cfg: Config, before: seq<Arrival>, a: Arrival)
    requires Keyed(cfg, a.m) && Serialised(before, a.clock.checkAt)
    requires LastStored(cfg, before, a.m.key).Some?
    requires a.clock.checkAt <= LastStored(cfg, before, a.m.key).value.at + CACHE_TTL
    requires |Keys(before + [a])| <= CACHE_CAPACITY
    ensures !HandleStep(cfg, After(cfg, before), a).1.Answered?
  {
    hide LruHistory.Since, HandleStep, Serialised, LastStored;
    SinceAreCallKeys(NewCache(), CacheRun(cfg, before), a.m.key);
    CacheKeys(cfg, before);
    KeysAppend(before, a);
    LruHistory.SubsetSize(OthersSince(cfg, before, a.m.key) + {a.m.key}, Keys(before + [a]));
    AtMostOnce(cfg, before, a);
  }

  /** At most once, for whole sessions: when a session of at most 10000 distinct keys
      lasts at most 300 s, no key is ever executed successfully twice. */
  lemma {:induction false} OncePerSession(cfg: Config, run: seq<Arrival>, t0: Time, until: Time, key: Key)
    requires cfg.idempotency && key != "" && Serialised(run, until)
    requires forall i | 0 <= i < |run| :: t0 <= run[i].clock.checkAt <= run[i].clock.storeAt <= t0 + CACHE_TTL
    requires |Keys(run)| <= CACHE_CAPACITY
    ensures Successes(cfg, run, key) == if LastStored(cfg, run, key).Some? then 1 else 0
    ensures LastStored(cfg, run, key).Some? ==> t0 <= LastStored(cfg, run, key).value.at
  {
    if run != [] {
      hide HandleStep, Keys;
      var before, a := run[..|run| - 1], run[|run| - 1];
      assert before + [a] == run;
      KeysAppend(before, a);
      LruHistory.SubsetSize(Keys(before), Keys(run));
      OncePerSession(cfg, before, t0, a.clock.checkAt, key);
      if a.m.key == key && LastStored(cfg, before, key).Some? {
        NotExecutedAgain(cfg, before, a);
      }
    }
  }
}
