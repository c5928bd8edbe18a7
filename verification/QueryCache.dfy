/** QueryCached of dbruntime.go: a read-through client of the cache over a database
    that is a parameter of every call. */
module QueryCache {
  import opened Wrappers
  import opened LruModel
  import LruHistory
  import LruCache

  datatype Cell = Bytes(raw: string) | Text(text: string) | Number(n: int) | Null

  /** The materialised result that is returned and cached. */
  datatype Table = Table(columns: seq<string>, rows: seq<seq<Cell>>)

  /** Values that other users of the cache may have put there are Foreign. */
  datatype Cached = Rows(table: Table) | Foreign

  /** What the database does with one query: fails at once, fails to name its columns,
      or yields rows and then possibly an iteration error. */
  datatype DbResult =
    | QueryError
    | ColumnsError
    | Cursor(columns: seq<string>, rows: seq<seq<Cell>>, iterationError: bool)

  datatype Outcome = Failed | Served(table: Table, fromCache: bool)

  // ---- materialising rows ----

  function Plain(c: Cell): Cell {
    if c.Bytes? then Text(c.raw) else c
  }

  function PlainRow(row: seq<Cell>): (r: seq<Cell>)
    ensures |r| == |row|
  {
    seq(|row|, i requires 0 <= i < |row| => Plain(row[i]))
  }

  function PlainRows(rows: seq<seq<Cell>>): (r: seq<seq<Cell>>)
    ensures |r| == |rows|
  {
    seq(|rows|, i requires 0 <= i < |rows| => PlainRow(rows[i]))
  }

  /** Scan fails on a row that does not have one value for each column. */
  predicate Scannable(d: DbResult) {
    d.Cursor? ==> forall i | 0 <= i < |d.rows| :: |d.rows[i]| == |d.columns|
  }

  /** The direct answer to a query, None for an error anywhere on the way. */
  function Direct(d: DbResult): Option<Table> {
    if d.Cursor? && Scannable(d) && !d.iterationError then Some(Table(d.columns, PlainRows(d.rows))) else None
  }

  /** The database answered in full: a cursor, every row as wide as the columns, and no
      iteration error. */
  predicate Complete(d: DbResult) {
    d.Cursor? && !d.iterationError && forall i | 0 <= i < |d.rows| :: |d.rows[i]| == |d.columns|
  }

  /** The table shows the rows in order, bytes as text and all other cells as they are. */
  ghost predicate Shows(table: Table, d: DbResult)
    requires d.Cursor?
  {
    && table.columns == d.columns
    && |table.rows| == |d.rows|
    && forall i | 0 <= i < |d.rows| :: ShowsRow(table.rows[i], d.rows[i])
  }

  ghost predicate ShowsRow(shown: seq<Cell>, row: seq<Cell>) {
    && |shown| == |row|
    && forall j | 0 <= j < |row| :: shown[j] == match row[j] case Bytes(raw) => Text(raw) case other => other
  }

  /** What the direct answer is, cell by cell. */
  lemma DirectExactly(d: DbResult)
    ensures Direct(d).Some? <==> Complete(d)
    ensures Direct(d).Some? ==> Shows(Direct(d).value, d)
  {
    if Direct(d).Some? {
      forall i | 0 <= i < |d.rows| ensures ShowsRow(PlainRows(d.rows)[i], d.rows[i]) {
        assert PlainRows(d.rows)[i] == PlainRow(d.rows[i]);
      }
    }
  }

  method ScanRow(row: seq<Cell>) returns (values: array<Cell>)
    ensures fresh(values) && values[..] == PlainRow(row)
    ensures ShowsRow(values[..], row)
  {
    values := new Cell[|row|](i requires 0 <= i < |row| => row[i]);
    for i := 0 to values.Length
      invariant forall j | 0 <= j < |row| :: values[j] == if j < i then Plain(row[j]) else row[j]
    {
      if values[i].Bytes? {
        values[i] := Text(values[i].raw);
      }
    }
  }

  method Materialize(d: DbResult) returns (r: Option<Table>)
    ensures r == Direct(d)
    ensures r.Some? <==> Complete(d)
    ensures r.Some? ==> Shows(r.value, d)
  {
    DirectExactly(d);
    if d.QueryError? || d.ColumnsError? {
      return None;
    }
    var results: seq<seq<Cell>> := [];
    for i := 0 to |d.rows|
      invariant results == PlainRows(d.rows)[..i]
      invariant forall j | 0 <= j < i :: |d.rows[j]| == |d.columns|
    {
      if |d.rows[i]| != |d.columns| {
        return None;
      }
      var values := ScanRow(d.rows[i]);
      results := results + [values[..]];
    }
    if d.iterationError {
      return None;
    }
    assert PlainRows(d.rows)[..|d.rows|] == PlainRows(d.rows);
    return Some(Table(d.columns, results));
  }

  // ---- one call ----

  datatype Call = Call(key: Key, ttl: int, query: string, getAt: Time, setAt: Time, db: DbResult)

  function CallStep(c: Lru<Cached>, call: Call): (Lru<Cached>, Outcome) {
    var (c1, hit) := if call.key != "" then GetStep(c, call.key, call.getAt) else (c, None);
    if hit.Some? && hit.value.Rows? then (c1, Served(hit.value.table, true))
    else
      match Direct(call.db)
      case None => (c1, Failed)
      case Some(table) =>
        (if call.key != "" then SetStep(c1, call.key, Rows(table), call.ttl, call.setAt) else c1, Served(table, false))
  }

  class DBRuntime {
    const cache: LruCache.InMemoryCache?<Cached>

    ghost predicate Valid()
      reads cache, if cache == null then {} else {cache.ll}, if cache == null then {} else cache.ll.repr
    {
      cache != null ==> cache.Valid()
    }

    constructor (cache: LruCache.InMemoryCache?<Cached>)
      requires cache != null ==> cache.Valid()
      ensures Valid() && this.cache == cache
    {
      this.cache := cache;
    }

    method QueryCached(call: Call) returns (r: Outcome)
      requires Valid()
      modifies cache, if cache == null then {} else {cache.ll}, if cache == null then {} else cache.ll.repr
      ensures Valid()
      ensures cache != null ==> (cache.Model(), r) == CallStep(old(cache.Model()), call)
      ensures r.Failed? ==> !Complete(call.db)
      ensures r.Served? && !r.fromCache ==> Complete(call.db) && Shows(r.table, call.db)
      ensures cache == null || call.key == "" ==> (r.Served? <==> Complete(call.db)) && (r.Served? ==> !r.fromCache)
      ensures cache == null ==>
                r == match Direct(call.db) case None => Failed case Some(table) => Served(table, false)
    {
      if cache != null && call.key != "" {
        var v := cache.Get(call.key, call.getAt);
        if v.Some? && v.value.Rows? {
          return Served(v.value.table, true);
        }
      }
      var table := Materialize(call.db);
      if table.None? {
        return Failed;
      }
      if cache != null && call.key != "" {
        cache.Set(call.key, Rows(table.value), call.ttl, call.setAt);
      }
      return Served(table.value, false);
    }
  }

  // ---- runs in which only QueryCached writes ----

  /** Others may delete keys and purge, but not write. */
  datatype Use = Query(call: Call) | Forget(key: Key, at: Time) | PurgeAll(at: Time)

  function UseStep(c: Lru<Cached>, u: Use): Lru<Cached> {
    match u
    case Query(call) => CallStep(c, call).0
    case Forget(key, _) => DeleteStep(c, key)
    case PurgeAll(at) => PurgeStep(c, at)
  }

  function After(c: Lru<Cached>, run: seq<Use>): Lru<Cached> {
    if run == [] then c else UseStep(After(c, run[..|run| - 1]), run[|run| - 1])
  }

  /** The cache calls that one use makes. */
  function CacheCalls(c: Lru<Cached>, u: Use): seq<Event<Cached>> {
    match u
    case Forget(key, at) => [Event(Delete(key), at)]
    case PurgeAll(at) => [Event(Purge, at)]
    case Query(call) =>
      if call.key == "" then []
      else if CallStep(c, call).1.Served? && !CallStep(c, call).1.fromCache
      then [GetCall(call)] + [SetCall(call, CallStep(c, call).1.table)]
      else [GetCall(call)]
  }

  function GetCall(call: Call): Event<Cached> {
    Event(Get(call.key), call.getAt)
  }

  function SetCall(call: Call, table: Table): Event<Cached> {
    Event(Set(call.key, Rows(table), call.ttl), call.setAt)
  }

  function CacheRun(c: Lru<Cached>, run: seq<Use>): seq<Event<Cached>> {
    if run == [] then [] else CacheRun(c, run[..|run| - 1]) + CacheCalls(After(c, run[..|run| - 1]), run[|run| - 1])
  }

  /** The latest direct answer stored under the key, if nobody deleted it since. */
  ghost function LastFill(c: Lru<Cached>, run: seq<Use>, key: Key): Option<LruHistory.Write<Cached>> {
    if run == [] then None
    else
      var before, u := run[..|run| - 1], run[|run| - 1];
      if u.Forget? && u.key == key then None
      else if u.Query? && u.call.key == key != "" && CallStep(After(c, before), u.call).1.Served?
                && !CallStep(After(c, before), u.call).1.fromCache
      then Some(LruHistory.Write(Rows(CallStep(After(c, before), u.call).1.table), u.call.ttl, u.call.setAt))
      else LastFill(c, before, key)
  }

  function StartOf(u: Use): Time {
    match u case Query(call) => call.getAt case Forget(_, at) => at case PurgeAll(at) => at
  }

  function EndOf(u: Use): Time {
    match u case Query(call) => call.setAt case Forget(_, at) => at case PurgeAll(at) => at
  }

  /** The clock readings of the run never go backwards and end by `until`. */
  ghost predicate Serialised(run: seq<Use>, until: Time) {
    run != [] ==>
      && StartOf(run[|run| - 1]) <= EndOf(run[|run| - 1]) <= until
      && Serialised(run[..|run| - 1], StartOf(run[|run| - 1]))
  }

  /** One query makes its cache calls and nothing else. */
  lemma QueryExtends(c: Lru<Cached>, s: Lru<Cached>, calls: seq<Event<Cached>>, call: Call, until: Time)
    requires s == LruModel.After(c, calls)
    requires Monotone(calls, call.getAt) && call.getAt <= call.setAt <= until
    ensures CallStep(s, call).0 == LruModel.After(c, calls + CacheCalls(s, Query(call)))
    ensures Monotone(calls + CacheCalls(s, Query(call)), until)
  {
    hide LruModel.After, GetStep, SetStep, Direct, Monotone;
    var more := CacheCalls(s, Query(call));
    LruHistory.MonotoneLater(calls, call.getAt, until);
    if call.key == "" {
      assert calls + more == calls;
    } else {
      LruHistory.AppendCall(c, calls, GetCall(call), call.getAt);
      LruHistory.MonotoneLater(calls + [GetCall(call)], call.getAt, until);
      if |more| == 2 {
        var put := SetCall(call, CallStep(s, call).1.table);
        LruHistory.AppendCall(c, calls + [GetCall(call)], put, call.getAt);
        assert calls + more == calls + [GetCall(call)] + [put];
        LruHistory.MonotoneLater(calls + more, call.setAt, until);
      }
    }
  }

  lemma UseExtends(c: Lru<Cached>, s: Lru<Cached>, calls: seq<Event<Cached>>, u: Use, until: Time)
    requires s == LruModel.After(c, calls)
    requires Monotone(calls, StartOf(u)) && StartOf(u) <= EndOf(u) <= until
    ensures UseStep(s, u) == LruModel.After(c, calls + CacheCalls(s, u))
    ensures Monotone(calls + CacheCalls(s, u), until)
  {
    hide LruModel.After, Monotone, CallStep;
    if u.Query? {
      QueryExtends(c, s, calls, u.call, until);
    } else {
      var ev := CacheCalls(s, u)[0];
      LruHistory.AppendCall(c, calls, ev, StartOf(u));
      LruHistory.MonotoneLater(calls + [ev], ev.now, until);
    }
  }

  lemma {:induction false} CacheRefines(c: Lru<Cached>, run: seq<Use>, until: Time)
    requires Serialised(run, until)
    ensures After(c, run) == LruModel.After(c, CacheRun(c, run))
    ensures Monotone(CacheRun(c, run), until)
  {
    if run != [] {
      var before, u := run[..|run| - 1], run[|run| - 1];
      CacheRefines(c, before, StartOf(u));
      hide LruModel.After, Monotone, UseStep, CacheCalls;
      UseExtends(c, After(c, before), CacheRun(c, before), u, until);
    }
  }

  /** What one use adds to the history of writes. */
  lemma UseWrites(s: Lru<Cached>, calls: seq<Event<Cached>>, u: Use, key: Key)
    ensures LruHistory.LastWrite(calls + CacheCalls(s, u), key) ==
            if u.Forget? && u.key == key then None
            else if u.Query? && u.call.key == key != "" && CallStep(s, u.call).1.Served? && !CallStep(s, u.call).1.fromCache
            then Some(LruHistory.Write(Rows(CallStep(s, u.call).1.table), u.call.ttl, u.call.setAt))
            else LruHistory.LastWrite(calls, key)
  {
    hide CallStep, LruHistory.LastWrite;
    var more := CacheCalls(s, u);
    if more == [] {
      assert calls + more == calls;
    } else {
      LruHistory.WriteAppend(calls, more[0], key);
      if u.Query? && |more| == 2 {
        LruHistory.WriteAppend(calls + [GetCall(u.call)], more[1], key);
        assert calls + more == calls + [GetCall(u.call)] + [more[1]];
      } else {
        assert more == [more[0]];
      }
    }
  }

  lemma {:induction false} WritesAreFills(c: Lru<Cached>, run: seq<Use>, key: Key)
    ensures LruHistory.LastWrite(CacheRun(c, run), key) == LastFill(c, run, key)
    ensures LastFill(c, run, key).Some? ==> LastFill(c, run, key).value.value.Rows?
  {
    if run != [] {
      var before, u := run[..|run| - 1], run[|run| - 1];
      WritesAreFills(c, before, key);
      hide CallStep, LruHistory.LastWrite, CacheCalls, UseStep;
      UseWrites(After(c, before), CacheRun(c, before), u, key);
    }
  }

  /** Main result: a result is served from the cache exactly when the key has a direct
      answer stored, that answer is within its effective TTL, and it was not pushed
      out; and then it is that answer. */
  lemma {:induction false} ServedFromCacheExactly(capacity: int, defaultTTL: int, run: seq<Use>, call: Call)
    requires Serialised(run, call.getAt)
    ensures var c := New<Cached>(capacity, defaultTTL);
            var fill := LastFill(c, run, call.key);
            var live := call.key != "" && fill.Some? && LruHistory.Fresh(fill.value, defaultTTL, call.getAt) &&
                        !LruHistory.EvictedSince(c, CacheRun(c, run), call.key);
            var r := CallStep(After(c, run), call).1;
            && (r.Served? && r.fromCache <==> live)
            && (live ==> fill.value.value.Rows? && r == Served(fill.value.value.table, true))
  {
    hide LruHistory.EvictedSince, LruModel.After, LruHistory.LastWrite, LruHistory.Fresh, Direct;
    var c := New<Cached>(capacity, defaultTTL);
    CacheRefines(c, run, call.getAt);
    WritesAreFills(c, run, call.key);
    LruHistory.GetAnswersLastWrite(capacity, defaultTTL, CacheRun(c, run), call.key, call.getAt);
  }

  /** Bounded staleness: a cached result was stored at most its effective TTL ago. */
  lemma {:induction false} BoundedStaleness(capacity: int, defaultTTL: int, run: seq<Use>, call: Call)
    requires Serialised(run, call.getAt)
    requires var r := CallStep(After(New<Cached>(capacity, defaultTTL), run), call).1; r.Served? && r.fromCache
    ensures var fill := LastFill(New<Cached>(capacity, defaultTTL), run, call.key);
            && fill.Some?
            && (fill.value.ttl > 0 ==> call.getAt <= fill.value.at + fill.value.ttl)
            && (fill.value.ttl <= 0 && defaultTTL > 0 ==> call.getAt <= fill.value.at + defaultTTL)
  {
    ServedFromCacheExactly(capacity, defaultTTL, run, call);
  }

  /** Main result: the answer of a call in full. From the cache exactly when a live
      answer is stored; otherwise the database's own answer, or an error exactly when
      the database did not answer in full. */
  lemma {:induction false} AnswerExactly(capacity: int, defaultTTL: int, run: seq<Use>, call: Call)
    requires Serialised(run, call.getAt)
    ensures var c := New<Cached>(capacity, defaultTTL);
            var fill := LastFill(c, run, call.key);
            var live := call.key != "" && fill.Some? && LruHistory.Fresh(fill.value, defaultTTL, call.getAt) &&
                        !LruHistory.EvictedSince(c, CacheRun(c, run), call.key);
            var r := CallStep(After(c, run), call).1;
            && (live ==> fill.value.value.Rows? && r == Served(fill.value.value.table, true))
            && (!live ==> (r.Served? <==> Complete(call.db)) && (r.Served? ==> !r.fromCache && Shows(r.table, call.db)))
  {
    ServedFromCacheExactly(capacity, defaultTTL, run, call);
    DirectExactly(call.db);
    hide Direct, GetStep, SetStep, Complete, Shows, LruHistory.EvictedSince, LruHistory.Fresh, LastFill, After;
  }

  // ---- a database that does not change ----

  /** Each key carries one query, and a query either fails or has its one answer. */
  ghost predicate Constant(queryOf: Key -> string, answer: string -> Table, call: Call) {
    && (call.key != "" ==> call.query == queryOf(call.key))
    && (Direct(call.db).Some? ==> Direct(call.db).value == answer(call.query))
  }

  lemma {:induction false} FillsAreAnswers(c: Lru<Cached>, run: seq<Use>, queryOf: Key -> string, answer: string -> Table, key: Key)
    requires forall i | 0 <= i < |run| && run[i].Query? :: Constant(queryOf, answer, run[i].call)
    ensures LastFill(c, run, key).Some? ==> LastFill(c, run, key).value.value == Rows(answer(queryOf(key)))
  {
    if run != [] {
      FillsAreAnswers(c, run[..|run| - 1], queryOf, answer, key);
      hide GetStep, SetStep, Direct;
    }
  }

  /** Main result: over a database that does not change, with one query for each key,
      every successful result, cached or not, is the direct answer. */
  lemma {:induction false} CachingIsTransparent(capacity: int, defaultTTL: int, run: seq<Use>, call: Call,
                             queryOf: Key -> string, answer: string -> Table)
    requires Serialised(run, call.getAt)
    requires forall i | 0 <= i < |run| && run[i].Query? :: Constant(queryOf, answer, run[i].call)
    requires Constant(queryOf, answer, call)
    ensures var r := CallStep(After(New<Cached>(capacity, defaultTTL), run), call).1;
            r.Served? ==> r.table == answer(call.query)
  {
    ServedFromCacheExactly(capacity, defaultTTL, run, call);
    FillsAreAnswers(New<Cached>(capacity, defaultTTL), run, queryOf, answer, call.key);
    hide GetStep, SetStep, Direct, LastFill;
  }
}
