/** The cache of cache.go as a pure machine over one recency-ordered list.
    The front of the list is the most recently used entry. Time is passed in,
    in nanoseconds. */
module LruModel {
  import opened Wrappers

  type Key = string
  type Time = int

  const DEFAULT_CAPACITY: nat := 1024

  datatype Entry<+V> = Entry(key: Key, value: V, expiry: Option<Time>)

  datatype Lru<+V> = Lru(
    capacity: nat,
    defaultTTL: int,
    list: seq<Entry<V>>,
    hits: nat,
    misses: nat,
    evictions: nat,
    expired: nat)

  datatype Op<+V> = Get(key: Key) | Set(key: Key, value: V, ttl: int) | Delete(key: Key) | Purge

  /** One call together with the clock reading it makes. */
  datatype Event<+V> = Event(op: Op<V>, now: Time)

  // ---- list primitives ----

  function Find<V>(list: seq<Entry<V>>, key: Key): (r: Option<Entry<V>>)
    ensures r.Some? ==> r.value in list && r.value.key == key
    ensures r.None? ==> Absent(list, key)
  {
    if list == [] then None
    else if list[0].key == key then Some(list[0])
    else Find(list[1..], key)
  }

  ghost predicate Absent<V>(list: seq<Entry<V>>, key: Key) {
    forall e | e in list :: e.key != key
  }

  /** The entries satisfying p, in order. */
  function Keep<V>(list: seq<Entry<V>>, p: Entry<V> -> bool): (r: seq<Entry<V>>)
    ensures |r| <= |list|
    ensures forall e | e in r :: e in list && p(e)
    ensures forall e | e in list && p(e) :: e in r
  {
    if list == [] then []
    else if p(list[0]) then [list[0]] + Keep(list[1..], p)
    else Keep(list[1..], p)
  }

  function KeyIsNot<V>(key: Key): Entry<V> -> bool {
    (e: Entry<V>) => e.key != key
  }

  function Alive<V>(now: Time): Entry<V> -> bool {
    (e: Entry<V>) => !Expired(e.expiry, now)
  }

  function Without<V>(list: seq<Entry<V>>, key: Key): seq<Entry<V>> {
    Keep(list, KeyIsNot(key))
  }

  predicate Expired(expiry: Option<Time>, now: Time) {
    expiry.Some? && now > expiry.value
  }

  function EffectiveExpire(ttl: int, defaultTTL: int, now: Time): Option<Time> {
    var d := if ttl <= 0 then defaultTTL else ttl;
    if d <= 0 then None else Some(now + d)
  }

  // ---- the machine ----

  function New<V>(capacity: int, defaultTTL: int): Lru<V> {
    Lru(if capacity <= 0 then DEFAULT_CAPACITY else capacity, defaultTTL, [], 0, 0, 0, 0)
  }

  function GetStep<V>(c: Lru<V>, key: Key, now: Time): (Lru<V>, Option<V>) {
    match Find(c.list, key)
    case None => (c.(misses := c.misses + 1), None)
    case Some(e) =>
      if Expired(e.expiry, now) then
        (c.(list := Without(c.list, key), expired := c.expired + 1, misses := c.misses + 1), None)
      else
        (c.(list := [e] + Without(c.list, key), hits := c.hits + 1), Some(e.value))
  }

  function SetStep<V>(c: Lru<V>, key: Key, value: V, ttl: int, now: Time): Lru<V> {
    var e := Entry(key, value, EffectiveExpire(ttl, c.defaultTTL, now));
    if Find(c.list, key).Some? then c.(list := [e] + Without(c.list, key))
    else if |c.list| >= c.capacity && c.list != [] then
      c.(list := [e] + DropLast(c.list), evictions := c.evictions + 1)
    else c.(list := [e] + c.list)
  }

  function DeleteStep<V>(c: Lru<V>, key: Key): Lru<V> {
    c.(list := Without(c.list, key))
  }

  function PurgeStep<V>(c: Lru<V>, now: Time): Lru<V> {
    var kept := Keep(c.list, Alive(now));
    c.(list := kept, expired := c.expired + (|c.list| - |kept|))
  }

  function Step<V>(c: Lru<V>, ev: Event<V>): Lru<V> {
    match ev.op
    case Get(key) => GetStep(c, key, ev.now).0
    case Set(key, value, ttl) => SetStep(c, key, value, ttl, ev.now)
    case Delete(key) => DeleteStep(c, key)
    case Purge => PurgeStep(c, ev.now)
  }

  function DropLast<T>(s: seq<T>): seq<T>
    requires s != []
  {
    s[..|s| - 1]
  }

  function Last<T>(s: seq<T>): T
    requires s != []
  {
    s[|s| - 1]
  }

  /** The state after a whole run. */
  function After<V>(c: Lru<V>, run: seq<Event<V>>): Lru<V> {
    if run == [] then c else Step(After(c, DropLast(run)), Last(run))
  }

  ghost predicate Distinct<V>(list: seq<Entry<V>>) {
    forall i, j | 0 <= i < j < |list| :: list[i].key != list[j].key
  }

  ghost predicate Valid<V>(c: Lru<V>) {
    && 0 < c.capacity
    && |c.list| <= c.capacity
    && Distinct(c.list)
  }

  /** Clock readings never go backwards and none is later than `until`. */
  ghost predicate Monotone<V>(run: seq<Event<V>>, until: Time) {
    && (forall i, j | 0 <= i < j < |run| :: run[i].now <= run[j].now)
    && (forall i | 0 <= i < |run| :: run[i].now <= until)
  }

  // ---- lemmas about the primitives ----

  lemma {:induction false} FindKeep<V>(list: seq<Entry<V>>, p: Entry<V> -> bool, key: Key)
    requires Distinct(list)
    ensures Find(Keep(list, p), key) ==
            match Find(list, key) case None => None case Some(e) => if p(e) then Some(e) else None
  {
    if list != [] {
      FindKeep(list[1..], p, key);
      var rest := Keep(list[1..], p);
      assert ([list[0]] + rest)[1..] == rest;
      if list[0].key == key && !p(list[0]) {
        assert Absent(list[1..], key);
      }
    }
  }

  lemma {:induction false} DistinctKeep<V>(list: seq<Entry<V>>, p: Entry<V> -> bool)
    requires Distinct(list)
    ensures Distinct(Keep(list, p))
  {
    if list != [] {
      DistinctKeep(list[1..], p);
      var rest := Keep(list[1..], p);
      assert Absent(list[1..], list[0].key);
      forall j | 0 <= j < |rest| ensures rest[j].key != list[0].key {
        assert rest[j] in list[1..];
      }
    }
  }

  lemma {:induction false} KeepAll<V>(list: seq<Entry<V>>, p: Entry<V> -> bool)
    requires forall e | e in list :: p(e)
    ensures Keep(list, p) == list
  {
    if list != [] {
      KeepAll(list[1..], p);
    }
  }

  lemma FindCons<V>(e: Entry<V>, list: seq<Entry<V>>, key: Key)
    ensures Find([e] + list, key) == if e.key == key then Some(e) else Find(list, key)
  {
    assert ([e] + list)[1..] == list;
  }

  lemma {:induction false} FindDropLast<V>(list: seq<Entry<V>>, key: Key)
    requires list != [] && Distinct(list)
    ensures Find(DropLast(list), key) == if Last(list).key == key then None else Find(list, key)
  {
    if |list| > 1 {
      assert DropLast(list)[1..] == DropLast(list[1..]);
      FindDropLast(list[1..], key);
    }
  }

  lemma WithoutCons<V>(list: seq<Entry<V>>, key: Key)
    requires list != []
    ensures Without(list, key) == if list[0].key == key then Without(list[1..], key) else [list[0]] + Without(list[1..], key)
    ensures Find(list, key) == if list[0].key == key then Some(list[0]) else Find(list[1..], key)
  {
  }

  lemma DistinctTail<V>(list: seq<Entry<V>>)
    requires Distinct(list) && list != []
    ensures Distinct(list[1..])
    ensures forall e | e in list[1..] :: e.key != list[0].key
  {
  }

  lemma CutTail<T>(s: seq<T>, i: nat)
    requires 0 < i < |s|
    ensures s[..i] + s[i + 1..] == [s[0]] + (s[1..][..i - 1] + s[1..][i..])
  {
    assert s[..i] == [s[0]] + s[1..][..i - 1];
    assert s[i + 1..] == s[1..][i..];
  }

  /** Removing a key from a list of distinct keys removes exactly one position. */
  lemma {:induction false} WithoutAt<V>(list: seq<Entry<V>>, i: nat)
    requires Distinct(list) && i < |list|
    ensures Find(list, list[i].key) == Some(list[i])
    ensures Without(list, list[i].key) == list[..i] + list[i + 1..]
  {
    var key := list[i].key;
    DistinctTail(list);
    WithoutCons(list, key);
    if i == 0 {
      KeepAll(list[1..], KeyIsNot(key));
      assert list[..0] + list[1..] == list[1..];
    } else {
      hide Distinct, Without, Keep, Find;
      WithoutAt(list[1..], i - 1);
      assert list[1..][i - 1] == list[i] && list[i] in list[1..];
      CutTail(list, i);
    }
  }

  lemma WithoutFound<V>(list: seq<Entry<V>>, key: Key)
    requires Distinct(list) && Find(list, key).Some?
    ensures |Without(list, key)| == |list| - 1
  {
    var e := Find(list, key).value;
    var i :| 0 <= i < |list| && list[i] == e;
    WithoutAt(list, i);
  }

  lemma WithoutAbsent<V>(list: seq<Entry<V>>, key: Key)
    requires Find(list, key).None?
    ensures Without(list, key) == list
  {
    KeepAll(list, KeyIsNot(key));
  }

  lemma DistinctCons<V>(e: Entry<V>, list: seq<Entry<V>>)
    requires Distinct(list) && Absent(list, e.key)
    ensures Distinct([e] + list)
  {
  }

  // ---- every step keeps the list a bounded recency list of distinct keys ----

  lemma StepValid<V>(c: Lru<V>, ev: Event<V>)
    requires Valid(c)
    ensures Valid(Step(c, ev))
    ensures Step(c, ev).capacity == c.capacity && Step(c, ev).defaultTTL == c.defaultTTL
  {
    match ev.op
    case Get(key) =>
      DistinctKeep(c.list, KeyIsNot(key));
      if Find(c.list, key).Some? { WithoutFound(c.list, key); DistinctCons(Find(c.list, key).value, Without(c.list, key)); }
    case Set(key, value, ttl) =>
      DistinctKeep(c.list, KeyIsNot(key));
      var e := Entry(key, value, EffectiveExpire(ttl, c.defaultTTL, ev.now));
      if Find(c.list, key).Some? { WithoutFound(c.list, key); DistinctCons(e, Without(c.list, key)); }
      else if |c.list| >= c.capacity { DistinctCons(e, DropLast(c.list)); }
    case Delete(key) =>
      DistinctKeep(c.list, KeyIsNot(key));
    case Purge =>
      DistinctKeep(c.list, Alive(ev.now));
  }

  lemma {:induction false} RunValid<V>(c: Lru<V>, run: seq<Event<V>>)
    requires Valid(c)
    ensures Valid(After(c, run))
    ensures After(c, run).capacity == c.capacity && After(c, run).defaultTTL == c.defaultTTL
  {
    if run != [] {
      RunValid(c, DropLast(run));
      StepValid(After(c, DropLast(run)), Last(run));
    }
  }
}
