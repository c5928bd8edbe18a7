/** What a cache holds, told from the history of calls alone: which write a hit
    returns, why a miss is a miss, who is evicted, and what the counters count. */
module LruHistory {
  import opened Wrappers
  import opened LruModel

  // ---- reference definitions over the history ----

  datatype Write<+V> = Write(value: V, ttl: int, at: Time)

  /** The most recent Set of the key that no Delete has undone. */
  ghost function LastWrite<V>(run: seq<Event<V>>, key: Key): Option<Write<V>> {
    if run == [] then None
    else
      var ev := Last(run);
      if ev.op.Set? && ev.op.key == key then Some(Write(ev.op.value, ev.op.ttl, ev.now))
      else if ev.op.Delete? && ev.op.key == key then None
      else LastWrite(DropLast(run), key)
  }

  /** A write can still be served at time t: its own positive TTL counts, else a
      positive default TTL, else it never expires. */
  ghost predicate Fresh<V>(w: Write<V>, defaultTTL: int, t: Time) {
    if w.ttl > 0 then t <= w.at + w.ttl
    else defaultTTL > 0 ==> t <= w.at + defaultTTL
  }

  /** The key that a call touches: a Set always, a Get only when it hits. */
  ghost function Touch<V>(c: Lru<V>, ev: Event<V>): Option<Key> {
    match ev.op
    case Get(key) => if GetStep(c, key, ev.now).1.Some? then Some(key) else None
    case Set(key, _, _) => Some(key)
    case Delete(_) => None
    case Purge => None
  }

  /** The key that a call pushes out to make room. */
  ghost function Victim<V>(c: Lru<V>, ev: Event<V>): Option<Key> {
    if ev.op.Set? && Find(c.list, ev.op.key).None? && |c.list| >= c.capacity && c.list != []
    then Some(Last(c.list).key) else None
  }

  /** The key was pushed out after its last touch. */
  ghost predicate EvictedSince<V>(c: Lru<V>, run: seq<Event<V>>, key: Key) {
    run != [] &&
    var pre := After(c, DropLast(run));
    Touch(pre, Last(run)) != Some(key) &&
    (Victim(pre, Last(run)) == Some(key) || EvictedSince(c, DropLast(run), key))
  }

  /** The other keys touched since the key's own last touch. */
  ghost function Since<V>(c: Lru<V>, run: seq<Event<V>>, key: Key): set<Key> {
    if run == [] then {}
    else
      match Touch(After(c, DropLast(run)), Last(run))
      case None => Since(c, DropLast(run), key)
      case Some(k) => if k == key then {} else Since(c, DropLast(run), key) + {k}
  }

  /** The position in the run of the key's last touch, or -1. */
  ghost function LastTouch<V>(c: Lru<V>, run: seq<Event<V>>, key: Key): int {
    if run == [] then -1
    else if Touch(After(c, DropLast(run)), Last(run)) == Some(key) then |run| - 1
    else LastTouch(c, DropLast(run), key)
  }

  // ---- runs that grow by one call ----

  lemma AppendCall<V>(c: Lru<V>, run: seq<Event<V>>, ev: Event<V>, until: Time)
    requires Monotone(run, until) && until <= ev.now
    ensures After(c, run + [ev]) == Step(After(c, run), ev)
    ensures Monotone(run + [ev], ev.now)
  {
    assert DropLast(run + [ev]) == run && Last(run + [ev]) == ev;
  }

  lemma MonotoneLater<V>(run: seq<Event<V>>, early: Time, late: Time)
    requires Monotone(run, early) && early <= late
    ensures Monotone(run, late)
  {
  }

  lemma WriteAppend<V>(run: seq<Event<V>>, ev: Event<V>, key: Key)
    ensures LastWrite(run + [ev], key) ==
            if ev.op.Set? && ev.op.key == key then Some(Write(ev.op.value, ev.op.ttl, ev.now))
            else if ev.op.Delete? && ev.op.key == key then None
            else LastWrite(run, key)
  {
    assert DropLast(run + [ev]) == run && Last(run + [ev]) == ev;
  }

  // ---- last-write correctness and the exact reason for every miss ----

  lemma MonotonePrefix<V>(run: seq<Event<V>>, until: Time)
    requires run != [] && Monotone(run, until)
    ensures Monotone(DropLast(run), Last(run).now) && Last(run).now <= until
  {
  }

  ghost predicate HoldsLastWrite<V>(c: Lru<V>, run: seq<Event<V>>, key: Key, t: Time) {
    var now := After(c, run);
    match LastWrite(run, key)
    case None => Find(now.list, key).None?
    case Some(w) =>
      if EvictedSince(c, run, key) then Find(now.list, key).None?
      else if Find(now.list, key).None? then !Fresh(w, c.defaultTTL, t)
      else Find(now.list, key).value == Entry(key, w.value, EffectiveExpire(w.ttl, c.defaultTTL, w.at))
  }

  lemma FindAfterSet<V>(c: Lru<V>, k: Key, value: V, ttl: int, now: Time, key: Key)
    requires Valid(c)
    ensures Find(SetStep(c, k, value, ttl, now).list, key) ==
            if k == key then Some(Entry(k, value, EffectiveExpire(ttl, c.defaultTTL, now)))
            else if Find(c.list, k).None? && |c.list| >= c.capacity && c.list != [] && Last(c.list).key == key then None
            else Find(c.list, key)
  {
    var e := Entry(k, value, EffectiveExpire(ttl, c.defaultTTL, now));
    FindKeep(c.list, KeyIsNot(k), key);
    FindCons(e, Without(c.list, k), key);
    FindCons(e, c.list, key);
    if c.list != [] {
      FindDropLast(c.list, key);
      FindCons(e, DropLast(c.list), key);
    }
    hide Find, Keep;
  }

  lemma FindAfterStep<V>(c: Lru<V>, ev: Event<V>, key: Key)
    requires Valid(c)
    ensures Find(Step(c, ev).list, key) ==
            match ev.op
            case Set(k, v, ttl) =>
              if k == key then Some(Entry(k, v, EffectiveExpire(ttl, c.defaultTTL, ev.now)))
              else if Victim(c, ev) == Some(key) then None else Find(c.list, key)
            case Get(k) =>
              if k == key && GetStep(c, k, ev.now).1.None? then None else Find(c.list, key)
            case Delete(k) => if k == key then None else Find(c.list, key)
            case Purge =>
              if Find(c.list, key).Some? && Expired(Find(c.list, key).value.expiry, ev.now) then None
              else Find(c.list, key)
  {
    match ev.op
    case Set(k, v, ttl) => FindAfterSet(c, k, v, ttl, ev.now, key);
    case Get(k) =>
      FindKeep(c.list, KeyIsNot(k), key);
      if Find(c.list, k).Some? {
        FindCons(Find(c.list, k).value, Without(c.list, k), key);
      }
    case Delete(k) => FindKeep(c.list, KeyIsNot(k), key);
    case Purge => FindKeep(c.list, Alive(ev.now), key);
  }

  lemma {:induction false} HistoryInvariant<V>(c: Lru<V>, run: seq<Event<V>>, key: Key, t: Time)
    requires Valid(c) && c.list == [] && Monotone(run, t)
    ensures HoldsLastWrite(c, run, key, t)
  {
    if run != [] {
      var ev := Last(run);
      var pre := DropLast(run);
      MonotonePrefix(run, t);
      HistoryInvariant(c, pre, key, ev.now);
      RunValid(c, pre);
      FindAfterStep(After(c, pre), ev, key);
    }
  }

  /** Main result: a Get answers exactly with the last undeleted write of its key,
      as long as that write is fresh and the key was not pushed out since. */
  lemma {:induction false} GetAnswersLastWrite<V>(capacity: int, defaultTTL: int, run: seq<Event<V>>, key: Key, t: Time)
    requires Monotone(run, t)
    ensures GetStep(After(New(capacity, defaultTTL), run), key, t).1 ==
            match LastWrite(run, key)
            case None => None
            case Some(w) =>
              if Fresh(w, defaultTTL, t) && !EvictedSince(New(capacity, defaultTTL), run, key)
              then Some(w.value) else None
  {
    var c := New<V>(capacity, defaultTTL);
    HistoryInvariant(c, run, key, t);
    RunValid(c, run);
  }

  // ---- retention: eviction needs `capacity` other touched keys ----

  /** The keys in front of a key in the recency list. */
  ghost function Ahead<V>(list: seq<Entry<V>>, key: Key): set<Key> {
    if list == [] || list[0].key == key then {}
    else {list[0].key} + Ahead(list[1..], key)
  }

  lemma {:induction false} AheadKeep<V>(list: seq<Entry<V>>, p: Entry<V> -> bool, key: Key)
    requires Find(Keep(list, p), key).Some?
    ensures Ahead(Keep(list, p), key) <= Ahead(list, key) || (exists e | e in list :: e.key == key && !p(e))
  {
    if list != [] {
      var rest := Keep(list[1..], p);
      assert ([list[0]] + rest)[1..] == rest;
      if list[0].key == key {
        assert list[0] in list;
      } else {
        AheadKeep(list[1..], p, key);
      }
    }
  }

  lemma {:induction false} AheadDropLast<V>(list: seq<Entry<V>>, key: Key)
    requires list != []
    ensures Ahead(DropLast(list), key) <= Ahead(list, key)
  {
    if |list| > 1 {
      assert DropLast(list)[1..] == DropLast(list[1..]);
      AheadDropLast(list[1..], key);
    }
  }

  /** In front of the last of n distinct keys there are n - 1 others. */
  lemma {:induction false} AheadOfTail<V>(list: seq<Entry<V>>)
    requires list != [] && Distinct(list)
    ensures |Ahead(list, Last(list).key)| == |list| - 1
    ensures forall k | k in Ahead(list, Last(list).key) :: !Absent(list, k)
  {
    if |list| > 1 {
      AheadOfTail(list[1..]);
      var rest := Ahead(list[1..], Last(list).key);
      assert Absent(list[1..], list[0].key);
      assert list[0].key !in rest;
      forall k | k in rest ensures !Absent(list, k) {
        var e :| e in list[1..] && e.key == k;
        assert e in list;
      }
      assert list[0] in list;
    }
  }

  lemma AheadOfKept<V>(list: seq<Entry<V>>, p: Entry<V> -> bool, key: Key)
    requires Distinct(list) && Find(Keep(list, p), key).Some?
    ensures Ahead(Keep(list, p), key) <= Ahead(list, key)
  {
    FindKeep(list, p, key);
    AheadKeep(list, p, key);
    UniqueFind(list, key);
  }

  lemma AheadCons<V>(list: seq<Entry<V>>, key: Key)
    requires list != []
    ensures Ahead(list, key) == if list[0].key == key then {} else {list[0].key} + Ahead(list[1..], key)
    ensures Find(list, key) == if list[0].key == key then Some(list[0]) else Find(list[1..], key)
  {
  }

  lemma AheadAfterStep<V>(c: Lru<V>, ev: Event<V>, key: Key)
    requires Valid(c) && Find(Step(c, ev).list, key).Some?
    ensures match Touch(c, ev)
            case None => Ahead(Step(c, ev).list, key) <= Ahead(c.list, key)
            case Some(k) =>
              if k == key then Ahead(Step(c, ev).list, key) == {}
              else Ahead(Step(c, ev).list, key) <= Ahead(c.list, key) + {k}
  {
    var rest, p := StepKeepsOrder(c, ev);
    hide Step, Touch, Keep, Ahead, Find;
    var after := Step(c, ev).list;
    match Touch(c, ev) {
      case None => AheadOfKept(c.list, p, key);
      case Some(k) =>
        AheadCons(after, key);
        assert after[1..] == rest;
        if k != key {
          AheadOfKept(c.list, p, key);
        }
    }
  }

  lemma UniqueFind<V>(list: seq<Entry<V>>, key: Key)
    requires Distinct(list)
    ensures forall e | e in list && e.key == key :: Find(list, key) == Some(e)
  {
    forall e | e in list && e.key == key ensures Find(list, key) == Some(e) {
      var i :| 0 <= i < |list| && list[i] == e;
      WithoutAt(list, i);
    }
  }

  lemma {:induction false} AheadWithinSince<V>(c: Lru<V>, run: seq<Event<V>>, key: Key)
    requires Valid(c) && c.list == []
    ensures Find(After(c, run).list, key).Some? ==> Ahead(After(c, run).list, key) <= Since(c, run, key)
  {
    if run != [] {
      var pre := After(c, DropLast(run));
      AheadWithinSince(c, DropLast(run), key);
      RunValid(c, DropLast(run));
      if Find(After(c, run).list, key).Some? {
        AheadAfterStep(pre, Last(run), key);
        FindAfterStep(pre, Last(run), key);
      }
    }
  }

  /** Main result: a key is pushed out only once at least `capacity` distinct other
      keys have been Set or hit since its own last touch. */
  lemma {:induction false} EvictionNeedsTouches<V>(c: Lru<V>, run: seq<Event<V>>, key: Key)
    requires Valid(c) && c.list == []
    ensures EvictedSince(c, run, key) ==> |Since(c, run, key)| >= c.capacity
  {
    if run != [] && EvictedSince(c, run, key) {
      var ev := Last(run);
      var before := DropLast(run);
      var pre := After(c, before);
      RunValid(c, before);
      if Victim(pre, ev) == Some(key) {
        AheadWithinSince(c, before, key);
        AheadOfTail(pre.list);
        assert Last(pre.list) in pre.list;
        var ahead := Ahead(pre.list, key);
        assert ev.op.key !in ahead;
        SubsetSize(ahead + {ev.op.key}, Since(c, run, key));
      } else {
        EvictionNeedsTouches(c, before, key);
        SubsetSize(Since(c, before, key), Since(c, run, key));
      }
    }
  }

  lemma {:induction false} SubsetSize<T>(a: set<T>, b: set<T>)
    requires a <= b
    ensures |a| <= |b|
  {
    if a != {} {
      var x :| x in a;
      SubsetSize(a - {x}, b - {x});
    }
  }

  /** Retention: a fresh, undeleted key must hit while fewer than `capacity` distinct
      other keys were Set or hit since its last Set or hit. */
  lemma {:induction false} Retention<V>(capacity: int, defaultTTL: int, run: seq<Event<V>>, key: Key, t: Time)
    requires Monotone(run, t)
    requires LastWrite(run, key).Some? && Fresh(LastWrite(run, key).value, defaultTTL, t)
    requires |Since(New(capacity, defaultTTL), run, key)| < New<V>(capacity, defaultTTL).capacity
    ensures GetStep(After(New(capacity, defaultTTL), run), key, t).1 == Some(LastWrite(run, key).value.value)
  {
    GetAnswersLastWrite(capacity, defaultTTL, run, key, t);
    EvictionNeedsTouches(New<V>(capacity, defaultTTL), run, key);
  }

  /** No entry left the list other than by being pushed out. */
  ghost predicate NothingRemoved<V>(c: Lru<V>, run: seq<Event<V>>) {
    run != [] ==>
      && NothingRemoved(c, DropLast(run))
      && !Last(run).op.Delete?
      && After(c, run).expired == After(c, DropLast(run)).expired
  }

  lemma {:induction false} AheadWithout<V>(list: seq<Entry<V>>, k: Key, key: Key)
    requires k != key
    ensures Ahead(Without(list, k), key) == Ahead(list, key) - {k}
  {
    if list != [] {
      AheadWithout(list[1..], k, key);
      var rest := Without(list[1..], k);
      assert ([list[0]] + rest)[1..] == rest;
    }
  }

  lemma {:induction false} AheadBeforeTail<V>(list: seq<Entry<V>>, key: Key)
    requires list != [] && Find(DropLast(list), key).Some?
    ensures Ahead(DropLast(list), key) == Ahead(list, key)
  {
    if |list| > 1 {
      assert DropLast(list)[1..] == DropLast(list[1..]);
      if list[0].key != key {
        AheadBeforeTail(list[1..], key);
      }
    }
  }

  lemma {:induction false} KeepSameLength<V>(list: seq<Entry<V>>, p: Entry<V> -> bool)
    requires |Keep(list, p)| == |list|
    ensures Keep(list, p) == list
  {
    if list != [] {
      KeepSameLength(list[1..], p);
    }
  }

  /** Without removals nobody who is in front of a key gets behind it. */
  lemma AheadStays<V>(c: Lru<V>, ev: Event<V>, key: Key)
    requires Valid(c) && !ev.op.Delete? && Step(c, ev).expired == c.expired
    requires Find(Step(c, ev).list, key).Some? && Touch(c, ev) != Some(key)
    ensures Find(c.list, key).Some?
    ensures Ahead(c.list, key) <= Ahead(Step(c, ev).list, key)
    ensures Touch(c, ev).Some? ==> Touch(c, ev).value in Ahead(Step(c, ev).list, key)
  {
    FindAfterStep(c, ev, key);
    match ev.op
    case Purge => KeepSameLength(c.list, Alive(ev.now));
    case Get(k) =>
      if Touch(c, ev).Some? {
        AheadMovedFront(Find(c.list, k).value, c.list, key);
      }
    case Set(k, v, ttl) =>
      AheadStaysSet(c, k, v, ttl, ev.now, key);
  }

  lemma AheadMovedFront<V>(e: Entry<V>, list: seq<Entry<V>>, key: Key)
    requires e.key != key
    ensures Ahead([e] + Without(list, e.key), key) == Ahead(list, key) + {e.key}
  {
    AheadWithout(list, e.key, key);
    AheadCons([e] + Without(list, e.key), key);
    assert ([e] + Without(list, e.key))[1..] == Without(list, e.key);
  }

  lemma AheadStaysSet<V>(c: Lru<V>, k: Key, value: V, ttl: int, now: Time, key: Key)
    requires Valid(c) && k != key && Find(SetStep(c, k, value, ttl, now).list, key).Some?
    ensures Ahead(SetStep(c, k, value, ttl, now).list, key) == Ahead(c.list, key) + {k}
  {
    var e := Entry(k, value, EffectiveExpire(ttl, c.defaultTTL, now));
    if Find(c.list, k).Some? {
      AheadMovedFront(e, c.list, key);
    } else {
      var list := SetStep(c, k, value, ttl, now).list;
      AheadCons(list, key);
      if |c.list| >= c.capacity && c.list != [] {
        assert list[1..] == DropLast(c.list);
        AheadBeforeTail(c.list, key);
      } else {
        assert list[1..] == c.list;
      }
    }
  }

  lemma {:induction false} SinceWithinAhead<V>(c: Lru<V>, run: seq<Event<V>>, key: Key)
    requires Valid(c) && c.list == [] && NothingRemoved(c, run)
    ensures Find(After(c, run).list, key).Some? ==> Since(c, run, key) <= Ahead(After(c, run).list, key)
  {
    if run != [] && Find(After(c, run).list, key).Some? {
      var pre := After(c, DropLast(run));
      RunValid(c, DropLast(run));
      hide Step, Touch, Ahead, Find;
      if Touch(pre, Last(run)) != Some(key) {
        SinceWithinAhead(c, DropLast(run), key);
        AheadStays(pre, Last(run), key);
      }
    }
  }

  /** The retention bound is exact: when nothing was deleted or has expired, a key
      hits if and only if fewer than `capacity` others were touched since. */
  lemma {:induction false} RetentionExact<V>(capacity: int, defaultTTL: int, run: seq<Event<V>>, key: Key, t: Time)
    requires Monotone(run, t)
    requires NothingRemoved(New(capacity, defaultTTL), run)
    requires LastWrite(run, key).Some? && Fresh(LastWrite(run, key).value, defaultTTL, t)
    ensures GetStep(After(New(capacity, defaultTTL), run), key, t).1.Some? <==>
            |Since(New(capacity, defaultTTL), run, key)| < New<V>(capacity, defaultTTL).capacity
  {
    var c := New<V>(capacity, defaultTTL);
    var list := After(c, run).list;
    RunValid(c, run);
    if |Since(c, run, key)| < c.capacity {
      Retention(capacity, defaultTTL, run, key, t);
    } else if Find(list, key).Some? {
      SinceWithinAhead(c, run, key);
      AheadSize(list, key);
      SubsetSize(Since(c, run, key), Ahead(list, key));
      assert false;
    }
  }

  lemma {:induction false} AheadSize<V>(list: seq<Entry<V>>, key: Key)
    requires Find(list, key).Some?
    ensures |Ahead(list, key)| < |list|
  {
    if list[0].key != key {
      AheadSize(list[1..], key);
    }
  }

  // ---- the list is strictly ordered by last touch ----

  ghost predicate NewestFirst<V>(c: Lru<V>, run: seq<Event<V>>, list: seq<Entry<V>>) {
    forall i, j | 0 <= i < j < |list| :: LastTouch(c, run, list[i].key) > LastTouch(c, run, list[j].key)
  }

  lemma {:induction false} NewestFirstKeep<V>(c: Lru<V>, run: seq<Event<V>>, list: seq<Entry<V>>, p: Entry<V> -> bool)
    requires NewestFirst(c, run, list)
    ensures NewestFirst(c, run, Keep(list, p))
  {
    if list != [] {
      NewestFirstKeep(c, run, list[1..], p);
      var rest := Keep(list[1..], p);
      forall j | 0 <= j < |rest| ensures LastTouch(c, run, list[0].key) > LastTouch(c, run, rest[j].key) {
        assert rest[j] in list[1..];
      }
    }
  }

  lemma {:induction false} LastTouchBound<V>(c: Lru<V>, run: seq<Event<V>>, key: Key)
    ensures -1 <= LastTouch(c, run, key) < |run|
  {
    if run != [] {
      LastTouchBound(c, DropLast(run), key);
    }
  }

  lemma NewestFirstSameKeys<V>(c: Lru<V>, run: seq<Event<V>>, list: seq<Entry<V>>)
    requires run != [] && NewestFirst(c, DropLast(run), list)
    requires forall e | e in list :: Touch(After(c, DropLast(run)), Last(run)) != Some(e.key)
    ensures NewestFirst(c, run, list)
  {
  }

  /** A Set puts its entry in front of an order-preserving selection of the list. */
  lemma SetKeepsOrder<V>(c: Lru<V>, key: Key, value: V, ttl: int, now: Time)
    returns (rest: seq<Entry<V>>, p: Entry<V> -> bool)
    requires Valid(c)
    ensures rest == Keep(c.list, p) && Absent(rest, key)
    ensures SetStep(c, key, value, ttl, now).list ==
            [Entry(key, value, EffectiveExpire(ttl, c.defaultTTL, now))] + rest
  {
    p := KeyIsNot(key);
    if Find(c.list, key).None? {
      WithoutAbsent(c.list, key);
      if |c.list| >= c.capacity && c.list != [] {
        p := KeyIsNot(Last(c.list).key);
        EvictionKeepsOrder(c.list);
      }
    }
    hide Keep;
    rest := Keep(c.list, p);
  }

  lemma EvictionKeepsOrder<V>(list: seq<Entry<V>>)
    requires Distinct(list) && list != []
    ensures DropLast(list) == Without(list, Last(list).key)
  {
    WithoutAt(list, |list| - 1);
    assert list[|list| - 1 + 1..] == [];
  }

  /** Each step leaves an order-preserving selection of the old list, with the
      touched entry, if any, moved or put in front. */
  lemma StepKeepsOrder<V>(c: Lru<V>, ev: Event<V>) returns (rest: seq<Entry<V>>, p: Entry<V> -> bool)
    requires Valid(c)
    ensures rest == Keep(c.list, p)
    ensures match Touch(c, ev)
            case None => Step(c, ev).list == rest
            case Some(k) =>
              && Absent(rest, k)
              && var list := Step(c, ev).list;
                 list != [] && list[0].key == k && list == [list[0]] + rest
  {
    match ev.op {
      case Purge => p := Alive(ev.now);
      case Get(key) => p := KeyIsNot(key); if Find(c.list, key).None? { WithoutAbsent(c.list, key); }
      case Delete(key) => p := KeyIsNot(key);
      case Set(key, value, ttl) =>
        hide SetStep, Keep;
        rest, p := SetKeepsOrder(c, key, value, ttl, ev.now);
    }
    rest := Keep(c.list, p);
  }

  lemma NewestFirstTouched<V>(c: Lru<V>, run: seq<Event<V>>, e: Entry<V>, rest: seq<Entry<V>>)
    requires run != [] && NewestFirst(c, DropLast(run), rest)
    requires Touch(After(c, DropLast(run)), Last(run)) == Some(e.key) && Absent(rest, e.key)
    ensures NewestFirst(c, run, [e] + rest)
  {
    NewestFirstSameKeys(c, run, rest);
    forall k: Key ensures LastTouch(c, DropLast(run), k) < |run| - 1 {
      LastTouchBound(c, DropLast(run), k);
    }
  }

  /** The recency list is the keys present, latest touch first; so its tail, the
      only entry a Set ever evicts, is the least recently touched key. */
  lemma {:induction false} ListOrderedByTouch<V>(c: Lru<V>, run: seq<Event<V>>)
    requires Valid(c) && c.list == []
    ensures NewestFirst(c, run, After(c, run).list)
  {
    if run != [] {
      var before := DropLast(run);
      var pre := After(c, before);
      ListOrderedByTouch(c, before);
      RunValid(c, before);
      var rest, p := StepKeepsOrder(pre, Last(run));
      NewestFirstKeep(c, before, pre.list, p);
      match Touch(pre, Last(run)) {
        case None => NewestFirstSameKeys(c, run, rest);
        case Some(k) =>
          NewestFirstTouched(c, run, After(c, run).list[0], rest);
      }
    }
  }

  // ---- accounting ----

  datatype Tally = Tally(newSets: nat, deletes: nat, gets: nat)

  /** Counted from the calls: Sets of absent keys, Deletes of present keys, Gets. */
  ghost function Count<V>(c: Lru<V>, run: seq<Event<V>>): Tally {
    if run == [] then Tally(0, 0, 0)
    else
      var t := Count(c, DropLast(run));
      var present := (key: Key) => Find(After(c, DropLast(run)).list, key).Some?;
      match Last(run).op
      case Get(_) => t.(gets := t.gets + 1)
      case Set(key, _, _) => if present(key) then t else t.(newSets := t.newSets + 1)
      case Delete(key) => if present(key) then t.(deletes := t.deletes + 1) else t
      case Purge => t
  }

  /** Every entry that ever came in is still there, was pushed out, expired or was
      deleted; and every Get is a hit or a miss. */
  lemma {:induction false} Accounting<V>(capacity: int, defaultTTL: int, run: seq<Event<V>>)
    ensures var c := New<V>(capacity, defaultTTL);
            var n := Count(c, run);
            var s := After(c, run);
            && n.newSets == |s.list| + s.evictions + s.expired + n.deletes
            && s.hits + s.misses == n.gets
  {
    if run != [] {
      var c := New<V>(capacity, defaultTTL);
      Accounting<V>(capacity, defaultTTL, DropLast(run));
      RunValid(c, DropLast(run));
      var pre := After(c, DropLast(run));
      if !Last(run).op.Purge? {
        if Find(pre.list, Last(run).op.key).Some? {
          WithoutFound(pre.list, Last(run).op.key);
        } else {
          WithoutAbsent(pre.list, Last(run).op.key);
        }
      }
    }
  }

  /** The four counters, told from the history. */
  datatype Counters = Counters(hits: nat, misses: nat, evictions: nat, expired: nat)

  /** A Get of the key at time t has an answer. */
  ghost predicate Answered<V>(c: Lru<V>, run: seq<Event<V>>, key: Key, t: Time) {
    LastWrite(run, key).Some? && Fresh(LastWrite(run, key).value, c.defaultTTL, t) && !EvictedSince(c, run, key)
  }

  /** How many of the entries expired before this moment. */
  function Stale<V>(list: seq<Entry<V>>, now: Time): nat {
    if list == [] then 0
    else Stale(list[1..], now) + if list[0].expiry.Some? && list[0].expiry.value < now then 1 else 0
  }

  /** How many entries a call finds expired: a Get looks at one, a purge at all. */
  ghost function FoundStale<V>(c: Lru<V>, ev: Event<V>): nat {
    match ev.op
    case Purge => Stale(c.list, ev.now)
    case Get(key) => if Find(c.list, key).Some? then Stale([Find(c.list, key).value], ev.now) else 0
    case _ => 0
  }

  ghost function Told<V>(c: Lru<V>, run: seq<Event<V>>): Counters {
    if run == [] then Counters(0, 0, 0, 0)
    else
      var n, before, ev := Told(c, DropLast(run)), DropLast(run), Last(run);
      var hit := ev.op.Get? && Answered(c, before, ev.op.key, ev.now);
      Counters(n.hits + (if hit then 1 else 0),
               n.misses + (if ev.op.Get? && !hit then 1 else 0),
               n.evictions + (if Victim(After(c, before), ev).Some? then 1 else 0),
               n.expired + FoundStale(After(c, before), ev))
  }

  lemma {:induction false} StaleAreDropped<V>(list: seq<Entry<V>>, now: Time)
    ensures |list| - |Keep(list, Alive(now))| == Stale(list, now)
  {
    if list != [] {
      StaleAreDropped(list[1..], now);
    }
  }

  lemma CountersStep<V>(c: Lru<V>, ev: Event<V>)
    ensures var next := Step(c, ev);
            var hit := ev.op.Get? && GetStep(c, ev.op.key, ev.now).1.Some?;
            && next.hits == c.hits + (if hit then 1 else 0)
            && next.misses == c.misses + (if ev.op.Get? && !hit then 1 else 0)
            && next.evictions == c.evictions + (if Victim(c, ev).Some? then 1 else 0)
            && next.expired == c.expired + FoundStale(c, ev)
  {
    if ev.op.Purge? {
      StaleAreDropped(c.list, ev.now);
    } else if ev.op.Get? && Find(c.list, ev.op.key).Some? {
      var e := Find(c.list, ev.op.key).value;
      assert Stale([e][1..], ev.now) == 0;
    }
  }

  /** Main result: over any run each counter on its own. Hits are the Gets of keys
      whose last undeleted write is fresh and not pushed out since, misses are all
      other Gets, evictions the entries pushed out, and the expired count the entries
      that a Get or a purge found past their expiry. */
  lemma {:induction false} CountersExactly<V>(capacity: int, defaultTTL: int, run: seq<Event<V>>, until: Time)
    requires Monotone(run, until)
    ensures var c := New<V>(capacity, defaultTTL);
            var s := After(c, run);
            Counters(s.hits, s.misses, s.evictions, s.expired) == Told(c, run)
  {
    if run != [] {
      var c := New<V>(capacity, defaultTTL);
      var before, ev := DropLast(run), Last(run);
      MonotonePrefix(run, until);
      CountersExactly<V>(capacity, defaultTTL, before, ev.now);
      CountersStep(After(c, before), ev);
      if ev.op.Get? {
        GetAnswersLastWrite(capacity, defaultTTL, before, ev.op.key, ev.now);
      }
      hide Step, Fresh, EvictedSince, LastWrite, Victim, FoundStale;
    }
  }
}
