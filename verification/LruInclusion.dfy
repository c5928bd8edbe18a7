/** Growing the cache never hurts: the list of a smaller cache is at all times an
    order-preserving part of the list of a larger one fed the same calls. */
module LruInclusion {
  import opened Wrappers
  import opened LruModel

  /** a can be obtained from b by striking out elements. */
  ghost predicate Subsequence<T>(a: seq<T>, b: seq<T>) {
    a == [] || (b != [] && ((a[0] == b[0] && Subsequence(a[1..], b[1..])) || Subsequence(a, b[1..])))
  }

  lemma {:induction false} SubsequenceKeep<V>(a: seq<Entry<V>>, b: seq<Entry<V>>, p: Entry<V> -> bool)
    requires Subsequence(a, b)
    ensures Subsequence(Keep(a, p), Keep(b, p))
    ensures |a| - |Keep(a, p)| <= |b| - |Keep(b, p)|
  {
    if a == [] {
    } else if a[0] == b[0] && Subsequence(a[1..], b[1..]) {
      SubsequenceKeep(a[1..], b[1..], p);
      SubsequenceCons(a[0], Keep(a[1..], p), Keep(b[1..], p));
    } else {
      SubsequenceKeep(a, b[1..], p);
      SubsequenceSkip(Keep(a, p), b[0], Keep(b[1..], p));
    }
  }

  lemma SubsequenceCons<T>(x: T, a: seq<T>, b: seq<T>)
    requires Subsequence(a, b)
    ensures Subsequence([x] + a, [x] + b)
  {
    assert ([x] + a)[1..] == a && ([x] + b)[1..] == b;
  }

  lemma SubsequenceSkip<T>(a: seq<T>, x: T, b: seq<T>)
    requires Subsequence(a, b)
    ensures Subsequence(a, [x] + b)
  {
    assert ([x] + b)[1..] == b;
  }

  lemma {:induction false} SubsequenceDropBoth<T>(a: seq<T>, b: seq<T>)
    requires Subsequence(a, b) && a != []
    ensures b != [] && Subsequence(DropLast(a), DropLast(b))
  {
    if a[0] == b[0] && Subsequence(a[1..], b[1..]) {
      if |a| > 1 {
        SubsequenceDropBoth(a[1..], b[1..]);
        SubsequenceCons(a[0], DropLast(a[1..]), DropLast(b[1..]));
        assert DropLast(a) == [a[0]] + DropLast(a[1..]);
        assert DropLast(b) == [a[0]] + DropLast(b[1..]);
      }
    } else {
      SubsequenceDropBoth(a, b[1..]);
      SubsequenceSkip(DropLast(a), b[0], DropLast(b[1..]));
      assert DropLast(b) == [b[0]] + DropLast(b[1..]);
    }
  }

  lemma {:induction false} SubsequenceDropLast<T>(a: seq<T>, b: seq<T>)
    requires Subsequence(a, b) && a != []
    ensures Subsequence(DropLast(a), b)
  {
    if a[0] == b[0] && Subsequence(a[1..], b[1..]) {
      if |a| > 1 {
        SubsequenceDropLast(a[1..], b[1..]);
        SubsequenceCons(a[0], DropLast(a[1..]), b[1..]);
        assert DropLast(a) == [a[0]] + DropLast(a[1..]);
        assert b == [a[0]] + b[1..];
      }
    } else {
      SubsequenceDropLast(a, b[1..]);
    }
  }

  lemma {:induction false} SubsequenceFind<V>(a: seq<Entry<V>>, b: seq<Entry<V>>, key: Key)
    requires Subsequence(a, b) && Distinct(b)
    ensures Find(a, key).Some? ==> Find(b, key) == Find(a, key)
  {
    if a == [] {
    } else if a[0] == b[0] && Subsequence(a[1..], b[1..]) {
      SubsequenceFind(a[1..], b[1..], key);
    } else {
      SubsequenceFind(a, b[1..], key);
      if Find(a, key).Some? {
        assert Find(b[1..], key).value in b[1..];
      }
    }
  }

  /** The small cache s sits inside the large cache l, and l has at least as much
      free room as s. */
  ghost predicate Included<V>(s: Lru<V>, l: Lru<V>) {
    && s.defaultTTL == l.defaultTTL
    && s.capacity <= l.capacity
    && Subsequence(s.list, l.list)
    && s.capacity - |s.list| <= l.capacity - |l.list|
  }

  lemma IncludedWithout<V>(s: Lru<V>, l: Lru<V>, key: Key)
    requires Valid(s) && Valid(l) && Included(s, l)
    ensures Find(s.list, key).Some? ==> Find(l.list, key) == Find(s.list, key)
    ensures Subsequence(Without(s.list, key), Without(l.list, key))
    ensures Find(s.list, key).Some? ==> |Without(s.list, key)| == |s.list| - 1
    ensures Find(l.list, key).Some? ==> |Without(l.list, key)| == |l.list| - 1
    ensures Find(s.list, key).None? ==> Without(s.list, key) == s.list
    ensures Find(l.list, key).None? ==> Without(l.list, key) == l.list
  {
    SubsequenceFind(s.list, l.list, key);
    SubsequenceKeep(s.list, l.list, KeyIsNot(key));
    if Find(s.list, key).Some? { WithoutFound(s.list, key); } else { WithoutAbsent(s.list, key); }
    if Find(l.list, key).Some? { WithoutFound(l.list, key); } else { WithoutAbsent(l.list, key); }
  }

  lemma IncludedGet<V>(s: Lru<V>, l: Lru<V>, key: Key, now: Time)
    requires Valid(s) && Valid(l) && Included(s, l)
    ensures Included(GetStep(s, key, now).0, GetStep(l, key, now).0)
    ensures GetStep(s, key, now).1.Some? ==> GetStep(l, key, now).1 == GetStep(s, key, now).1
  {
    IncludedWithout(s, l, key);
    if Find(l.list, key).Some? {
      var e := Find(l.list, key).value;
      SubsequenceCons(e, Without(s.list, key), Without(l.list, key));
      SubsequenceSkip(Without(s.list, key), e, Without(l.list, key));
    }
  }

  lemma IncludedSet<V>(s: Lru<V>, l: Lru<V>, key: Key, value: V, ttl: int, now: Time)
    requires Valid(s) && Valid(l) && Included(s, l)
    ensures Included(SetStep(s, key, value, ttl, now), SetStep(l, key, value, ttl, now))
  {
    IncludedWithout(s, l, key);
    var e := Entry(key, value, EffectiveExpire(ttl, s.defaultTTL, now));
    var restL := SetStep(l, key, value, ttl, now).list[1..];
    var restS := SetStep(s, key, value, ttl, now).list[1..];
    if Find(s.list, key).None? && s.list != [] {
      SubsequenceDropLast(s.list, Without(l.list, key));
      SubsequenceDropBoth(s.list, l.list);
    }
    SubsequenceCons(e, restS, restL);
  }

  lemma IncludedStep<V>(s: Lru<V>, l: Lru<V>, ev: Event<V>)
    requires Valid(s) && Valid(l) && Included(s, l)
    ensures Included(Step(s, ev), Step(l, ev))
  {
    match ev.op
    case Get(key) => IncludedGet(s, l, key, ev.now);
    case Set(key, value, ttl) => IncludedSet(s, l, key, value, ttl, ev.now);
    case Delete(key) => IncludedWithout(s, l, key);
    case Purge => SubsequenceKeep(s.list, l.list, Alive(ev.now));
  }

  /** No Belady anomaly: after any common run the small list is a subsequence of the
      large one, so whatever hits in the small cache hits in the large one with the
      same value. */
  lemma {:induction false} Inclusion<V>(small: int, large: int, defaultTTL: int, run: seq<Event<V>>)
    requires New<V>(small, defaultTTL).capacity <= New<V>(large, defaultTTL).capacity
    ensures Included(After(New<V>(small, defaultTTL), run), After(New<V>(large, defaultTTL), run))
  {
    if run != [] {
      var s, l := New<V>(small, defaultTTL), New<V>(large, defaultTTL);
      Inclusion(small, large, defaultTTL, DropLast(run));
      RunValid(s, DropLast(run));
      RunValid(l, DropLast(run));
      IncludedStep(After(s, DropLast(run)), After(l, DropLast(run)), Last(run));
    }
  }

  lemma {:induction false} HitsIncluded<V>(small: int, large: int, defaultTTL: int, run: seq<Event<V>>, key: Key, now: Time)
    requires New<V>(small, defaultTTL).capacity <= New<V>(large, defaultTTL).capacity
    ensures var r := GetStep(After(New(small, defaultTTL), run), key, now).1;
            r.Some? ==> GetStep(After(New(large, defaultTTL), run), key, now).1 == r
  {
    var s, l := New<V>(small, defaultTTL), New<V>(large, defaultTTL);
    Inclusion(small, large, defaultTTL, run);
    RunValid(s, run);
    RunValid(l, run);
    IncludedGet(After(s, run), After(l, run), key, now);
  }

  /** So the hit counter of the larger cache is never behind. */
  lemma {:induction false} HitsMonotone<V>(small: int, large: int, defaultTTL: int, run: seq<Event<V>>)
    requires New<V>(small, defaultTTL).capacity <= New<V>(large, defaultTTL).capacity
    ensures After(New<V>(small, defaultTTL), run).hits <= After(New<V>(large, defaultTTL), run).hits
  {
    if run != [] {
      HitsMonotone(small, large, defaultTTL, DropLast(run));
      if Last(run).op.Get? {
        HitsIncluded(small, large, defaultTTL, DropLast(run), Last(run).op.key, Last(run).now);
      }
    }
  }
}
