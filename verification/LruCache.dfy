/** InMemoryCache of cache.go on the heap: a hash index into a doubly linked ring
    of elements with a sentinel, as container/list builds it. Every method is
    proved to be one step of the pure machine in LruModel. */
module LruCache {
  import opened Wrappers
  import opened LruModel

  class Element<V> {
    var value: Option<Entry<V>>  // None only in the sentinel
    var prev: Element?<V>
    var next: Element?<V>

    constructor (value: Option<Entry<V>>)
      ensures this.value == value
    {
      this.value := value;
      prev := null;
      next := null;
    }
  }

  /** The elements form a ring through the sentinel, in this order. */
  ghost predicate Linked<V>(root: Element<V>, nodes: seq<Element<V>>)
    reads root, nodes
  {
    if nodes == [] then root.next == root && root.prev == root
    else
      && root.next == nodes[0] && nodes[0].prev == root
      && root.prev == nodes[|nodes| - 1] && nodes[|nodes| - 1].next == root
      && (forall i {:trigger nodes[i].prev} | 1 <= i < |nodes| :: nodes[i].prev == nodes[i - 1])
      && (forall i {:trigger nodes[i].next} | 0 <= i < |nodes| - 1 :: nodes[i].next == nodes[i + 1])
  }

  ghost predicate NoRepeats<T>(s: seq<T>) {
    forall i, j | 0 <= i < j < |s| :: s[i] != s[j]
  }

  /** The sequence with position i taken out. */
  function Cut<T>(s: seq<T>, i: nat): (r: seq<T>)
    requires i < |s|
    ensures |r| == |s| - 1
  {
    s[..i] + s[i + 1..]
  }

  lemma CutAt<T>(s: seq<T>, i: nat, j: nat)
    requires i < |s| && j < |s| - 1
    ensures Cut(s, i)[j] == if j < i then s[j] else s[j + 1]
  {
  }

  lemma CutNoRepeats<T>(s: seq<T>, i: nat)
    requires NoRepeats(s) && i < |s|
    ensures NoRepeats(Cut(s, i)) && s[i] !in Cut(s, i)
  {
  }

  lemma CutFirst<T>(s: seq<T>)
    requires s != []
    ensures s == [s[0]] + Cut(s, 0)
  {
  }

  /** A position has its own element, different from those around position i. */
  lemma Apart<T>(s: seq<T>, j: nat, i: nat)
    requires NoRepeats(s) && j < |s| && i < |s| && j != i
    ensures s[j] != s[i]
    ensures i > 0 && j != i - 1 ==> s[j] != s[i - 1]
    ensures i + 1 < |s| && j != i + 1 ==> s[j] != s[i + 1]
  {
  }

  class ElementList<V> {
    const root: Element<V>
    var len: nat
    ghost var nodes: seq<Element<V>>
    ghost var entries: seq<Entry<V>>
    ghost var repr: set<Element<V>>  // the sentinel and every element ever linked

    ghost predicate Valid()
      reads this, repr
    {
      && root in repr
      && len == |nodes| == |entries|
      && (forall i | 0 <= i < |nodes| :: nodes[i] in repr && nodes[i] != root && nodes[i].value == Some(entries[i]))
      && NoRepeats(nodes)
      && Linked(root, nodes)
    }

    constructor ()
      ensures Valid() && nodes == [] && entries == [] && fresh(repr)
    {
      root := new Element<V>(None);
      len := 0;
      nodes, entries, repr := [], [], {root};
      new;
      root.prev := root;
      root.next := root;
    }

    /** Takes the element at position i out of the ring. */
    method Remove(e: Element<V>, ghost i: nat)
      requires Valid() && i < |nodes| && nodes[i] == e
      modifies this, repr
      ensures Valid() && repr == old(repr) && e !in nodes && e.value == old(e.value)
      ensures nodes == Cut(old(nodes), i)
      ensures entries == Cut(old(entries), i)
    {
      Unlink(e, i);
      hide NoRepeats, Cut;
      e.prev, e.next := null, null;
    }

    /** Makes the neighbours of the element at position i point past it. */
    method Bridge(e: Element<V>, ghost i: nat)
      requires Valid() && i < |nodes| && nodes[i] == e
      modifies repr
      ensures e.value == old(e.value) && e.next == old(e.next) && e.prev == old(e.prev)
      ensures forall j {:trigger nodes[j].value} | 0 <= j < |nodes| :: nodes[j].value == Some(entries[j])
      ensures forall j {:trigger nodes[j].next} | 0 <= j < |nodes| ::
                nodes[j].next == if j == i - 1 then old(e.next) else old(nodes[j].next)
      ensures forall j {:trigger nodes[j].prev} | 0 <= j < |nodes| ::
                nodes[j].prev == if j == i + 1 then old(e.prev) else old(nodes[j].prev)
      ensures root.next == if i == 0 then old(e.next) else old(root.next)
      ensures root.prev == if i == |nodes| - 1 then old(e.prev) else old(root.prev)
    {
      e.prev.next := e.next;
      e.next.prev := e.prev;
    }

    /** Takes the element at position i out of the ring, leaving its own links. */
    method Unlink(e: Element<V>, ghost i: nat)
      requires Valid() && i < |nodes| && nodes[i] == e
      modifies this, repr
      ensures Valid() && repr == old(repr) && e !in nodes && e.value == old(e.value)
      ensures nodes == Cut(old(nodes), i)
      ensures entries == Cut(old(entries), i)
    {
      hide NoRepeats, Cut;
      CutNoRepeats(nodes, i);
      ghost var was, short := nodes, Cut(nodes, i);
      Bridge(e, i);
      entries := Cut(entries, i);
      len := len - 1;
      forall j | 0 <= j < |short|
        ensures short[j] in repr && short[j] != root && short[j].value == Some(entries[j])
        ensures j + 1 < |short| ==> short[j].next == short[j + 1]
        ensures j > 0 ==> short[j].prev == short[j - 1]
      {
        CutAt(was, i, j);
        CutAt(old(entries), i, j);
        if j + 1 < |short| { CutAt(was, i, j + 1); }
        if j > 0 { CutAt(was, i, j - 1); }
      }
      if short != [] {
        CutAt(was, i, 0);
        CutAt(was, i, |short| - 1);
      }
      nodes := short;
    }

    /** Links a new element right behind the sentinel. */
    method PushFront(item: Entry<V>) returns (e: Element<V>)
      requires Valid()
      modifies this, repr
      ensures Valid() && fresh(e) && repr == old(repr) + {e}
      ensures nodes == [e] + old(nodes)
      ensures entries == [item] + old(entries)
    {
      e := new Element<V>(Some(item));
      InsertFront(e, item);
    }

    /** The insertion after the sentinel that PushFront and MoveToFront share. */
    method InsertFront(e: Element<V>, ghost item: Entry<V>)
      requires Valid() && e !in nodes && e != root && e.value == Some(item)
      modifies this, repr, e
      ensures Valid() && repr == old(repr) + {e}
      ensures nodes == [e] + old(nodes)
      ensures entries == [item] + old(entries)
    {
      e.prev := root;
      e.next := root.next;
      e.prev.next := e;
      e.next.prev := e;
      nodes := [e] + nodes;
      entries := [item] + entries;
      repr := repr + {e};
      len := len + 1;
    }

    method MoveToFront(e: Element<V>, ghost i: nat)
      requires Valid() && i < |nodes| && nodes[i] == e
      modifies this, repr
      ensures Valid() && repr == old(repr)
      ensures nodes == [e] + Cut(old(nodes), i)
      ensures entries == [old(entries)[i]] + Cut(old(entries), i)
    {
      assert root.next == nodes[0];
      if i > 0 { Apart(nodes, 0, i); }
      hide Linked, NoRepeats, Cut;
      if root.next == e {
        CutFirst(nodes);
        CutFirst(entries);
        return;
      }
      Unlink(e, i);
      InsertFront(e, old(entries)[i]);
    }

    /** Replaces what an element holds. */
    method Update(e: Element<V>, item: Entry<V>, ghost i: nat)
      requires Valid() && i < |nodes| && nodes[i] == e
      modifies this, e
      ensures Valid() && repr == old(repr)
      ensures nodes == old(nodes)
      ensures entries == old(entries)[i := item]
    {
      e.value := Some(item);
      entries := entries[i := item];
    }

    method Back() returns (e: Element?<V>)
      requires Valid()
      ensures e == if nodes == [] then null else nodes[|nodes| - 1]
    {
      if len == 0 {
        return null;
      }
      return root.prev;
    }

    /** The element before e, or null at the front. */
    method Prev(e: Element<V>, ghost i: nat) returns (p: Element?<V>)
      requires Valid() && i < |nodes| && nodes[i] == e
      ensures p == if i == 0 then null else nodes[i - 1]
    {
      p := if e.prev != root then e.prev else null;
    }
  }

  // ---- the hash index ----

  /** The index maps exactly each listed key to its own element. */
  ghost predicate Indexed<V>(items: map<Key, Element<V>>, nodes: seq<Element<V>>, entries: seq<Entry<V>>) {
    && |nodes| == |entries|
    && NoRepeats(nodes)
    && (forall i | 0 <= i < |nodes| :: entries[i].key in items && items[entries[i].key] == nodes[i])
    && (forall key {:trigger Find(entries, key)} | key in items :: Find(entries, key).Some?)
  }

  lemma IndexedDistinct<V>(items: map<Key, Element<V>>, nodes: seq<Element<V>>, entries: seq<Entry<V>>)
    requires Indexed(items, nodes, entries)
    ensures Distinct(entries)
  {
    forall i, j | 0 <= i < j < |entries| ensures entries[i].key != entries[j].key {
      assert nodes[i] != nodes[j];
    }
  }

  /** The index answers exactly what a search of the list would. */
  lemma Lookup<V>(items: map<Key, Element<V>>, nodes: seq<Element<V>>, entries: seq<Entry<V>>, key: Key)
    returns (i: nat)
    requires Indexed(items, nodes, entries)
    ensures Distinct(entries)
    ensures key in items <==> Find(entries, key).Some?
    ensures key in items ==>
              && i < |nodes|
              && nodes[i] == items[key]
              && Find(entries, key) == Some(entries[i])
              && Without(entries, key) == Cut(entries, i)
  {
    i := 0;
    IndexedDistinct(items, nodes, entries);
    if Find(entries, key).Some? {
      i :| 0 <= i < |entries| && entries[i] == Find(entries, key).value;
      WithoutAt(entries, i);
    }
  }

  lemma IndexedRemove<V>(items: map<Key, Element<V>>, nodes: seq<Element<V>>, entries: seq<Entry<V>>, i: nat)
    requires Indexed(items, nodes, entries) && i < |nodes|
    ensures Indexed(items - {entries[i].key}, Cut(nodes, i), Cut(entries, i))
  {
    var key := entries[i].key;
    CutNoRepeats(nodes, i);
    IndexedDistinct(items, nodes, entries);
    WithoutAt(entries, i);
    forall j | 0 <= j < |nodes| - 1
      ensures Cut(entries, i)[j].key in items - {key} && (items - {key})[Cut(entries, i)[j].key] == Cut(nodes, i)[j]
    {
      assert entries[if j < i then j else j + 1].key != key;
    }
    forall k | k in items - {key} ensures Find(Cut(entries, i), k).Some? {
      FindKeep(entries, KeyIsNot(key), k);
    }
  }

  lemma IndexedInsert<V>(items: map<Key, Element<V>>, nodes: seq<Element<V>>, entries: seq<Entry<V>>,
                         e: Element<V>, item: Entry<V>)
    requires Indexed(items, nodes, entries) && e !in nodes && item.key !in items
    ensures Indexed(items[item.key := e], [e] + nodes, [item] + entries)
  {
    forall j | 0 <= j < |nodes| + 1
      ensures ([item] + entries)[j].key in items[item.key := e]
      ensures items[item.key := e][([item] + entries)[j].key] == ([e] + nodes)[j]
    {
      if j > 0 {
        assert entries[j - 1].key in items;
      }
    }
    forall k | k in items[item.key := e] ensures Find([item] + entries, k).Some? {
      FindCons(item, entries, k);
    }
    assert NoRepeats([e] + nodes);
  }

  lemma IndexedTouch<V>(items: map<Key, Element<V>>, nodes: seq<Element<V>>, entries: seq<Entry<V>>, i: nat)
    requires Indexed(items, nodes, entries) && i < |nodes|
    ensures Indexed(items, [nodes[i]] + Cut(nodes, i), [entries[i]] + Cut(entries, i))
  {
    IndexedRemove(items, nodes, entries, i);
    var key := entries[i].key;
    IndexedInsert(items - {key}, Cut(nodes, i), Cut(entries, i), nodes[i], entries[i]);
    assert (items - {key})[key := nodes[i]] == items;
  }

  lemma IndexedUpdate<V>(items: map<Key, Element<V>>, nodes: seq<Element<V>>, entries: seq<Entry<V>>, i: nat, item: Entry<V>)
    requires Indexed(items, nodes, entries) && i < |nodes| && item.key == entries[i].key
    ensures Indexed(items, nodes, entries[i := item])
  {
    forall k | k in items ensures Find(entries[i := item], k).Some? {
      var j :| 0 <= j < |entries| && entries[j] == Find(entries, k).value;
      assert entries[i := item][j].key == k;
    }
  }

  class InMemoryCache<V> {
    var items: map<Key, Element<V>>
    const ll: ElementList<V>
    const capacity: nat
    const defaultTTL: int
    var hits: nat
    var misses: nat
    var evictions: nat
    var expiredCount: nat

    ghost predicate Valid()
      reads this, ll, ll.repr
    {
      && ll.Valid()
      && Indexed(items, ll.nodes, ll.entries)
      && 0 < capacity
      && ll.len <= capacity
    }

    /** The state of the pure machine that the heap represents. */
    ghost function Model(): Lru<V>
      reads this, ll
    {
      Lru(capacity, defaultTTL, ll.entries, hits, misses, evictions, expiredCount)
    }

    lemma ModelValid()
      requires Valid()
      ensures LruModel.Valid(Model())
    {
      IndexedDistinct(items, ll.nodes, ll.entries);
    }

    constructor (capacity: int, defaultTTL: int)
      ensures Valid() && fresh(ll) && fresh(ll.repr)
      ensures Model() == New(capacity, defaultTTL)
      ensures this.capacity == (if capacity > 0 then capacity else 1024) && this.defaultTTL == defaultTTL
      ensures items == map[] && hits == misses == evictions == expiredCount == 0
    {
      this.capacity := if capacity <= 0 then DEFAULT_CAPACITY else capacity;
      this.defaultTTL := defaultTTL;
      items := map[];
      ll := new ElementList<V>();
      hits, misses, evictions, expiredCount := 0, 0, 0, 0;
    }

    /** The index holds exactly the listed keys, each with its listed entry. */
    lemma Present(key: Key)
      requires Valid()
      ensures key in items <==> Find(ll.entries, key).Some?
      ensures key in items ==> items[key] in ll.nodes && items[key].value == Find(ll.entries, key)
    {
      var i := Lookup(items, ll.nodes, ll.entries, key);
    }

    /** Takes the element at position i out of the ring and out of the index. */
    method RemoveElement(e: Element<V>, ghost i: nat)
      requires Valid() && i < |ll.nodes| && ll.nodes[i] == e
      modifies this`items, ll, ll.repr
      ensures Valid() && ll.repr == old(ll.repr) && items.Keys <= old(items.Keys)
      ensures ll.nodes == Cut(old(ll.nodes), i) && ll.entries == Cut(old(ll.entries), i)
    {
      IndexedRemove(items, ll.nodes, ll.entries, i);
      var key := e.value.value.key;
      ll.Remove(e, i);
      items := items - {key};
    }

    /** Takes a key that is present out of the ring and out of the index. */
    method RemoveKey(key: Key)
      requires Valid() && key in items
      modifies this`items, ll, ll.repr
      ensures Valid() && ll.repr == old(ll.repr)
      ensures ll.entries == Without(old(ll.entries), key)
    {
      ghost var i := Lookup(items, ll.nodes, ll.entries, key);
      RemoveElement(items[key], i);
    }

    /** Puts an entry in the place of a present one and brings it to the front. */
    method Refresh(item: Entry<V>)
      requires Valid() && item.key in items
      modifies ll, ll.repr
      ensures Valid() && ll.repr == old(ll.repr)
      ensures ll.entries == [item] + Without(old(ll.entries), item.key)
    {
      ghost var i := Lookup(items, ll.nodes, ll.entries, item.key);
      var e := items[item.key];
      IndexedUpdate(items, ll.nodes, ll.entries, i, item);
      ll.Update(e, item, i);
      IndexedTouch(items, ll.nodes, ll.entries, i);
      ll.MoveToFront(e, i);
    }

    /** Brings the element of a present key to the front. */
    method Promote(e: Element<V>, key: Key)
      requires Valid() && key in items && e == items[key]
      modifies ll, ll.repr
      ensures Valid() && ll.repr == old(ll.repr)
      ensures Find(old(ll.entries), key).Some?
      ensures ll.entries == [Find(old(ll.entries), key).value] + Without(old(ll.entries), key)
    {
      ghost var i := Lookup(items, ll.nodes, ll.entries, key);
      IndexedTouch(items, ll.nodes, ll.entries, i);
      ll.MoveToFront(e, i);
    }

    method Get(key: Key, now: Time) returns (r: Option<V>)
      requires Valid()
      modifies this, ll, ll.repr
      ensures Valid() && ll.repr == old(ll.repr)
      ensures (Model(), r) == GetStep(old(Model()), key, now)
    {
      hide Indexed, Linked, NoRepeats;
      Present(key);
      if key !in items {
        misses := misses + 1;
        return None;
      }
      var e := items[key];
      var ci := e.value.value;
      if ci.expiry.Some? && now > ci.expiry.value {
        RemoveKey(key);
        expiredCount := expiredCount + 1;
        misses := misses + 1;
        return None;
      }
      Promote(e, key);
      hits := hits + 1;
      return Some(ci.value);
    }

    method Set(key: Key, value: V, ttl: int, now: Time)
      requires Valid()
      modifies this, ll, ll.repr
      ensures Valid() && fresh(ll.repr - old(ll.repr))
      ensures Model() == SetStep(old(Model()), key, value, ttl, now)
    {
      hide Indexed, Linked, NoRepeats;
      Present(key);
      var item := Entry(key, value, EffectiveExpire(ttl, defaultTTL, now));
      if key in items {
        Refresh(item);
        return;
      }
      if ll.len >= capacity {
        EvictTail();
      }
      Link(item);
    }

    /** Pushes the tail out, if there is one. */
    method EvictTail()
      requires Valid()
      modifies this, ll, ll.repr
      ensures Valid() && ll.repr == old(ll.repr)
      ensures items.Keys <= old(items.Keys)
      ensures Model() == var m := old(Model());
                         if m.list == [] then m else m.(list := DropLast(m.list), evictions := m.evictions + 1)
    {
      hide Linked, NoRepeats;
      var tail := ll.Back();
      if tail != null {
        RemoveElement(tail, |ll.nodes| - 1);
        evictions := evictions + 1;
      }
    }

    /** Links an entry with a new key at the front. */
    method Link(item: Entry<V>)
      requires Valid() && item.key !in items && ll.len < capacity
      modifies this`items, ll, ll.repr
      ensures Valid() && fresh(ll.repr - old(ll.repr))
      ensures ll.entries == [item] + old(ll.entries)
    {
      ghost var nodes, entries := ll.nodes, ll.entries;
      var e := ll.PushFront(item);
      IndexedInsert(items, nodes, entries, e, item);
      items := items[item.key := e];
    }

    method Delete(key: Key)
      requires Valid()
      modifies this, ll, ll.repr
      ensures Valid() && ll.repr == old(ll.repr)
      ensures Model() == DeleteStep(old(Model()), key)
    {
      hide Indexed, Linked, NoRepeats;
      Present(key);
      if key in items {
        RemoveKey(key);
      } else {
        WithoutAbsent(ll.entries, key);
      }
    }

    /** One visit of the purge loop: drops the element if its entry has expired and
        gives the element to visit next. */
    method Visit(e: Element<V>, now: Time, ghost list: seq<Entry<V>>, ghost i: nat) returns (prev: Element?<V>)
      requires Valid() && 0 < i <= |list| && i <= |ll.nodes| && ll.nodes[i - 1] == e
      requires ll.entries == Purging(list, i, now)
      modifies this`items, this`expiredCount, ll, ll.repr
      ensures Valid() && ll.repr == old(ll.repr)
      ensures ll.entries == Purging(list, i - 1, now)
      ensures i - 1 <= |ll.nodes| && prev == if i == 1 then null else ll.nodes[i - 2]
      ensures expiredCount + |ll.entries| == old(expiredCount) + |old(ll.entries)|
    {
      hide Indexed, Linked, NoRepeats, Purging, Keep;
      PurgingOne(list, i, now);
      prev := ll.Prev(e, i - 1);
      var ci := e.value.value;
      if ci.expiry.Some? && now > ci.expiry.value {
        RemoveElement(e, i - 1);
        expiredCount := expiredCount + 1;
      }
    }

    method Back() returns (e: Element?<V>)
      requires Valid()
      ensures |ll.nodes| == |ll.entries|
      ensures e == if ll.nodes == [] then null else ll.nodes[|ll.nodes| - 1]
    {
      e := ll.Back();
    }

    method PurgeExpired(now: Time)
      requires Valid()
      modifies this, ll, ll.repr
      ensures Valid() && ll.repr == old(ll.repr)
      ensures Model() == PurgeStep(old(Model()), now)
    {
      if ll.len == 0 {
        return;
      }
      PurgeFromBack(now);
    }

    /** Walks from the back and removes in place; what is left is the old list with
        the expired entries struck out, in the same order. */
    method PurgeFromBack(now: Time)
      requires Valid()
      modifies this, ll, ll.repr
      ensures Valid() && ll.repr == old(ll.repr)
      ensures Model() == PurgeStep(old(Model()), now)
    {
      hide Keep, Purging, InMemoryCache.Valid;
      ghost var list := ll.entries;
      ghost var i: nat := |list|;  // entries not yet visited
      PurgingAll(list, now);
      var e := Back();
      while e != null
        invariant i <= |list| && i <= |ll.nodes|
        invariant Valid() && ll.repr == old(ll.repr)
        invariant e == if i == 0 then null else ll.nodes[i - 1]
        invariant ll.entries == Purging(list, i, now)
        invariant expiredCount + |ll.entries| == old(expiredCount) + |list|
        invariant hits == old(hits) && misses == old(misses) && evictions == old(evictions)
        decreases i
      {
        e := Visit(e, now, list, i);
        i := i - 1;
      }
    }

    method Stats() returns (size: nat, cap: nat, h: nat, m: nat, ev: nat, ex: nat)
      requires Valid()
      ensures size == |Model().list| && cap == Model().capacity
      ensures h == Model().hits && m == Model().misses && ev == Model().evictions && ex == Model().expired
    {
      return ll.len, capacity, hits, misses, evictions, expiredCount;
    }
  }

  /** The list while the purge loop has the first i entries still to visit. */
  ghost function Purging<V>(list: seq<Entry<V>>, i: nat, now: Time): seq<Entry<V>>
    requires i <= |list|
  {
    list[..i] + Keep(list[i..], Alive(now))
  }

  lemma PurgingAll<V>(list: seq<Entry<V>>, now: Time)
    ensures Purging(list, |list|, now) == list
    ensures Purging(list, 0, now) == Keep(list, Alive(now))
  {
    assert list[..|list|] == list && list[0..] == list;
  }

  /** Deciding entry i - 1 extends the part that is done. */
  lemma PurgingOne<V>(list: seq<Entry<V>>, i: nat, now: Time)
    requires 0 < i <= |list|
    ensures |Purging(list, i, now)| >= i && Purging(list, i, now)[i - 1] == list[i - 1]
    ensures Purging(list, i - 1, now) ==
            if Expired(list[i - 1].expiry, now) then Cut(Purging(list, i, now), i - 1) else Purging(list, i, now)
  {
    var e, kept := list[i - 1], Keep(list[i..], Alive(now));
    var l := list[..i] + kept;
    assert list[i - 1..] == [e] + list[i..];
    assert list[i - 1..][1..] == list[i..];
    assert l[..i - 1] == list[..i - 1] && l[i..] == kept;
    assert l == list[..i - 1] + ([e] + kept);
  }
}
