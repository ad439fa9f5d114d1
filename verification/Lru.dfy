/** The least-recently-used cache: a map into a list of entries (pkg/server/lru.go). */
module Lru {
  import opened Recency

  /** A list element holding one entry. */
  class Element<K, V> {
    const key: K
    var value: V

    constructor (key: K, value: V)
      ensures this.key == key && this.value == value
    {
      this.key, this.value := key, value;
    }
  }

  /** The list without one element. */
  function Unlink<K, V>(items: seq<Element<K, V>>, e: Element<K, V>): seq<Element<K, V>> {
    if items == [] then []
    else if items[0] == e then items[1..]
    else [items[0]] + Unlink(items[1..], e)
  }

  ghost function Pairs<K, V>(items: seq<Element<K, V>>): (s: seq<(K, V)>)
    reads items
    ensures |s| == |items|
  {
    if items == [] then [] else [(items[0].key, items[0].value)] + Pairs(items[1..])
  }

  /** Keys of the list are distinct. */
  ghost predicate DistinctKeys<K, V>(items: seq<Element<K, V>>) {
    forall i, j :: 0 <= i < j < |items| ==> items[i].key != items[j].key
  }

  lemma {:induction false} UnlinkPairs<K, V>(items: seq<Element<K, V>>, e: Element<K, V>)
    requires DistinctKeys(items) && e in items
    ensures Pairs(Unlink(items, e)) == Without(Pairs(items), e.key)
  {
    var rest := items[1..];
    assert DistinctKeys(rest);
    assert Pairs(items)[1..] == Pairs(rest);
    if items[0] == e {
      PairsAbsent(rest, e.key);
    } else {
      assert items == [items[0]] + rest;
      UnlinkPairs(rest, e);
      var j :| 0 <= j < |items| && items[j] == e;
      assert items[0].key != e.key;
      assert Unlink(items, e)[1..] == Unlink(rest, e);
    }
  }

  lemma {:induction false} PairsAbsent<K, V>(items: seq<Element<K, V>>, k: K)
    requires forall i :: 0 <= i < |items| ==> items[i].key != k
    ensures Without(Pairs(items), k) == Pairs(items) && Find(Pairs(items), k) == Missing
  {
    if items != [] {
      PairsAbsent(items[1..], k);
      assert Pairs(items)[1..] == Pairs(items[1..]);
    }
  }

  lemma {:induction false} PairsFind<K, V>(items: seq<Element<K, V>>, e: Element<K, V>)
    requires DistinctKeys(items) && e in items
    ensures Find(Pairs(items), e.key) == Found(e.value)
  {
    assert items == [items[0]] + items[1..];
    assert Pairs(items)[1..] == Pairs(items[1..]);
    if items[0] != e {
      var j :| 0 <= j < |items| && items[j] == e;
      assert items[0].key != e.key;
      assert DistinctKeys(items[1..]);
      PairsFind(items[1..], e);
    }
  }

  lemma {:induction false} UnlinkElement<K, V>(items: seq<Element<K, V>>, e: Element<K, V>, x: Element<K, V>)
    requires DistinctKeys(items)
    ensures x in Unlink(items, e) <==> x in items && x != e
  {
    if items != [] {
      var rest := items[1..];
      assert items == [items[0]] + rest && DistinctKeys(rest);
      if items[0] == e {
        if x in rest {
          var j :| 0 <= j < |rest| && rest[j] == x;
          assert items[j + 1] == x;
        }
      } else {
        UnlinkElement(rest, e, x);
      }
    }
  }

  lemma {:induction false} UnlinkKeys<K, V>(items: seq<Element<K, V>>, e: Element<K, V>)
    requires DistinctKeys(items) && e in items
    ensures |Unlink(items, e)| == |items| - 1 && DistinctKeys(Unlink(items, e))
  {
    var rest := items[1..];
    assert items == [items[0]] + rest && DistinctKeys(rest);
    if items[0] != e {
      UnlinkKeys(rest, e);
      var u := Unlink(rest, e);
      forall j | 0 <= j < |u| ensures items[0].key != u[j].key {
        UnlinkElement(rest, e, u[j]);
        var h :| 0 <= h < |rest| && rest[h] == u[j];
        assert items[h + 1] == u[j];
      }
    }
  }

  lemma {:induction false} PairsPrefix<K, V>(items: seq<Element<K, V>>, n: nat)
    requires n <= |items|
    ensures Pairs(items[..n]) == Pairs(items)[..n]
  {
    if n > 0 {
      PairsPrefix(items[1..], n - 1);
      assert items[..n][1..] == items[1..][..n - 1];
    }
  }

  /** The map leads from each key to its own list element, and to nothing else. */
  ghost predicate Linked<K, V>(entries: map<K, Element<K, V>>, items: seq<Element<K, V>>) {
    && DistinctKeys(items)
    && (forall i :: 0 <= i < |items| ==> items[i].key in entries && entries[items[i].key] == items[i])
    && (forall k :: k in entries ==> entries[k] in items && entries[k].key == k)
  }

  /** Moving an element to the front. */
  lemma Moved<K, V>(entries: map<K, Element<K, V>>, items: seq<Element<K, V>>, e: Element<K, V>)
    requires Linked(entries, items) && e in items
    ensures Linked(entries, [e] + Unlink(items, e)) && |Unlink(items, e)| == |items| - 1 && e !in Unlink(items, e)
    ensures forall i :: 0 <= i < |Unlink(items, e)| ==> Unlink(items, e)[i] in items
  {
    UnlinkKeys(items, e);
    UnlinkElement(items, e, e);
    var rest := Unlink(items, e);
    forall j | 0 <= j < |rest| ensures rest[j] in items && rest[j] != e && LinksTo(entries, rest[j]) {
      UnlinkElement(items, e, rest[j]);
      var h :| 0 <= h < |items| && items[h] == rest[j];
    }
    forall k | k in entries ensures entries[k] in [e] + rest {
      UnlinkElement(items, e, entries[k]);
    }
    MovedLinks(entries, items, e, rest);
  }

  ghost predicate LinksTo<K, V>(entries: map<K, Element<K, V>>, e: Element<K, V>) {
    e.key in entries && entries[e.key] == e
  }

  lemma MovedLinks<K, V>(entries: map<K, Element<K, V>>, items: seq<Element<K, V>>, e: Element<K, V>,
                         rest: seq<Element<K, V>>)
    requires Linked(entries, items) && e in items && DistinctKeys(rest)
    requires forall j :: 0 <= j < |rest| ==> rest[j] != e && LinksTo(entries, rest[j])
    requires forall k :: k in entries ==> entries[k] in [e] + rest
    ensures Linked(entries, [e] + rest)
  {
    var front := [e] + rest;
    var i :| 0 <= i < |items| && items[i] == e;
    forall j | 0 <= j < |front| ensures LinksTo(entries, front[j]) {
      assert j > 0 ==> front[j] == rest[j - 1];
    }
    forall i, j | 0 <= i < j < |front| ensures front[i].key != front[j].key {
      assert LinksTo(entries, front[i]) && LinksTo(entries, front[j]);
      assert front[j] == rest[j - 1];
    }
  }

  lemma AbsentKey<K, V>(entries: map<K, Element<K, V>>, items: seq<Element<K, V>>, k: K)
    requires Linked(entries, items) && k !in entries
    ensures Find(Pairs(items), k) == Missing && Without(Pairs(items), k) == Pairs(items)
  {
    PairsAbsent(items, k);
  }

  lemma Pushed<K, V>(entries: map<K, Element<K, V>>, items: seq<Element<K, V>>, e: Element<K, V>)
    requires Linked(entries, items) && e.key !in entries
    ensures Linked(entries[e.key := e], [e] + items)
  {
    var front, all := [e] + items, entries[e.key := e];
    forall i | 0 <= i < |front| ensures front[i].key in all && all[front[i].key] == front[i] {
      assert i > 0 ==> front[i] == items[i - 1];
    }
    forall k | k in all ensures all[k] in front && all[k].key == k {}
  }

  lemma PairsFront<K, V>(e: Element<K, V>, items: seq<Element<K, V>>)
    ensures Pairs([e] + items) == [(e.key, e.value)] + Pairs(items)
  {
    assert ([e] + items)[1..] == items;
  }

  lemma TakeAll<T>(s: seq<T>, n: nat)
    requires |s| <= n
    ensures Take(s, n) == s
  {}

  lemma TakeButLast<T>(s: seq<T>, n: nat)
    requires |s| == n + 1
    ensures Take(s, n) == s[..n]
  {}

  lemma Popped<K, V>(entries: map<K, Element<K, V>>, items: seq<Element<K, V>>)
    requires Linked(entries, items) && items != []
    ensures Linked(entries - {items[|items| - 1].key}, items[..|items| - 1])
  {
    var n := |items| - 1;
    var kept, left := items[..n], entries - {items[n].key};
    forall k | k in left ensures left[k] in kept && left[k].key == k {
      var i :| 0 <= i < |items| && items[i] == entries[k];
      assert kept[i] == items[i];
    }
  }

  class Cache<K(==), V> {
    const capacity: nat
    var entries: map<K, Element<K, V>>
    var items: seq<Element<K, V>>

    ghost predicate Valid()
      reads this
    {
      capacity > 0 && |items| <= capacity && Linked(entries, items)
    }

    /** The entries, most recently used first. */
    ghost function Contents(): seq<(K, V)>
      reads this, items
    {
      Pairs(items)
    }

    constructor (capacity: nat)
      requires capacity > 0
      ensures Valid() && Contents() == [] && items == [] && this.capacity == capacity
    {
      this.capacity := capacity;
      entries, items := map[], [];
    }

    /** Records a value as the most recent one; reports whether the oldest entry had to go. */
    method Add(key: K, value: V) returns (evicted: bool)
      requires Valid()
      modifies this, items
      ensures Valid() && forall i :: 0 <= i < |items| ==> items[i] in old(items) || fresh(items[i])
      ensures Contents() == AfterAdd(capacity, old(Contents()), key, value)
      ensures evicted <==> Find(old(Contents()), key).Missing? && |old(Contents())| == capacity
    {
      if key in entries {
        Update(key, value);
        return false;
      }
      var item := Insert(key, value);
      ghost var all := Contents();
      if |items| <= capacity {
        TakeAll(all, capacity);
        return false;
      }
      TakeButLast(all, capacity);
      RemoveOldest();
      return true;
    }

    /** Pushes a new entry to the front, possibly one above capacity. */
    method Insert(key: K, value: V) returns (item: Element<K, V>)
      requires Valid() && key !in entries
      modifies this
      ensures Linked(entries, items) && fresh(item) && items == [item] + old(items)
      ensures Find(old(Contents()), key).Missing?
      ensures Contents() == [(key, value)] + Without(old(Contents()), key)
    {
      ghost var rest, pairs := items, Pairs(items);
      AbsentKey(entries, items, key);
      item := new Element(key, value);
      Pushed(entries, items, item);
      entries, items := entries[key := item], [item] + items;
      assert Pairs(rest) == pairs;
      PairsFront(item, rest);
    }

    /** Add of a retained key. */
    method Update(key: K, value: V)
      requires Valid() && key in entries
      modifies this, items
      ensures Valid() && forall i :: 0 <= i < |items| ==> items[i] in old(items)
      ensures Contents() == AfterAdd(capacity, old(Contents()), key, value)
      ensures Find(old(Contents()), key).Found?
    {
      var item := entries[key];
      Moved(entries, items, item);
      UnlinkPairs(items, item);
      PairsFind(items, item);
      var rest := Unlink(items, item);
      ghost var pairs := Pairs(rest);
      item.value := value;
      items := [item] + rest;
      assert Pairs(rest) == pairs;
      PairsFront(item, rest);
      TakeAll([(key, value)] + pairs, capacity);
    }

    /** Looks a key up and makes it the most recent one. */
    method Get(key: K) returns (r: Lookup<V>)
      requires Valid()
      modifies this
      ensures Valid() && forall i :: 0 <= i < |items| ==> items[i] in old(items)
      ensures r == Find(old(Contents()), key)
      ensures Contents() == AfterGet(old(Contents()), key)
    {
      if key !in entries {
        AbsentKey(entries, items, key);
        return Missing;
      }
      var item := entries[key];
      Moved(entries, items, item);
      UnlinkPairs(items, item);
      PairsFind(items, item);
      var rest := Unlink(items, item);
      ghost var pairs := Pairs(rest);
      items := [item] + rest;
      assert Pairs(rest) == pairs;
      PairsFront(item, rest);
      return Found(item.value);
    }

    method RemoveOldest()
      requires Linked(entries, items)
      modifies this
      ensures Linked(entries, items)
      ensures items == if old(items) == [] then [] else old(items)[..|old(items)| - 1]
      ensures Contents() == if old(items) == [] then [] else old(Contents())[..|old(items)| - 1]
    {
      if |items| == 0 { return; }
      Popped(entries, items);
      PairsPrefix(items, |items| - 1);
      var item := items[|items| - 1];
      items := items[..|items| - 1];
      entries := entries - {item.key};
    }
  }
}
