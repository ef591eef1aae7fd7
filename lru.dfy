/** The bounded caches of the index: a `LinkedHashMap` built in access order
    whose `removeEldestEntry` returns `size() > capacity`. The map is a value
    here: the classes that own a cache keep it in a field and reassign it. */
module Lru {
  import opened Wrappers

  predicate NoDuplicates(s: seq<string>) {
    forall i, j :: 0 <= i < j < |s| ==> s[i] != s[j]
  }

  /** `s` without any occurrence of `k`, the others in their order. */
  function Without(s: seq<string>, k: string): (r: seq<string>)
    ensures forall x :: x in r <==> x in s && x != k
    ensures |r| <= |s|
    ensures k !in s ==> r == s
    ensures NoDuplicates(s) ==> NoDuplicates(r)
    ensures NoDuplicates(s) && k in s ==> |r| == |s| - 1
  {
    if s == [] then []
    else
      var t := Without(s[1..], k);
      assert NoDuplicates(s) ==> s[0] !in s[1..] && NoDuplicates(s[1..]) by {
        if NoDuplicates(s) {
          forall j | 0 <= j < |s| - 1 ensures s[1..][j] != s[0] {
            assert s[1..][j] == s[j + 1];
          }
        }
      }
      if s[0] == k then t
      else
        assert NoDuplicates(s) ==> NoDuplicates([s[0]] + t) by {
          if NoDuplicates(s) {
            NoDuplicatesCons(s[0], t);
          }
        }
        [s[0]] + t
  }

  lemma NoDuplicatesCons(a: string, t: seq<string>)
    requires NoDuplicates(t) && a !in t
    ensures NoDuplicates([a] + t)
  {
    var s := [a] + t;
    forall i, j | 0 <= i < j < |s| ensures s[i] != s[j] {
      if i == 0 {
        assert s[j] == t[j - 1];
      } else {
        assert s[i] == t[i - 1] && s[j] == t[j - 1];
      }
    }
  }

  /** The keys in `order`, least recently accessed first; `entries` holds
      the values. */
  datatype Cache<V> = Cache(order: seq<string>, entries: map<string, V>, capacity: nat)
  {
    /** The map's own invariant: the order lists each key exactly once, and
        there are never more keys than the capacity allows. */
    predicate Valid() {
      capacity >= 1 && |order| <= capacity && NoDuplicates(order)
      && (forall k :: k in entries ==> k in order)
      && (forall k :: k in order ==> k in entries)
    }
  }

  /** A new, empty cache. */
  function Empty<V>(capacity: nat): (c: Cache<V>)
    ensures capacity >= 1 ==> c.Valid()
    ensures c.entries == map[] && c.capacity == capacity
  {
    Cache([], map[], capacity)
  }

  /** `containsKey`: does not count as an access, so the order is kept. */
  predicate ContainsKey<V>(c: Cache<V>, k: string) {
    k in c.entries
  }

  /** `get`: the value of a present key, which becomes the most recently
      accessed; nothing (Java's null) for a missing key, and then the cache
      is left as it was. */
  function Get<V>(c: Cache<V>, k: string): (r: (Option<V>, Cache<V>))
    ensures k in c.entries ==> r.0 == Some(c.entries[k])
    ensures k in c.entries ==> r.1.order == Without(c.order, k) + [k]
    ensures k !in c.entries ==> r.0 == None && r.1 == c
    ensures r.1.entries == c.entries && r.1.capacity == c.capacity
    ensures c.Valid() ==> r.1.Valid()
  {
    if k in c.entries then
      var r := (Some(c.entries[k]), Cache(Without(c.order, k) + [k], c.entries, c.capacity));
      assert c.Valid() ==> r.1.Valid() by {
        if c.Valid() {
          NoDuplicatesSnoc(Without(c.order, k), k);
        }
      }
      r
    else (None, c)
  }

  /** `put`: a present key gets the new value and becomes the most recent
      access; a new key is added as the most recent and, when the map then
      holds more than `capacity` keys, the least recently accessed key is
      evicted. */
  function Put<V>(c: Cache<V>, k: string, v: V): (r: Cache<V>)
    ensures c.Valid() ==> k in r.entries && r.entries[k] == v
    ensures r.capacity == c.capacity
    ensures k in c.entries ==> r.order == Without(c.order, k) + [k]
    ensures k in c.entries ==> r.entries == c.entries[k := v]
    ensures c.Valid() && k !in c.entries && |c.order| < c.capacity ==>
              r.order == c.order + [k] && r.entries == c.entries[k := v]
    ensures c.Valid() && k !in c.entries && |c.order| == c.capacity ==>
              r.order == c.order[1..] + [k] && r.entries == (c.entries - {c.order[0]})[k := v]
    ensures c.Valid() ==> r.Valid()
  {
    if k in c.entries then
      var r := Cache(Without(c.order, k) + [k], c.entries[k := v], c.capacity);
      assert c.Valid() ==> r.Valid() by {
        if c.Valid() {
          MoveToEndValid(c, k, c.entries[k := v]);
        }
      }
      r
    else
      var o := c.order + [k];
      var e := c.entries[k := v];
      if |o| > c.capacity then
        var r := Cache(o[1..], e - {o[0]}, c.capacity);
        assert c.Valid() ==> r.Valid() && c.order != [] && r.order == c.order[1..] + [k]
                             && r.entries == (c.entries - {c.order[0]})[k := v] && k in r.entries by {
          if c.Valid() {
            EvictValid(c, k, v);
          }
        }
        r
      else
        assert c.Valid() ==> Cache(o, e, c.capacity).Valid() by {
          if c.Valid() {
            NoDuplicatesSnoc(c.order, k);
          }
        }
        Cache(o, e, c.capacity)
  }

  /** A present key moved to the most recent end keeps the cache valid. */
  lemma MoveToEndValid<V>(c: Cache<V>, k: string, e: map<string, V>)
    requires c.Valid() && k in c.entries && e.Keys == c.entries.Keys
    ensures Cache(Without(c.order, k) + [k], e, c.capacity).Valid()
  {
    NoDuplicatesSnoc(Without(c.order, k), k);
  }

  /** A new key in a full cache: the least recently accessed key goes. */
  lemma EvictValid<V>(c: Cache<V>, k: string, v: V)
    requires c.Valid() && k !in c.entries && |c.order| + 1 > c.capacity
    ensures var o := c.order + [k];
            var r := Cache(o[1..], c.entries[k := v] - {o[0]}, c.capacity);
            r.Valid() && c.order != [] && r.order == c.order[1..] + [k]
            && r.entries == (c.entries - {c.order[0]})[k := v] && k in r.entries
  {
    var o := c.order + [k];
    var e := c.entries[k := v];
    NoDuplicatesSnoc(c.order, k);
    var r := Cache(o[1..], e - {o[0]}, c.capacity);
    assert o[0] == c.order[0] && o[1..] == c.order[1..] + [k];
    assert NoDuplicates(o[1..]) by {
      forall i, j | 0 <= i < j < |o| - 1 ensures o[1..][i] != o[1..][j] {
        assert o[1..][i] == o[i + 1] && o[1..][j] == o[j + 1];
      }
    }
    forall x ensures x in r.entries <==> x in r.order {
      if x in r.order {
        var i :| 0 <= i < |r.order| && r.order[i] == x;
        assert o[i + 1] == x;
      }
      if x in o && x != o[0] {
        var i :| 0 <= i < |o| && o[i] == x;
        assert r.order[i - 1] == x;
      }
    }
    assert r.entries == (c.entries - {c.order[0]})[k := v];
  }

  /** `remove`: only that key goes; the others keep their values and order. */
  function Remove<V>(c: Cache<V>, k: string): (r: Cache<V>)
    ensures r.entries == c.entries - {k}
    ensures r.order == Without(c.order, k)
    ensures r.capacity == c.capacity
    ensures c.Valid() ==> r.Valid()
  {
    Cache(Without(c.order, k), c.entries - {k}, c.capacity)
  }

  lemma NoDuplicatesSnoc(s: seq<string>, k: string)
    requires NoDuplicates(s) && k !in s
    ensures NoDuplicates(s + [k])
  {
    var t := s + [k];
    forall i, j | 0 <= i < j < |t| ensures t[i] != t[j] {
      if j == |s| {
        assert t[i] == s[i];
      }
    }
  }

  /** What a put does to the other keys: a key other than `k` survives with
      its value unless it was the least recently accessed key of a full cache
      and `k` is new. */
  lemma PutKeepsOthers<V>(c: Cache<V>, k: string, v: V, x: string)
    requires c.Valid() && x != k && x in c.entries
    ensures var r := Put(c, k, v);
            (x in r.entries <==> !(k !in c.entries && |c.order| == c.capacity && x == c.order[0]))
            && (x in r.entries ==> r.entries[x] == c.entries[x])
  {
  }

  /** After any sequence of accesses the most recent one is last in the
      order, so it is the last key a put can evict: a key just put survives
      the next put of a different key whenever the capacity exceeds one. */
  lemma PutSurvivesNextPut<V>(c: Cache<V>, k: string, v: V, k2: string, v2: V)
    requires c.Valid() && c.capacity >= 2 && k != k2
    ensures k in Put(Put(c, k, v), k2, v2).entries
  {
    var r := Put(c, k, v);
    assert r.order[|r.order| - 1] == k;
    if k2 !in r.entries && |r.order| == r.capacity {
      assert |r.order| >= 2;
      assert r.order[0] != k by {
        assert r.order[0] != r.order[|r.order| - 1];
      }
    }
  }
}
