/** The bounded least-recently-used map that 01/src/main.rs keeps the fetched
    sources in (`LruCache<u64, Bytes>` of the lru crate), as the service uses it:
    `get` returns a value and marks it most recently used; `put` inserts or
    updates, evicting the least recently used entry when a new key meets a full
    cache.

    The state is a map plus a recency order: `order` lists every key once, least
    recently used first.
 */
module Lru {
  import opened Wrappers

  /** The service keys its cache by a 64-bit hash. */
  type K = u64

  datatype Cache<V> = Cache(cap: nat, entries: map<K, V>, order: seq<K>)

  predicate Distinct(s: seq<K>) {
    forall i, j :: 0 <= i < j < |s| ==> s[i] != s[j]
  }

  /** The invariant every cache keeps: a positive capacity, no more keys than
      that, and an order that lists exactly the stored keys, each once. */
  ghost predicate Valid<V>(c: Cache<V>) {
    && 0 < c.cap
    && |c.order| <= c.cap
    && Distinct(c.order)
    && (forall k :: k in c.entries <==> k in c.order)
  }

  /** `LruCache::new(NonZeroUsize::new(cap))`. */
  function New<V>(cap: nat): (c: Cache<V>)
    requires 0 < cap
    ensures Valid(c) && c.cap == cap && |c.entries| == 0
  {
    Cache(cap, map[], [])
  }

  /** The position of the first `k` in `s`. */
  function IndexOf(s: seq<K>, k: K): (i: nat)
    requires k in s
    ensures i < |s| && s[i] == k && k !in s[..i]
  {
    if s[0] == k then 0
    else
      assert k in s[1..];
      var j := IndexOf(s[1..], k);
      assert s[..j + 1] == [s[0]] + s[1..][..j];
      j + 1
  }

  /** The order with `k` taken out: in a distinct order, the one occurrence of
      `k` is cut out, every other key stays, and the others keep their relative
      order. */
  function Remove(s: seq<K>, k: K): (r: seq<K>)
    ensures Distinct(s) ==> Distinct(r) && forall x :: x in r <==> x in s && x != k
    ensures Distinct(s) && k in s ==> |r| == |s| - 1
    ensures Distinct(s) && k in s ==> exists i :: 0 <= i < |s| && s[i] == k && r == s[..i] + s[i + 1..]
    ensures k !in s ==> r == s
  {
    if k in s then
      var i := IndexOf(s, k);
      assert Distinct(s) ==> Distinct(s[..i] + s[i + 1..]) && forall x :: x in s[..i] + s[i + 1..] <==> x in s && x != k by {
        if Distinct(s) {
          DistinctCut(s, i);
        }
      }
      s[..i] + s[i + 1..]
    else s
  }

  /** Cutting one element out of a distinct sequence keeps it distinct and loses
      exactly that element. */
  lemma DistinctCut(s: seq<K>, i: nat)
    requires Distinct(s) && i < |s|
    ensures Distinct(s[..i] + s[i + 1..])
    ensures forall x :: x in s[..i] + s[i + 1..] <==> x in s && x != s[i]
  {
    var t := s[..i] + s[i + 1..];
    assert forall j :: 0 <= j < |t| ==> t[j] == if j < i then s[j] else s[j + 1];
    forall x | x in s && x != s[i] ensures x in t {
      var j :| 0 <= j < |s| && s[j] == x;
      if j < i {
        assert t[j] == x;
      } else {
        assert t[j - 1] == x;
      }
    }
  }

  lemma DistinctAppend(s: seq<K>, k: K)
    requires Distinct(s) && k !in s
    ensures Distinct(s + [k])
  {
  }

  /** `LruCache::get`: the stored value, if any; a hit makes the key the most
      recently used and changes nothing else; a miss changes nothing. */
  function Get<V>(c: Cache<V>, k: K): (r: (Option<V>, Cache<V>))
    requires Valid(c)
    ensures Valid(r.1) && r.1.cap == c.cap && r.1.entries == c.entries
    ensures k in c.entries ==> r.0 == Some(c.entries[k]) && r.1.order[|r.1.order| - 1] == k
    ensures k in c.entries ==> r.1.order == Remove(c.order, k) + [k]
    ensures k !in c.entries ==> r.0 == None && r.1 == c
  {
    if k in c.entries then
      var order := Remove(c.order, k) + [k];
      DistinctAppend(Remove(c.order, k), k);
      (Some(c.entries[k]), c.(order := order))
    else
      (None, c)
  }

  /** `LruCache::put`: afterwards `k` holds `v` and is the most recently used key.
      Updating a key or inserting into a cache with room loses no key; inserting a
      new key into a full cache loses exactly the least recently used one. Every
      value other than `k`'s is unchanged. */
  function Put<V>(c: Cache<V>, k: K, v: V): (r: Cache<V>)
    requires Valid(c)
    ensures Valid(r) && r.cap == c.cap
    ensures k in r.entries && r.entries[k] == v && r.order[|r.order| - 1] == k
    ensures k in c.entries || |c.order| < c.cap ==> r.entries.Keys == c.entries.Keys + {k}
    ensures k !in c.entries && |c.order| == c.cap ==>
              r.entries.Keys == c.entries.Keys - {c.order[0]} + {k}
    ensures forall x :: x in r.entries && x != k ==> x in c.entries && r.entries[x] == c.entries[x]
    ensures k in c.entries || |c.order| < c.cap ==> r.order == Remove(c.order, k) + [k]
    ensures k !in c.entries && |c.order| == c.cap ==> r.order == c.order[1..] + [k]
  {
    if k in c.entries then
      DistinctAppend(Remove(c.order, k), k);
      c.(entries := c.entries[k := v], order := Remove(c.order, k) + [k])
    else if |c.order| == c.cap then
      var lru := c.order[0];
      assert Distinct(c.order[1..]);
      DistinctAppend(c.order[1..], k);
      assert forall x :: x in c.order[1..] <==> x in c.order && x != lru;
      c.(entries := (c.entries - {lru})[k := v], order := c.order[1..] + [k])
    else
      DistinctAppend(c.order, k);
      c.(entries := c.entries[k := v], order := c.order + [k])
  }

  lemma {:induction false} DistinctCard(keys: set<K>, s: seq<K>)
    requires Distinct(s)
    requires forall k :: k in keys <==> k in s
    ensures |keys| == |s|
  {
    if |s| > 0 {
      var rest := keys - {s[0]};
      assert forall k :: k in rest <==> k in s[1..] by {
        forall k ensures k in rest <==> k in s[1..] {
          assert k in s <==> k == s[0] || k in s[1..] by { assert s == [s[0]] + s[1..]; }
          assert s[0] !in s[1..];
        }
      }
      DistinctCard(rest, s[1..]);
    } else {
      assert keys == {};
    }
  }

  /** A valid cache never holds more entries than its capacity. */
  lemma SizeBounded<V>(c: Cache<V>)
    requires Valid(c)
    ensures |c.entries| <= c.cap
  {
    DistinctCard(c.entries.Keys, c.order);
  }
}
