/** A least-recently-used cache of int values keyed by int. The store maps
    each key to its value; the recency list orders the cached keys from most
    to least recently used, and a full cache evicts the last one. The
    doubly-linked list of the original is modelled by the sequence it is
    meant to represent. */
module LruCache {

  datatype Option<T> = None | Some(value: T)

  ghost predicate Distinct(s: seq<int>)
  {
    forall i, j :: 0 <= i < j < |s| ==> s[i] != s[j]
  }

  /** The recency list with key unlinked from it. */
  function Remove(s: seq<int>, key: int): (r: seq<int>)
    ensures forall x :: x in r <==> x in s && x != key
    ensures key !in s ==> r == s
    ensures Distinct(s) ==> Distinct(r)
    ensures Distinct(s) && key in s ==> |r| == |s| - 1
  {
    if s == [] then []
    else if s[0] == key then Remove(s[1..], key)
    else
      var rest := Remove(s[1..], key);
      DistinctCons(s);
      [s[0]] + rest
  }

  /** A list is distinct exactly when its head is not repeated in its
      distinct tail. */
  lemma DistinctCons(s: seq<int>)
    requires |s| > 0
    ensures Distinct(s) <==> s[0] !in s[1..] && Distinct(s[1..])
  {
    if Distinct(s) {
      forall i, j | 0 <= i < j < |s[1..]|
        ensures s[1..][i] != s[1..][j]
      {
        assert s[1..][i] == s[i + 1] && s[1..][j] == s[j + 1];
      }
    }
  }

  /** The recency list after key is used: key first, the others in their
      previous order. */
  function MoveToFront(s: seq<int>, key: int): (r: seq<int>)
    requires key in s
    ensures |r| > 0 && r[0] == key
    ensures forall x :: x in r <==> x in s
    ensures Distinct(s) ==> Distinct(r) && |r| == |s|
  {
    [key] + Remove(s, key)
  }

  /** On a distinct list, unlinking a key is cutting it out of its slot:
      the keys before and after it keep their relative order. */
  lemma {:induction false} RemoveIsSlice(s: seq<int>, key: int, k: nat)
    requires Distinct(s) && k < |s| && s[k] == key
    ensures Remove(s, key) == s[..k] + s[k + 1..]
  {
    DistinctCons(s);
    if k == 0 {
      assert Remove(s, key) == Remove(s[1..], key) == s[1..];
      assert s[..0] + s[1..] == s[1..];
    } else {
      assert s[0] != s[k];
      var t := s[1..];
      RemoveIsSlice(t, key, k - 1);
      assert Remove(s, key) == [s[0]] + Remove(t, key);
      assert t[..k - 1] + t[k..] == s[1..k] + s[k + 1..];
      assert s[..k] + s[k + 1..] == [s[0]] + (s[1..k] + s[k + 1..]);
    }
  }

  /** Using any key other than the least recently used one leaves that key
      last, so it is still the one a full cache evicts next. */
  lemma MoveToFrontKeepsLast(s: seq<int>, key: int)
    requires Distinct(s) && key in s && key != s[|s| - 1]
    ensures |MoveToFront(s, key)| == |s|
    ensures MoveToFront(s, key)[|s| - 1] == s[|s| - 1]
  {
    var k :| 0 <= k < |s| && s[k] == key;
    RemoveIsSlice(s, key, k);
  }

  /** Using the most recently used key leaves the order as it is. */
  lemma MoveToFrontOfHead(s: seq<int>)
    requires Distinct(s) && |s| > 0
    ensures MoveToFront(s, s[0]) == s
  {
    assert s[0] !in s[1..];
    assert s == [s[0]] + s[1..];
  }

  class LRUCache {
    const cp: int
    /** Key to value, for every cached key. */
    var mp: map<int, int>
    /** The cached keys, most recently used first. */
    var recency: seq<int>
    var cacheSize: int

    ghost predicate Valid()
      reads this
    {
      && cp >= 2
      && cacheSize == |recency| <= cp
      && Distinct(recency)
      && (forall k :: k in mp <==> k in recency)
    }

    constructor (capacity: int)
      requires capacity >= 2
      ensures Valid() && cp == capacity
      ensures mp == map[] && recency == []
    {
      cp := capacity;
      mp := map[];
      recency := [];
      cacheSize := 0;
    }

    /** A hit returns the key's value and makes the key the most recently
        used; a miss returns -1 and changes nothing. */
    method Get(key: int) returns (v: int)
      requires Valid()
      modifies this
      ensures Valid()
      ensures key !in old(mp) ==> v == -1 && mp == old(mp) && recency == old(recency)
      ensures key in old(mp) ==>
                && v == old(mp)[key]
                && mp == old(mp)
                && recency == MoveToFront(old(recency), key)
      ensures cacheSize == old(cacheSize)
    {
      var node := QuickGet(key);
      if node.None? {
        return -1;
      } else {
        MarkAsMostRecentlyUsed(key);
        return node.value;
      }
    }

    /** A new key is stored, evicting the least recently used key when the
        cache is full, and becomes the most recently used. A key already
        cached only becomes the most recently used: its value is kept. */
    method Set(key: int, value: int)
      requires Valid()
      modifies this
      ensures Valid()
      ensures key in old(mp) ==> mp == old(mp) && recency == MoveToFront(old(recency), key)
      ensures key !in old(mp) && |old(recency)| < cp ==>
                && mp == old(mp)[key := value]
                && recency == [key] + old(recency)
      ensures key !in old(mp) && |old(recency)| == cp ==>
                var lru := old(recency)[|old(recency)| - 1];
                && mp == (old(mp) - {lru})[key := value]
                && recency == [key] + old(recency)[..|old(recency)| - 1]
                && lru !in mp && |recency| == |old(recency)|
    {
      var node := QuickGet(key);
      if node.None? {
        SaveInStore(key, value);
        SaveInCache(key);
        MoveToFrontOfHead(recency);
      }
      MarkAsMostRecentlyUsed(key);
    }

    /** The stored value of key, if any. */
    function QuickGet(key: int): (r: Option<int>)
      reads this
      ensures r.Some? <==> key in mp
      ensures r.Some? ==> r.value == mp[key]
    {
      if key in mp then Some(mp[key]) else None
    }

    /** Makes room for key if the cache is full, then links it in first. */
    method SaveInCache(key: int)
      requires cp >= 2 && cacheSize == |recency| <= cp
      modifies this
      ensures cacheSize == |recency|
      ensures old(cacheSize) == cp ==>
                && mp == old(mp) - {old(recency)[|old(recency)| - 1]}
                && recency == [key] + old(recency)[..|old(recency)| - 1]
      ensures old(cacheSize) < cp ==> mp == old(mp) && recency == [key] + old(recency)
    {
      if cacheSize == cp {
        RemoveLeastRecentlyUsed();
      }
      InsertToHead(key);
    }

    /** Stores key's value. The emplace keeps an existing entry but then
        overwrites its value, so either way key now maps to value. */
    method SaveInStore(key: int, value: int)
      modifies this
      ensures mp == old(mp)[key := value]
      ensures recency == old(recency) && cacheSize == old(cacheSize)
    {
      mp := mp[key := value];
    }

    /** Moves a cached key to the head of the recency list, leaving the size
        unchanged. */
    method MarkAsMostRecentlyUsed(key: int)
      requires key in recency
      modifies this
      ensures recency == MoveToFront(old(recency), key)
      ensures mp == old(mp) && cacheSize == old(cacheSize)
    {
      recency := MoveToFront(recency, key);
    }

    /** Links key in as the most recently used, growing the cache by one. */
    method InsertToHead(key: int)
      modifies this
      ensures recency == [key] + old(recency)
      ensures cacheSize == old(cacheSize) + 1 && mp == old(mp)
    {
      recency := [key] + recency;
      cacheSize := cacheSize + 1;
    }

    /** Evicts the least recently used key from the store and the list; an
        empty cache is left as it is. */
    method RemoveLeastRecentlyUsed()
      requires cacheSize == |recency| && |recency| != 1
      modifies this
      ensures |old(recency)| == 0 ==>
                mp == old(mp) && recency == old(recency) && cacheSize == old(cacheSize)
      ensures |old(recency)| > 0 ==>
                && mp == old(mp) - {old(recency)[|old(recency)| - 1]}
                && recency == old(recency)[..|old(recency)| - 1]
                && cacheSize == old(cacheSize) - 1
    {
      if |recency| == 0 {
        return;
      }
      var node := recency[|recency| - 1];
      mp := mp - {node};
      RemoveTail();
    }

    /** Unlinks the last key. The new tail is the old tail's predecessor, so
        at least two keys must be linked. */
    method RemoveTail()
      requires |recency| >= 2
      modifies this
      ensures recency == old(recency)[..|old(recency)| - 1]
      ensures cacheSize == old(cacheSize) - 1 && mp == old(mp)
    {
      recency := recency[..|recency| - 1];
      cacheSize := cacheSize - 1;
    }
  }

  /** Capacity two: a third key evicts the least recently used one, and
      setting a cached key again keeps its first value. */
  method EvictionSession()
  {
    var cache := new LRUCache(2);
    cache.Set(1, 10);
    cache.Set(2, 20);
    var v := cache.Get(1);
    assert v == 10;
    cache.Set(3, 30);
    v := cache.Get(2);
    assert v == -1;
    v := cache.Get(1);
    assert v == 10;
    cache.Set(1, 99);
    v := cache.Get(1);
    assert v == 10;
  }
}
