/** A least-recently-used cache with a byte budget. The state is a recency
    list (most recently used first), an index from key to stored value, a
    byte counter kept up to date on every change, and the budget. Each
    operation is a pure function returning the next state; the calls the
    cache would make to its eviction callback are returned as a sequence,
    in the order they would be made. */
module Lru {
  import opened Entries

  datatype Option<T> = None | Some(value: T)

  /** One call of the eviction callback: the evicted key and its value. */
  datatype Eviction<V> = Eviction(key: Key, value: V)

  /** The cache. `ll` is the recency list, front = most recently used;
      `cache` maps each resident key to its value; `nbytes` is the counter
      of key bytes plus value lengths; `maxBytes` is the budget, 0 meaning
      unbounded. */
  datatype Cache<V> = Cache(maxBytes: int, nbytes: int, ll: seq<Entry>, cache: map<Key, V>)

  /** Result of a lookup: the next state and the value found, if any. */
  datatype Lookup<V> = Lookup(next: Cache<V>, found: Option<V>)

  /** Result of an operation that may evict: the next state and the
      evictions reported, oldest first. */
  datatype Outcome<V> = Outcome(next: Cache<V>, evicted: seq<Eviction<V>>)

  /** The representation invariant: keys in the list are distinct, the index
      holds exactly the listed keys, and the counter is the exact byte total. */
  ghost predicate Valid<V>(c: Cache<V>) {
    && DistinctKeys(c.ll)
    && c.cache.Keys == KeysOf(c.ll)
    && c.nbytes == Bytes(c.ll)
  }

  /** An empty cache with budget `maxBytes`. */
  function New<V>(maxBytes: int): (c: Cache<V>)
    ensures Valid(c)
    ensures c.maxBytes == maxBytes && c.nbytes == 0 && Len(c) == 0 && c.cache == map[]
  {
    Cache(maxBytes, 0, [], map[])
  }

  /** Number of resident entries. */
  function Len<V>(c: Cache<V>): (n: nat)
    ensures Valid(c) ==> n == |c.cache|
  {
    DistinctKeysCount(c.ll);
    |c.ll|
  }

  /** Looks `key` up; on a hit its entry becomes the most recently used. */
  function Get<V>(c: Cache<V>, key: Key): (r: Lookup<V>)
    requires Valid(c)
    ensures Valid(r.next)
    ensures r.found.Some? <==> key in c.cache
    ensures key in c.cache ==>
              && r.found.value == c.cache[key]
              && |r.next.ll| == |c.ll|
              && r.next.ll[0].key == key && r.next.ll[0] in c.ll
              && r.next.ll[1..] == Drop(c.ll, key)
              && r.next.cache == c.cache
              && r.next.nbytes == c.nbytes
              && r.next.maxBytes == c.maxBytes
    ensures key !in c.cache ==> r.next == c
  {
    if key in c.cache then
      var i := IndexOf(c.ll, key);
      Lookup(c.(ll := MoveToFront(c.ll, i)), Some(c.cache[key]))
    else
      Lookup(c, None)
  }

  /** Evicts the least recently used entry, if there is one. */
  function RemoveOldest<V>(c: Cache<V>): (r: Outcome<V>)
    requires Valid(c)
    ensures Valid(r.next) && r.next.maxBytes == c.maxBytes
    ensures c.ll == [] ==> r.next == c && r.evicted == []
    ensures c.ll != [] ==>
              var last := c.ll[|c.ll| - 1];
              && r.next.ll == c.ll[..|c.ll| - 1]
              && last.key !in r.next.cache
              && (forall k :: k in r.next.cache ==> k in c.cache && r.next.cache[k] == c.cache[k])
              && r.next.nbytes + Cost(last) == c.nbytes
              && r.evicted == [Eviction(last.key, c.cache[last.key])]
  {
    if c.ll == [] then
      Outcome(c, [])
    else
      var i := |c.ll| - 1;
      var last := c.ll[i];
      var rest := RemoveAt(c.ll, i);
      Outcome(Cache(c.maxBytes, c.nbytes - Cost(last), rest, c.cache - {last.key}),
              [Eviction(last.key, c.cache[last.key])])
  }

  /** The first half of Add: stores `value`, whose reported length is
      `vlen`, under `key` as the most recently used entry, before any
      eviction. */
  function Insert<V>(c: Cache<V>, key: Key, value: V, vlen: nat): (r: Cache<V>)
    requires Valid(c)
    ensures Valid(r) && r.maxBytes == c.maxBytes
    ensures r.ll != [] && r.ll[0] == Entry(key, vlen) && r.ll[1..] == Drop(c.ll, key)
    ensures r.cache == c.cache[key := value]
    ensures key in c.cache ==> |r.ll| == |c.ll|
    ensures forall e :: e in c.ll && e.key == key ==> r.nbytes == c.nbytes - e.size + vlen
    ensures key !in c.cache ==> |r.ll| == |c.ll| + 1 && r.nbytes == c.nbytes + |key| + vlen
  {
    if key in c.cache then
      var i := IndexOf(c.ll, key);
      OnlyEntryWithKey(c.ll, i);
      Refresh(c, i, value, vlen)
    else
      Prepend(c, key, value, vlen)
  }

  /** Insert for a key already resident at position `i`: its entry moves to
      the front with the new length, and the counter changes by the
      difference of the lengths. */
  function Refresh<V>(c: Cache<V>, i: nat, value: V, vlen: nat): (r: Cache<V>)
    requires Valid(c) && i < |c.ll|
    ensures Valid(r) && r.maxBytes == c.maxBytes
    ensures var key := c.ll[i].key;
            && |r.ll| == |c.ll| && r.ll[0] == Entry(key, vlen) && r.ll[1..] == Drop(c.ll, key)
            && r.cache == c.cache[key := value]
            && r.nbytes == c.nbytes - c.ll[i].size + vlen
  {
    var key := c.ll[i].key;
    var rest := RemoveAt(c.ll, i);
    RemoveAtIsDrop(c.ll, i);
    Cache(c.maxBytes, c.nbytes + (vlen - c.ll[i].size), PushFront(Entry(key, vlen), rest), c.cache[key := value])
  }

  /** Insert for a key not resident: a new entry goes in front and the
      counter grows by the key's bytes and the value's length. */
  function Prepend<V>(c: Cache<V>, key: Key, value: V, vlen: nat): (r: Cache<V>)
    requires Valid(c) && key !in c.cache
    ensures Valid(r) && r.maxBytes == c.maxBytes
    ensures |r.ll| == |c.ll| + 1 && r.ll[0] == Entry(key, vlen) && r.ll[1..] == Drop(c.ll, key)
    ensures r.cache == c.cache[key := value]
    ensures r.nbytes == c.nbytes + |key| + vlen
  {
    AbsentKeyHasNoEntry(c.ll, key);
    DropAbsent(c.ll, key);
    Cache(c.maxBytes, c.nbytes + (|key| + vlen), PushFront(Entry(key, vlen), c.ll), c.cache[key := value])
  }

  /** `r` is `c` after evicting some suffix of its recency list: the kept
      entries are a prefix of the list with their values unchanged, and the
      evictions report the dropped entries from the oldest one on. */
  ghost predicate EvictedSuffix<V>(c: Cache<V>, r: Outcome<V>) {
    && |r.next.ll| <= |c.ll|
    && r.next.ll == c.ll[..|r.next.ll|]
    && (forall k :: k in r.next.cache ==> k in c.cache && r.next.cache[k] == c.cache[k])
    && |r.evicted| == |c.ll| - |r.next.ll|
    && ReportsOldestFirst(c.ll, c.cache, r.evicted)
  }

  /** `ev` reports the last |ev| entries of `ll`, the oldest first, each with
      the value `cache` holds for its key. */
  ghost predicate ReportsOldestFirst<V>(ll: seq<Entry>, cache: map<Key, V>, ev: seq<Eviction<V>>) {
    && |ev| <= |ll|
    && forall i :: 0 <= i < |ev| ==>
         Oldest(ll, i).key in cache && ev[i] == Eviction(Oldest(ll, i).key, cache[Oldest(ll, i).key])
  }

  /** The entry with `i` entries behind it in the recency list: the
      least recently used one for i == 0. */
  function Oldest(ll: seq<Entry>, i: int): Entry
    requires 0 <= i < |ll|
  {
    ll[|ll| - 1 - i]
  }

  /** The eviction report for the entry at position `i` of the list. */
  function Reported<V>(c: Cache<V>, i: int): Eviction<V>
    requires 0 <= i < |c.ll| && c.ll[i].key in c.cache
  {
    Eviction(c.ll[i].key, c.cache[c.ll[i].key])
  }

  /** Every prefix of `ll` longer than `k` entries is over the budget. */
  ghost predicate OverBudgetPast(ll: seq<Entry>, k: nat, maxBytes: int) {
    forall j :: k < j <= |ll| ==> Bytes(ll[..j]) > maxBytes
  }

  /** The eviction loop of Add: while the budget is set and exceeded, evict
      the least recently used entry. It stops because every round shortens
      the list, and an empty list has no bytes to exceed a budget >= 0. */
  function Evict<V>(c: Cache<V>): (r: Outcome<V>)
    requires Valid(c) && c.maxBytes >= 0
    ensures Valid(r.next) && r.next.maxBytes == c.maxBytes
    ensures c.maxBytes != 0 ==> r.next.nbytes <= c.maxBytes
    ensures c.maxBytes == 0 ==> r.next == c && r.evicted == []
    ensures EvictedSuffix(c, r)
    ensures OverBudgetPast(c.ll, |r.next.ll|, c.maxBytes)
    decreases |c.ll|
  {
    if c.maxBytes != 0 && c.maxBytes < c.nbytes then
      var step := RemoveOldest(c);
      var rest := Evict(step.next);
      assert c.ll[|c.ll| - 1].key in KeysOf(c.ll);
      EvictStepSuffix(c, step, rest);
      EvictStepOver(c, |rest.next.ll|);
      Outcome(rest.next, step.evicted + rest.evicted)
    else
      Outcome(c, [])
  }

  /** One round of the eviction loop followed by the rest of the loop
      evicts a suffix of the list, reported oldest first. */
  lemma EvictStepSuffix<V>(c: Cache<V>, step: Outcome<V>, rest: Outcome<V>)
    requires c.ll != []
    requires step.next.ll == c.ll[..|c.ll| - 1]
    requires forall k :: k in step.next.cache ==> k in c.cache && step.next.cache[k] == c.cache[k]
    requires c.ll[|c.ll| - 1].key in c.cache
    requires step.evicted == [Eviction(c.ll[|c.ll| - 1].key, c.cache[c.ll[|c.ll| - 1].key])]
    requires EvictedSuffix(step.next, rest)
    ensures EvictedSuffix(c, Outcome(rest.next, step.evicted + rest.evicted))
  {
    var n := |c.ll|;
    var k := |rest.next.ll|;
    assert rest.next.ll == c.ll[..k] by {
      assert c.ll[..n - 1][..k] == c.ll[..k];
    }
    ReportsPrepend(c.ll, c.cache, step.next.cache, rest.evicted);
  }

  /** Reporting the last entry of `ll` and then, with a map that agrees
      with `cache`, entries of the list without it, reports entries of `ll`
      oldest first. */
  lemma ReportsPrepend<V>(ll: seq<Entry>, cache: map<Key, V>, sub: map<Key, V>, rest: seq<Eviction<V>>)
    requires ll != [] && ll[|ll| - 1].key in cache
    requires ReportsOldestFirst(ll[..|ll| - 1], sub, rest)
    requires forall k :: k in sub ==> k in cache && sub[k] == cache[k]
    ensures ReportsOldestFirst(ll, cache, [Eviction(ll[|ll| - 1].key, cache[ll[|ll| - 1].key])] + rest)
  {
    var n := |ll|;
    var front := ll[..n - 1];
    var ev := [Eviction(ll[n - 1].key, cache[ll[n - 1].key])] + rest;
    forall i | 0 <= i < |ev|
      ensures Oldest(ll, i).key in cache && ev[i] == Eviction(Oldest(ll, i).key, cache[Oldest(ll, i).key])
    {
      if i > 0 {
        assert ev[i] == rest[i - 1];
        assert Oldest(front, i - 1) == Oldest(ll, i);
      }
    }
  }

  /** If the whole list is over budget and so is every prefix of the list
      without its last entry beyond `k` entries, then every prefix of the
      whole list beyond `k` entries is over budget. */
  lemma EvictStepOver<V>(c: Cache<V>, k: nat)
    requires Valid(c) && c.ll != [] && c.maxBytes < c.nbytes
    requires OverBudgetPast(RemoveOldest(c).next.ll, k, c.maxBytes)
    ensures OverBudgetPast(c.ll, k, c.maxBytes)
  {
    var n := |c.ll|;
    var m := RemoveOldest(c).next;
    assert m.ll == c.ll[..n - 1];
    forall j | k < j <= n ensures Bytes(c.ll[..j]) > c.maxBytes {
      if j < n {
        assert m.ll[..j] == c.ll[..j];
      } else {
        assert c.ll[..j] == c.ll;
      }
    }
  }

  /** Adds or updates `key` with `value` (reported length `vlen`), then
      evicts least recently used entries while over budget. */
  function Add<V>(c: Cache<V>, key: Key, value: V, vlen: nat): (r: Outcome<V>)
    requires Valid(c) && c.maxBytes >= 0
    ensures Valid(r.next) && r.next.maxBytes == c.maxBytes
    ensures c.maxBytes != 0 ==> r.next.nbytes <= c.maxBytes
    ensures r.next.ll != [] ==> r.next.ll[0] == Entry(key, vlen) && r.next.cache[key] == value
    ensures c.maxBytes == 0 ==> r.evicted == []
    ensures EvictedSuffix(Insert(c, key, value, vlen), r)
    ensures OverBudgetPast(Insert(c, key, value, vlen).ll, |r.next.ll|, c.maxBytes)
    ensures 0 < c.maxBytes < |key| + vlen ==>
              r.next.ll == [] && r.evicted != [] && r.evicted[|r.evicted| - 1] == Eviction(key, value)
  {
    var pre := Insert(c, key, value, vlen);
    assert pre.ll[0] == Entry(key, vlen) && pre.cache[key] == value;
    EvictKeepsFront(pre);
    EvictOversizedFront(pre);
    Evict(pre)
  }

  /** Add changes no other key's value and brings in no other key. */
  lemma AddKeepsOthers<V>(c: Cache<V>, key: Key, value: V, vlen: nat)
    requires Valid(c) && c.maxBytes >= 0
    ensures var r := Add(c, key, value, vlen);
            forall k :: k in r.next.cache && k != key ==> k in c.cache && r.next.cache[k] == c.cache[k]
  {
    var pre := Insert(c, key, value, vlen);
    assert pre.cache == c.cache[key := value];
  }

  /** What survives eviction starts with the entry that was in front. */
  lemma EvictKeepsFront<V>(c: Cache<V>)
    requires Valid(c) && c.maxBytes >= 0 && c.ll != []
    ensures var r := Evict(c);
            r.next.ll != [] ==> r.next.ll[0] == c.ll[0] && r.next.cache[c.ll[0].key] == c.cache[c.ll[0].key]
  {
    var r := Evict(c);
    if r.next.ll != [] {
      assert r.next.ll[0] == c.ll[0];
      assert c.ll[0].key in KeysOf(r.next.ll);
    }
  }

  /** A front entry that alone exceeds a set budget is evicted too, last,
      leaving the cache empty. */
  lemma EvictOversizedFront<V>(c: Cache<V>)
    requires Valid(c) && c.ll != [] && c.maxBytes >= 0
    ensures 0 < c.maxBytes < Cost(c.ll[0]) ==>
            var r := Evict(c);
            r.next.ll == [] && r.evicted != [] && r.evicted[|r.evicted| - 1] == Reported(c, 0)
  {
    var r := Evict(c);
    var k := |r.next.ll|;
    if 0 < c.maxBytes < Cost(c.ll[0]) {
      assert k == 0;
      assert r.evicted[|c.ll| - 1] == Eviction(c.ll[0].key, c.cache[c.ll[0].key]);
    }
  }
}
