/** Properties of the cache that relate several operations: repeated
    lookups, what eviction leaves behind, unbounded mode over a run of
    additions, in-place update, and worked scenarios. */
module LruProperties {
  import opened Entries
  import opened Lru

  /** One addition requested of the cache: key, value and the value's length. */
  datatype Item<V> = Item(key: Key, value: V, vlen: nat)

  /** Adds the items in order, collecting every eviction reported. */
  function AddAll<V>(c: Cache<V>, items: seq<Item<V>>): (r: Outcome<V>)
    requires Valid(c) && c.maxBytes >= 0
    ensures Valid(r.next) && r.next.maxBytes == c.maxBytes
    decreases |items|
  {
    if items == [] then
      Outcome(c, [])
    else
      var first := Add(c, items[0].key, items[0].value, items[0].vlen);
      var rest := AddAll(first.next, items[1..]);
      Outcome(rest.next, first.evicted + rest.evicted)
  }

  /** A second lookup of a key that was just found changes nothing more. */
  lemma GetHitIsIdempotent<V>(c: Cache<V>, key: Key)
    requires Valid(c) && key in c.cache
    ensures Get(Get(c, key).next, key) == Get(c, key)
  {
    var once := Get(c, key).next;
    assert IndexOf(once.ll, key) == 0;
    assert MoveToFront(once.ll, 0) == once.ll by {
      assert RemoveAt(once.ll, 0) == once.ll[1..];
    }
  }

  /** The key removed by RemoveOldest is no longer found. */
  lemma RemovedKeyMisses<V>(c: Cache<V>)
    requires Valid(c) && c.ll != []
    ensures Get(RemoveOldest(c).next, c.ll[|c.ll| - 1].key).found == None
  {
  }

  /** After Add, no evicted key is found, and no key is reported twice. */
  lemma EvictedKeysAreGone<V>(c: Cache<V>, key: Key, value: V, vlen: nat)
    requires Valid(c) && c.maxBytes >= 0
    ensures var r := Add(c, key, value, vlen);
            && (forall i :: 0 <= i < |r.evicted| ==> Get(r.next, r.evicted[i].key).found == None)
            && (forall i, j :: 0 <= i < j < |r.evicted| ==> r.evicted[i].key != r.evicted[j].key)
  {
    var r := Add(c, key, value, vlen);
    SuffixEvictionsGone(Insert(c, key, value, vlen), r);
  }

  /** When a suffix of a valid cache's list is evicted, the evicted keys are
      distinct and none of them is left in the index. */
  lemma SuffixEvictionsGone<V>(c: Cache<V>, r: Outcome<V>)
    requires Valid(c) && Valid(r.next) && EvictedSuffix(c, r)
    ensures forall i :: 0 <= i < |r.evicted| ==> r.evicted[i].key !in r.next.cache
    ensures forall i, j :: 0 <= i < j < |r.evicted| ==> r.evicted[i].key != r.evicted[j].key
  {
    var n := |c.ll|;
    var k := |r.next.ll|;
    forall i | 0 <= i < |r.evicted| ensures r.evicted[i].key !in r.next.cache {
      var p := n - 1 - i;
      assert r.evicted[i] == Reported(c, p);
      forall q | 0 <= q < k ensures r.next.ll[q].key != c.ll[p].key {
        assert r.next.ll[q] == c.ll[q];
      }
    }
    forall i, j | 0 <= i < j < |r.evicted| ensures r.evicted[i].key != r.evicted[j].key {
      assert r.evicted[i] == Reported(c, n - 1 - i);
      assert r.evicted[j] == Reported(c, n - 1 - j);
    }
  }

  /** With no budget, adding keys that are new and pairwise distinct
      evicts nothing and grows the cache by one entry per key. */
  lemma {:induction false} UnboundedKeepsAll<V>(c: Cache<V>, items: seq<Item<V>>)
    requires Valid(c) && c.maxBytes == 0
    requires forall i :: 0 <= i < |items| ==> items[i].key !in c.cache
    requires forall i, j :: 0 <= i < j < |items| ==> items[i].key != items[j].key
    ensures AddAll(c, items).evicted == []
    ensures Len(AddAll(c, items).next) == Len(c) + |items|
    decreases |items|
  {
    if items != [] {
      var first := Add(c, items[0].key, items[0].value, items[0].vlen);
      assert Len(first.next) == Len(c) + 1;
      forall i | 0 <= i < |items[1..]| ensures items[1..][i].key !in first.next.cache {
        assert items[1..][i] == items[i + 1];
      }
      UnboundedKeepsAll(first.next, items[1..]);
    }
  }

  /** Adding N distinct keys to a fresh unbounded cache gives N entries. */
  lemma FreshUnboundedHoldsAll<V>(items: seq<Item<V>>)
    requires forall i, j :: 0 <= i < j < |items| ==> items[i].key != items[j].key
    ensures AddAll(New<V>(0), items).evicted == []
    ensures Len(AddAll(New<V>(0), items).next) == |items|
  {
    UnboundedKeepsAll(New<V>(0), items);
  }

  /** Adding a key twice keeps one entry whose bytes count the key once
      and only the second value, as long as both fit the budget. */
  lemma UpdateInPlace<V>(maxBytes: int, key: Key, v1: V, len1: nat, v2: V, len2: nat)
    requires maxBytes == 0 || (|key| + len1 <= maxBytes && |key| + len2 <= maxBytes)
    ensures var c := Add(Add(New<V>(maxBytes), key, v1, len1).next, key, v2, len2).next;
            Len(c) == 1 && c.nbytes == |key| + len2 && Get(c, key).found == Some(v2)
  {
    var c0 := New<V>(maxBytes);
    var p1 := Insert(c0, key, v1, len1);
    AddThatFitsEvictsNothing(c0, key, v1, len1);
    assert |p1.ll| == 1 && p1.ll[0] == Entry(key, len1) && p1.nbytes == |key| + len1;
    var p2 := Insert(p1, key, v2, len2);
    assert p1.ll[0] in p1.ll;
    assert p2.nbytes == |key| + len2;
    AddThatFitsEvictsNothing(p1, key, v2, len2);
  }

  /** Before eviction, a key not yet resident is placed in front of the
      unchanged list. */
  lemma InsertFreshKey<V>(c: Cache<V>, key: Key, value: V, vlen: nat)
    requires Valid(c) && key !in c.cache
    ensures Insert(c, key, value, vlen).ll == [Entry(key, vlen)] + c.ll
  {
    var r := Insert(c, key, value, vlen);
    AbsentKeyHasNoEntry(c.ll, key);
    DropAbsent(c.ll, key);
    assert r.ll == [r.ll[0]] + r.ll[1..];
  }

  /** An addition that fits the budget evicts nothing: the result is the
      state before eviction. */
  lemma AddThatFitsEvictsNothing<V>(c: Cache<V>, key: Key, value: V, vlen: nat)
    requires Valid(c) && c.maxBytes >= 0
    requires c.maxBytes == 0 || Insert(c, key, value, vlen).nbytes <= c.maxBytes
    ensures Add(c, key, value, vlen) == Outcome(Insert(c, key, value, vlen), [])
  {
  }

  /** Three one-byte keys used by the scenarios below. */
  const KeyA: Key := [97 as byte]
  const KeyB: Key := [98 as byte]
  const KeyC: Key := [99 as byte]

  /** Adding a fresh key of cost 5 under budget 10 to a cache holding at
      most one such entry evicts nothing. */
  lemma AddFiveToSmall(c: Cache<int>, key: Key, value: int)
    requires Valid(c) && c.maxBytes == 10 && |key| == 1 && key !in c.cache
    requires c.ll == [] || (|c.ll| == 1 && Cost(c.ll[0]) == 5)
    ensures var r := Add(c, key, value, 4);
            r.evicted == [] && r.next.ll == [Entry(key, 4)] + c.ll && r.next.cache == c.cache[key := value]
  {
    InsertFreshKey(c, key, value, 4);
    if c.ll != [] {
      assert c.ll[1..] == [];
      assert Bytes(c.ll) == 5;
    }
    AddThatFitsEvictsNothing(c, key, value, 4);
  }

  /** With two entries of cost 5 under budget 10, adding a fresh key of
      cost 5 evicts exactly the older entry. */
  lemma AddFiveToFull(c: Cache<int>, key: Key, value: int)
    requires Valid(c) && c.maxBytes == 10 && |key| == 1 && key !in c.cache
    requires |c.ll| == 2 && Cost(c.ll[0]) == 5 && Cost(c.ll[1]) == 5
    ensures var r := Add(c, key, value, 4);
            && r.evicted == [Reported(c, 1)]
            && |r.next.ll| == 2 && r.next.ll[0] == Entry(key, 4) && r.next.ll[1] == c.ll[0]
            && r.next.nbytes == 10
  {
    InsertFreshKey(c, key, value, 4);
    var pre := Insert(c, key, value, 4);
    assert pre.ll[2] == c.ll[1] && c.ll[1].key != key;
    assert Reported(pre, 2) == Reported(c, 1);
    EvictOldestOfThree(pre);
    var r := Add(c, key, value, 4);
    assert r == Evict(pre);
    assert r.next.ll[1] == pre.ll[1] == c.ll[0];
  }

  /** With three entries of cost 5 each under budget 10, eviction drops
      exactly the oldest one. */
  lemma EvictOldestOfThree(pre: Cache<int>)
    requires Valid(pre) && pre.maxBytes == 10 && |pre.ll| == 3
    requires forall i :: 0 <= i < 3 ==> Cost(pre.ll[i]) == 5
    ensures var r := Evict(pre);
            r.next.ll == pre.ll[..2] && r.next.nbytes == 10 && r.evicted == [Reported(pre, 2)]
  {
    var r := Evict(pre);
    var ll := pre.ll;
    assert ll[2..][1..] == [];
    assert Bytes(ll[2..]) == 5;
    assert ll[1..][1..] == ll[2..];
    assert Bytes(ll[1..]) == 10;
    assert Bytes(ll) == 15;
    assert ll[..2][1..][1..] == [];
    assert Bytes(ll[..2][1..]) == 5;
    assert Bytes(ll[..2]) == 10;
    assert OverBudgetPast(ll, |r.next.ll|, 10);
    assert |r.next.ll| == 2;
  }

  /** Budget 10, adding A with a value of length 4 to an empty cache: A is
      the only entry and nothing is evicted. */
  lemma FirstFive()
    ensures var r1 := Add(New<int>(10), KeyA, 1, 4);
            && r1.evicted == [] && Valid(r1.next) && r1.next.maxBytes == 10 && r1.next.nbytes == 5
            && |r1.next.ll| == 1 && r1.next.ll[0] == Entry(KeyA, 4) && r1.next.cache == map[KeyA := 1]
  {
    var c0 := New<int>(10);
    AddFiveToSmall(c0, KeyA, 1);
    var c1 := Add(c0, KeyA, 1, 4).next;
    assert c1.ll[0] == Entry(KeyA, 4);
    assert Bytes(c1.ll) == 5 by { assert c1.ll[1..] == []; }
  }

  /** Budget 10, adding B (5 bytes) to a cache holding only A (5 bytes):
      both are resident, B in front, and nothing is evicted. */
  lemma SecondFive(c1: Cache<int>)
    requires Valid(c1) && c1.maxBytes == 10
    requires |c1.ll| == 1 && c1.ll[0] == Entry(KeyA, 4) && c1.cache == map[KeyA := 1]
    ensures var r2 := Add(c1, KeyB, 2, 4);
            && r2.evicted == [] && r2.next.nbytes == 10
            && Valid(r2.next) && r2.next.maxBytes == 10
            && |r2.next.ll| == 2 && r2.next.ll[0] == Entry(KeyB, 4) && r2.next.ll[1] == Entry(KeyA, 4)
            && r2.next.cache[KeyA] == 1 && r2.next.cache[KeyB] == 2 && KeyC !in r2.next.cache
  {
    assert KeyA[0] != KeyB[0] && KeyA[0] != KeyC[0] && KeyB[0] != KeyC[0];
    AddFiveToSmall(c1, KeyB, 2);
    var c2 := Add(c1, KeyB, 2, 4).next;
    assert c2.ll == [Entry(KeyB, 4)] + c1.ll;
    assert c2.ll[1] == c1.ll[0];
  }

  /** The cache after adding A then B, each with a value of length 4,
      under budget 10. */
  function CacheAB(): (c: Cache<int>)
    ensures Valid(c) && c.maxBytes == 10
  {
    Add(Add(New<int>(10), KeyA, 1, 4).next, KeyB, 2, 4).next
  }

  /** Budget 10 after adding A then B, each 5 bytes: both are resident,
      B in front, and nothing was evicted. */
  lemma TwoFives()
    ensures var r1 := Add(New<int>(10), KeyA, 1, 4);
            var r2 := Add(r1.next, KeyB, 2, 4);
            && r1.evicted == [] && r1.next.nbytes == 5
            && r2.evicted == [] && r2.next.nbytes == 10
            && Valid(r2.next) && r2.next.maxBytes == 10
            && |r2.next.ll| == 2 && r2.next.ll[0] == Entry(KeyB, 4) && r2.next.ll[1] == Entry(KeyA, 4)
            && r2.next.cache[KeyA] == 1 && r2.next.cache[KeyB] == 2 && KeyC !in r2.next.cache
  {
    FirstFive();
    SecondFive(Add(New<int>(10), KeyA, 1, 4).next);
  }

  /** Budget 10, three one-byte keys with values of length 4 (5 bytes per
      entry): the third addition evicts the oldest key, keeps the other two
      and leaves the counter at 10. */
  lemma ThreeKeysScenario()
    ensures var r1 := Add(New<int>(10), KeyA, 1, 4);
            var r2 := Add(r1.next, KeyB, 2, 4);
            var r3 := Add(r2.next, KeyC, 3, 4);
            && r1.evicted == [] && r1.next.nbytes == 5
            && r2.evicted == [] && r2.next.nbytes == 10
            && r3.evicted == [Eviction(KeyA, 1)]
            && |r3.next.ll| == 2 && r3.next.ll[0] == Entry(KeyC, 4) && r3.next.ll[1] == Entry(KeyB, 4)
            && r3.next.nbytes == 10
  {
    TwoFives();
    var c2 := Add(Add(New<int>(10), KeyA, 1, 4).next, KeyB, 2, 4).next;
    AddFiveToFull(c2, KeyC, 3);
  }

  /** Looking up the older of two entries swaps them. */
  lemma GetOlderOfTwo<V>(c: Cache<V>)
    requires Valid(c) && |c.ll| == 2
    ensures var n := Get(c, c.ll[1].key).next;
            && |n.ll| == 2 && n.ll[0] == c.ll[1] && n.ll[1] == c.ll[0]
            && n.cache == c.cache && n.nbytes == c.nbytes && n.maxBytes == c.maxBytes
  {
    var n := Get(c, c.ll[1].key).next;
    RemoveAtIsDrop(c.ll, 1);
    assert n.ll[1] == n.ll[1..][0] == RemoveAt(c.ll, 1)[0];
  }

  /** A lookup refreshes recency: with room for two entries of 5 bytes,
      after adding A and B and looking A up, adding C evicts B, not A. */
  lemma HitRefreshesRecency()
    ensures var c3 := Get(CacheAB(), KeyA).next;
            var r := Add(c3, KeyC, 3, 4);
            && r.evicted == [Eviction(KeyB, 2)]
            && Get(r.next, KeyA).found == Some(1)
            && Get(r.next, KeyB).found == None
  {
    TwoFives();
    var c2 := CacheAB();
    GetOlderOfTwo(c2);
    AddAfterRefresh(Get(c2, KeyA).next);
  }

  /** Budget 10, A (5 bytes) in front of B (5 bytes): adding C (5 bytes)
      evicts B and keeps A. */
  lemma AddAfterRefresh(c: Cache<int>)
    requires Valid(c) && c.maxBytes == 10
    requires |c.ll| == 2 && c.ll[0] == Entry(KeyA, 4) && c.ll[1] == Entry(KeyB, 4)
    requires KeyA in c.cache && KeyB in c.cache && c.cache[KeyA] == 1 && c.cache[KeyB] == 2
    ensures var r := Add(c, KeyC, 3, 4);
            && r.evicted == [Eviction(KeyB, 2)]
            && Get(r.next, KeyA).found == Some(1)
            && Get(r.next, KeyB).found == None
  {
    assert KeyA[0] != KeyC[0] && KeyB[0] != KeyC[0];
    assert KeyC !in c.cache by {
      forall i | 0 <= i < |c.ll| ensures c.ll[i].key != KeyC {
      }
    }
    AddFiveToFull(c, KeyC, 3);
    var r := Add(c, KeyC, 3, 4);
    EvictedKeysAreGone(c, KeyC, 3, 4);
    assert r.next.ll[1] == Entry(KeyA, 4);
    assert KeyA in KeysOf(r.next.ll);
    AddKeepsOthers(c, KeyC, 3, 4);
  }
}
