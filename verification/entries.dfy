/** The recency list of the cache, as a sequence of entries ordered
    most-recently-used first. An entry records a key and the length its
    value reported when it was stored; the list operations the cache needs
    (search, removal at a position, deletion by key) are defined here once
    together with their facts about keys and byte counts. */
module Entries {

  newtype byte = b: int | 0 <= b < 256

  /** A key is a byte string; its length is its byte count. */
  type Key = seq<byte>

  /** One element of the recency list: a key and the length its value reports. */
  datatype Entry = Entry(key: Key, size: nat)

  /** What an entry contributes to the byte counter: key bytes plus value length. */
  function Cost(e: Entry): nat {
    |e.key| + e.size
  }

  /** Total contribution of a list of entries. */
  function Bytes(ll: seq<Entry>): nat {
    if ll == [] then 0 else Cost(ll[0]) + Bytes(ll[1..])
  }

  /** The keys occurring in a list of entries. */
  function KeysOf(ll: seq<Entry>): set<Key> {
    set i | 0 <= i < |ll| :: ll[i].key
  }

  /** No key occurs twice in the list. */
  predicate DistinctKeys(ll: seq<Entry>) {
    forall i, j :: 0 <= i < j < |ll| ==> ll[i].key != ll[j].key
  }

  /** Position of the entry holding `key`: the first one, the only one when
      keys are distinct. */
  function IndexOf(ll: seq<Entry>, key: Key): (i: nat)
    requires key in KeysOf(ll)
    ensures i < |ll| && ll[i].key == key
    ensures forall j :: 0 <= j < i ==> ll[j].key != key
  {
    if ll[0].key == key then 0
    else
      assert key in KeysOf(ll[1..]) by {
        var k :| 0 <= k < |ll| && ll[k].key == key;
        assert ll[1..][k - 1].key == key;
      }
      1 + IndexOf(ll[1..], key)
  }

  /** The list with every entry for `key` deleted: the reference meaning of
      removing a key from the recency order. */
  function Drop(ll: seq<Entry>, key: Key): seq<Entry>
  {
    if ll == [] then []
    else (if ll[0].key == key then [] else [ll[0]]) + Drop(ll[1..], key)
  }

  /** An entry whose key is not among the keys is not in the list. */
  lemma AbsentKeyHasNoEntry(ll: seq<Entry>, key: Key)
    requires key !in KeysOf(ll)
    ensures forall e :: e in ll ==> e.key != key
  {
    forall e | e in ll ensures e.key != key {
      var j :| 0 <= j < |ll| && ll[j] == e;
      assert ll[j].key in KeysOf(ll);
    }
  }

  /** With distinct keys, the entry at position `i` is the only one with its key. */
  lemma OnlyEntryWithKey(ll: seq<Entry>, i: nat)
    requires DistinctKeys(ll) && i < |ll|
    ensures forall e :: e in ll && e.key == ll[i].key ==> e == ll[i]
  {
    forall e | e in ll && e.key == ll[i].key ensures e == ll[i] {
      var j :| 0 <= j < |ll| && ll[j] == e;
      assert j == i;
    }
  }

  /** The tail of a list with distinct keys has distinct keys, none of
      them the head's key. */
  lemma DistinctKeysTail(ll: seq<Entry>)
    requires DistinctKeys(ll) && ll != []
    ensures DistinctKeys(ll[1..]) && ll[0].key !in KeysOf(ll[1..])
  {
    var tail := ll[1..];
    forall j | 0 <= j < |tail| ensures tail[j] == ll[j + 1] && tail[j].key != ll[0].key {
    }
  }

  /** With distinct keys, the number of keys is the number of entries. */
  lemma {:induction false} DistinctKeysCount(ll: seq<Entry>)
    ensures DistinctKeys(ll) ==> |KeysOf(ll)| == |ll|
    decreases |ll|
  {
    if ll != [] && DistinctKeys(ll) {
      var tail := ll[1..];
      assert KeysOf(ll) == {ll[0].key} + KeysOf(tail) by {
        forall k | k in KeysOf(ll) ensures k in {ll[0].key} + KeysOf(tail) {
          var i :| 0 <= i < |ll| && ll[i].key == k;
          if i > 0 { assert tail[i - 1].key == k; }
        }
        forall k | k in KeysOf(tail) ensures k in KeysOf(ll) {
          var i :| 0 <= i < |tail| && tail[i].key == k;
          assert ll[i + 1].key == k;
        }
      }
      DistinctKeysTail(ll);
      DistinctKeysCount(tail);
    }
  }

  /** The list without the entry at position `i`, the rest in order. */
  function RemoveAt(ll: seq<Entry>, i: nat): (r: seq<Entry>)
    requires i < |ll|
    ensures |r| == |ll| - 1
    ensures forall j :: 0 <= j < i ==> r[j] == ll[j]
    ensures forall j :: i <= j < |r| ==> r[j] == ll[j + 1]
    ensures Bytes(r) + Cost(ll[i]) == Bytes(ll)
    ensures DistinctKeys(ll) ==> DistinctKeys(r) && KeysOf(r) == KeysOf(ll) - {ll[i].key}
  {
    SpliceBytes(ll, i);
    SpliceKeys(ll, i);
    ll[..i] + ll[i + 1..]
  }

  lemma {:induction false} SpliceBytes(ll: seq<Entry>, i: nat)
    requires i < |ll|
    ensures Bytes(ll[..i] + ll[i + 1..]) + Cost(ll[i]) == Bytes(ll)
    decreases i
  {
    var r := ll[..i] + ll[i + 1..];
    if i == 0 {
      assert r == ll[1..];
    } else {
      var t := ll[1..];
      var rt := t[..i - 1] + t[i..];
      SpliceBytes(t, i - 1);
      assert r[0] == ll[0];
      assert r[1..] == rt;
      assert t[i - 1] == ll[i];
    }
  }

  lemma SpliceKeys(ll: seq<Entry>, i: nat)
    requires i < |ll|
    ensures DistinctKeys(ll) ==>
              DistinctKeys(ll[..i] + ll[i + 1..]) && KeysOf(ll[..i] + ll[i + 1..]) == KeysOf(ll) - {ll[i].key}
  {
    var r := ll[..i] + ll[i + 1..];
    assert forall j :: 0 <= j < |r| ==> r[j] == (if j < i then ll[j] else ll[j + 1]);
    if DistinctKeys(ll) {
      forall k | k in KeysOf(ll) - {ll[i].key} ensures k in KeysOf(r) {
        var j :| 0 <= j < |ll| && ll[j].key == k;
        if j < i { assert r[j].key == k; } else { assert r[j - 1].key == k; }
      }
    }
  }

  /** The list with `e` placed in front, as most recently used. */
  function PushFront(e: Entry, ll: seq<Entry>): (r: seq<Entry>)
    ensures |r| == |ll| + 1 && r[0] == e && r[1..] == ll
    ensures Bytes(r) == Cost(e) + Bytes(ll)
    ensures KeysOf(r) == {e.key} + KeysOf(ll)
    ensures DistinctKeys(r) <==> DistinctKeys(ll) && e.key !in KeysOf(ll)
  {
    var r := [e] + ll;
    assert r[1..] == ll;
    assert forall j :: 0 <= j < |ll| ==> r[j + 1] == ll[j];
    assert KeysOf(r) == {e.key} + KeysOf(ll) by {
      forall k | k in KeysOf(r) ensures k in {e.key} + KeysOf(ll) {
        var j :| 0 <= j < |r| && r[j].key == k;
        if j > 0 { assert ll[j - 1].key == k; }
      }
    }
    r
  }

  /** The entry at position `i` moved to the front, the others keeping their order. */
  function MoveToFront(ll: seq<Entry>, i: nat): (r: seq<Entry>)
    requires i < |ll|
    ensures |r| == |ll| && r[0] == ll[i]
    ensures DistinctKeys(ll) ==> DistinctKeys(r) && KeysOf(r) == KeysOf(ll) && r[1..] == Drop(ll, ll[i].key)
    ensures Bytes(r) == Bytes(ll)
  {
    RemoveAtIsDrop(ll, i);
    PushFront(ll[i], RemoveAt(ll, i))
  }

  /** Removing the entry at the key's position is deleting the key. */
  lemma RemoveAtIsDrop(ll: seq<Entry>, i: nat)
    requires i < |ll|
    ensures DistinctKeys(ll) ==> ll[..i] + ll[i + 1..] == Drop(ll, ll[i].key)
  {
    if DistinctKeys(ll) {
      DistinctRemoveAtIsDrop(ll, i);
    }
  }

  lemma {:induction false} DistinctRemoveAtIsDrop(ll: seq<Entry>, i: nat)
    requires DistinctKeys(ll) && i < |ll|
    ensures ll[..i] + ll[i + 1..] == Drop(ll, ll[i].key)
    decreases i
  {
    var tail := ll[1..];
    DistinctKeysTail(ll);
    if i == 0 {
      AbsentKeyHasNoEntry(tail, ll[0].key);
      DropAbsent(tail, ll[0].key);
      assert ll[..i] + ll[i + 1..] == tail;
    } else {
      var k := ll[i].key;
      assert tail[i - 1] == ll[i];
      DistinctRemoveAtIsDrop(tail, i - 1);
      assert ll[0].key != k;
      assert Drop(ll, k) == [ll[0]] + Drop(tail, k);
      assert ll[..i] == [ll[0]] + tail[..i - 1];
      assert ll[i + 1..] == tail[i..];
      assert ll[..i] + ll[i + 1..] == [ll[0]] + (tail[..i - 1] + tail[i..]);
    }
  }

  /** Deleting a key that no entry holds changes nothing. */
  lemma {:induction false} DropAbsent(ll: seq<Entry>, key: Key)
    requires forall e :: e in ll ==> e.key != key
    ensures Drop(ll, key) == ll
    decreases |ll|
  {
    if ll != [] {
      DropAbsent(ll[1..], key);
      assert [ll[0]] + ll[1..] == ll;
    }
  }
}
