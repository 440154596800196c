# Byte-budgeted LRU cache

A Dafny model of the least-recently-used cache in `lru/lru.go` of
distributed-cache. The cache holds key/value pairs in a recency list, with the
most recently used entry in front. An index maps each key to its entry. A byte
counter `nbytes` tracks the total of key length plus value length over all
entries. `Add` evicts least recently used entries while a budget `maxBytes` is
set (non-zero) and exceeded.

The model is functional. A cache is an immutable value with four parts:

- `ll`: the recency list, a sequence of entries (key, value length), front first;
- `cache`: a map from key to value;
- `nbytes`: the byte counter;
- `maxBytes`: the budget.

Each operation returns the next state. The calls the cache would make to its
`OnEvicted` callback come back as a sequence of `(key, value)` reports, in call
order.

Modules:

- `Entries` (`entries.dfy`): the recency list. It defines keys as byte strings, an
  entry's cost, the byte total, the key set, distinctness, and the list
  operations the cache uses: find, remove at a position, push to the front,
  move to the front. `Drop` (delete every entry with a key) is the reference
  those operations are related to.
- `Lru` (`lru.dfy`): the cache state, its representation invariant `Valid`,
  and `New`, `Get`, `RemoveOldest`, `Add` and `Len`. `Add` is split into
  `Insert` (update or insert, lines 65-75) and `Evict` (the loop, lines
  77-80). `Evict` is a recursive function whose measure is the list length.
- `LruProperties` (`properties.dfy`): properties that relate several calls.
  These cover repeated lookups, evicted keys, unbounded mode over a run of
  additions, and update in place. It also has worked scenarios with a
  10-byte budget.

`Valid` states that list keys are distinct, that the index holds exactly the
listed keys, and that `nbytes` is the byte total of the list. `New`
establishes it; `Get`, `RemoveOldest` and `Add` require and preserve it.

A single entry larger than a set budget does not stay resident: the loop at
lru/lru.go:78-80 runs until the budget holds, so it evicts even the entry just
added and leaves the cache empty. `Add` and `EvictOversizedFront` state this
behaviour.

## Model

| member | source | states |
|---|---|---|
| Entries.IndexOf | lru/lru.go:36 | a key among the list's keys has an entry at the returned position, and no earlier entry holds it |
| Entries.DistinctKeysCount | lru/lru.go:84-86 | when keys are distinct, the number of keys equals the number of entries (so the list length and the index size agree) |
| Entries.RemoveAt | lru/lru.go:50 | removing the element at a position keeps the others in order, lowers the byte total by that entry's cost, and with distinct keys removes exactly that key |
| Entries.PushFront | lru/lru.go:72 | the new entry is in front of the unchanged list, the byte total and key set grow by it, and the result has distinct keys exactly when the key was not there |
| Entries.MoveToFront | lru/lru.go:38 | the chosen entry comes first, the rest equal the list with its key deleted (relative order kept), and keys and byte total are unchanged |
| Entries.RemoveAtIsDrop | lru/lru.go:38 | with distinct keys, removing the element at a key's position is the same as deleting that key from the list |
| Lru.New | lru/lru.go:25-31 | a new cache satisfies the invariant, is empty, counts zero bytes and keeps the given budget |
| Lru.Len | lru/lru.go:84-86 | the list length equals the number of keys in the index |
| Lru.Get | lru/lru.go:35-44 | a hit returns the stored value, moves that entry to the front, keeps the other entries in order and leaves index and counter alone; a miss returns nothing and leaves the state unchanged; the invariant is kept |
| Lru.RemoveOldest | lru/lru.go:47-61 | on an empty cache nothing changes and nothing is reported; otherwise exactly the last entry is removed from list and index, the counter drops by its cost, the other values stay, and that key with its value is reported once |
| Lru.Insert | lru/lru.go:64-75 | the key's entry ends up in front with the new length, the rest of the list is the old list without the key, the index maps the key to the new value; an existing key keeps the length and changes the counter by new minus old value length; a new key adds one entry and key plus value length |
| Lru.Refresh | lru/lru.go:66-70 | updating a resident key moves its entry to the front, keeps the entry count, stores the new value and changes the counter by the difference of the value lengths |
| Lru.Prepend | lru/lru.go:71-75 | adding a new key puts a new entry in front of the unchanged list and raises the counter by key length plus value length |
| Lru.Evict | lru/lru.go:77-80 | the loop terminates; afterwards a set budget holds; an unset budget evicts nothing; what is kept is a prefix of the list with unchanged values; the reports name the dropped suffix oldest first; and every longer prefix was over budget, so no more was evicted than needed |
| Lru.ReportsPrepend | lru/lru.go:57-59 | reporting the last entry and then the reports of the rest of the loop lists the dropped entries oldest first |
| Lru.EvictStepSuffix | lru/lru.go:78-79 | one round of the loop followed by the remaining rounds drops a suffix of the list and reports it oldest first |
| Lru.EvictStepOver | lru/lru.go:78 | when the loop runs a round, the whole list was over budget, so the "every longer prefix is over budget" fact carries from the shortened list to the whole list |
| Lru.Add | lru/lru.go:63-81 | the invariant is kept, a set budget holds afterwards, an unset budget evicts nothing, every longer prefix of the list after insertion was over budget (no more is evicted than needed), a surviving front entry is the added key with the new value, evictions are the oldest-first suffix of the list after insertion, and an entry that alone exceeds a set budget is evicted too, last, leaving the cache empty |
| Lru.AddKeepsOthers | lru/lru.go:64-81 | Add changes no other key's value and brings in no other key |
| Lru.EvictKeepsFront | lru/lru.go:77-80 | if eviction leaves anything, it keeps the front entry with its value |
| Lru.EvictOversizedFront | lru/lru.go:77-80 | a front entry that alone exceeds a set budget is evicted as well, reported last, and the list ends empty |
| LruProperties.AddAll | lru/lru.go:64-81 | any run of additions keeps the invariant and the budget value |
| LruProperties.GetHitIsIdempotent | lru/lru.go:36-40 | a second lookup of a key that was just found returns the same value and the same state |
| LruProperties.RemovedKeyMisses | lru/lru.go:48-52 | the key RemoveOldest removed is no longer found |
| LruProperties.EvictedKeysAreGone | lru/lru.go:50-58 | after Add, no reported key can be found and no key is reported twice |
| LruProperties.SuffixEvictionsGone | lru/lru.go:78-80 | when a suffix is evicted from a valid cache, the reported keys are distinct and none is left in the index |
| LruProperties.UnboundedKeepsAll | lru/lru.go:78 | with budget 0, adding new pairwise-distinct keys evicts nothing and adds one entry per key |
| LruProperties.FreshUnboundedHoldsAll | lru/lru.go:78 | adding N distinct keys to a new unbounded cache evicts nothing and gives Len N |
| LruProperties.UpdateInPlace | lru/lru.go:66-70 | adding a key twice keeps one entry, counts the key once plus only the second value length, and a lookup returns the second value |
| LruProperties.InsertFreshKey | lru/lru.go:72 | before eviction, a new key's entry is placed in front of the unchanged list |
| LruProperties.AddThatFitsEvictsNothing | lru/lru.go:78 | when the budget is unset or the insertion fits, Add is the insertion alone and reports nothing |
| LruProperties.AddFiveToSmall | lru/lru.go:71-80 | under budget 10, a new 5-byte entry added to at most one 5-byte entry goes in front and evicts nothing |
| LruProperties.AddFiveToFull | lru/lru.go:71-80 | under budget 10, a new 5-byte entry added to two 5-byte entries evicts exactly the older one and leaves 10 bytes |
| LruProperties.EvictOldestOfThree | lru/lru.go:78-80 | three 5-byte entries under budget 10: the loop evicts exactly the oldest |
| LruProperties.FirstFive | lru/lru.go:71-80 | adding A (5 bytes) to an empty cache with budget 10 gives the single entry A and evicts nothing |
| LruProperties.SecondFive | lru/lru.go:71-80 | adding B (5 bytes) to a cache holding only A gives B then A, 10 bytes, and evicts nothing |
| LruProperties.TwoFives | lru/lru.go:64-81 | adding A then B, 5 bytes each, under budget 10 evicts nothing and leaves B in front of A with both values |
| LruProperties.ThreeKeysScenario | lru/lru.go:64-81 | adding A, B, C (5 bytes each) under budget 10 evicts A alone on the third addition and keeps C in front of B |
| LruProperties.GetOlderOfTwo | lru/lru.go:36-40 | looking up the older of two entries swaps them and changes nothing else |
| LruProperties.HitRefreshesRecency | lru/lru.go:35-44 | after adding A and B and looking A up, adding C evicts B instead of A |
| LruProperties.AddAfterRefresh | lru/lru.go:77-80 | with A in front of B under budget 10, adding C reports B's eviction, keeps A and drops B |

## Left out

- The linked-element structure of Go's `container/list` (elements, `Back`, `Remove`, `PushFront`, `MoveToFront`) and its constant-time claims. The list is a sequence, and the index maps keys to values rather than to list elements.
- The `OnEvicted` callback as code. The model returns the reports the callback would receive, whether or not a callback is set. Code inside the callback, including re-entry into the cache, is not modelled.
- The `Value` interface's dynamic `Len()` call. The caller passes the length (`vlen`) to `Add`, and the entry records it. The code re-measures the stored value at lru/lru.go:55 and lru/lru.go:69; the model uses the length recorded at insertion, which is the same value only if `Len()` is stable.
- Nil values. `value.Len()` panics at lru/lru.go:69 or lru/lru.go:74, the latter after the entry has already been pushed and indexed; such panics are not modelled.
- A negative `maxBytes`. `Add` and `Evict` require `maxBytes >= 0`. With a negative budget the loop at lru/lru.go:78 never ends once the cache is empty.
- `int64` overflow of `nbytes` and the `int`-to-`int64` conversions. The counter is an unbounded integer.
- Concurrency. The type is not safe for concurrent access (lru/lru.go:5).
- Keys are byte sequences. A Go string's length is its byte count, so `len(key)` is the sequence length. Text encoding is not modelled.
- The zero `Value` returned with `ok == false` on a lookup miss. The model returns `None` instead.
