# Priced cache pool

A Dafny model of `PricedCachePool<TKey, TValue>`. This is a bounded cache that
keeps a LIFO stack of values for each key, together with that key's current price.
When the pool is full, a new key that bids more than the cheapest resident key
takes that key's slot. The evicted key, its values and its price are reported
through the `OnEvict` event.

The model has four modules:

- `PricedKeys` (`priced_key.dfy`) holds the sort key of the price index.
  - A key is paired with its price. Pairs are ordered by price first and then by key.
  - This is a strict total order whose "equal" is equality.
  - `First` is the least element of a non-empty finite set under this order.
    That is what `_pool.First()` returns from the `SortedDictionary`.
- `CacheSpec` (`cache_spec.dfy`) views the pool as one value: a map from each
  resident key to its price and its stack, with the top of the stack last.
  - `Put` is the reference definition of one `TryPut`, and `Take` of one `TryTake`.
  - `Run` replays a sequence of calls.
  - The lemmas state the pool's laws: the capacity and replica bounds, which key
    an eviction takes, LIFO order, the replica limit over a run of puts, and
    put-then-take.
- `CachePool` (`priced_cache_pool.dfy`) holds the class as the source writes it.
  - The class has two map fields, updated in place: the ordered index `pool`
    (priced key to stack) and the price table `prices`.
  - Each method is proved to do to the pool's contents exactly what `Put` or
    `Take` says. As a result, it keeps the invariant `Valid()`: the two maps
    describe the same keys at the same prices, within the bounds.
  - `OnEvict` notifications are kept in an `evictions` log field.
- `PoolDriver` (`pool_driver.dfy`) replays the repository's exercise. That is
  one take and nine puts on a pool of capacity 5 and replica limit 2. The
  replay proves the three evictions, their order and the final contents.

Where the code and its description differ, the model follows the code:

- A new key is admitted with a one-value stack whatever the replica limit is.
  So stacks are bounded by `max(replicaLimit, 1)`, not by `replicaLimit`
  (`CacheSpec.Bounded`).
- With a capacity of zero or less, a put of a new key calls `First()` on an
  empty index, which throws. The model returns the outcome `EmptyPoolFailure`
  and changes nothing. It does not return `false`.
- The eviction candidate is the first entry of the index: the lowest price,
  with ties broken by key order. The evicted key's price is therefore the
  smallest, but it need not be strictly smaller than every other price.

## Model

| member | source | states |
|---|---|---|
| PricedKeys.Compare | ConsoleApplication/ConsoleApplication/Dictionary/PricedCachePool.cs:34-40 | a lower price orders first, a higher price last; equal prices fall through to the key comparison |
| PricedKeys.CompareKeys | ConsoleApplication/ConsoleApplication/Dictionary/PricedCachePool.cs:39 | the key comparer returns -1, 0 or 1, and 0 only for keys of equal length |
| PricedKeys.CompareKeysZero | ConsoleApplication/ConsoleApplication/Dictionary/PricedCachePool.cs:39 | the key comparer returns 0 exactly when the keys are equal |
| PricedKeys.CompareKeysAntisymmetric | ConsoleApplication/ConsoleApplication/Dictionary/PricedCachePool.cs:39 | swapping the keys negates the comparison |
| PricedKeys.CompareKeysTransitive | ConsoleApplication/ConsoleApplication/Dictionary/PricedCachePool.cs:39 | the key order is transitive |
| PricedKeys.CompareIsEquality | ConsoleApplication/ConsoleApplication/Dictionary/PricedCachePool.cs:34-40 | two priced keys compare equal exactly when key and price are both equal, so distinct resident keys never share an index entry |
| PricedKeys.CompareAntisymmetric | ConsoleApplication/ConsoleApplication/Dictionary/PricedCachePool.cs:34-40 | swapping the priced keys negates the comparison |
| PricedKeys.CompareTransitive | ConsoleApplication/ConsoleApplication/Dictionary/PricedCachePool.cs:34-40 | the index order is transitive |
| PricedKeys.Trichotomy | ConsoleApplication/ConsoleApplication/Dictionary/PricedCachePool.cs:34-40 | of two distinct priced keys, exactly one orders before the other |
| PricedKeys.FirstExists | ConsoleApplication/ConsoleApplication/Dictionary/PricedCachePool.cs:106 | every non-empty index has a first entry |
| PricedKeys.FirstUnique | ConsoleApplication/ConsoleApplication/Dictionary/PricedCachePool.cs:106 | the first entry is unique |
| PricedKeys.First | ConsoleApplication/ConsoleApplication/Dictionary/PricedCachePool.cs:106 | `_pool.First()`: an element of the index with the lowest price, and among equal prices the least key |
| CacheSpec.Bounded | ConsoleApplication/ConsoleApplication/Dictionary/PricedCachePool.cs:99-132 | defines the bounds the pool keeps: at most max(capacity, 0) resident keys, and no stack longer than max(replica limit, 1), because admission always seeds one value |
| CacheSpec.Index | ConsoleApplication/ConsoleApplication/Dictionary/PricedCachePool.cs:45-46 | the index of a cache holds exactly one (key, current price) per resident key |
| CacheSpec.IndexSize | ConsoleApplication/ConsoleApplication/Dictionary/PricedCachePool.cs:52 | the index has as many entries as there are resident keys |
| CacheSpec.IsCheapest | ConsoleApplication/ConsoleApplication/Dictionary/PricedCachePool.cs:106 | defines the candidate `_pool.First()` names: a resident key whose price no resident undercuts, and which orders before every other resident at that price |
| CacheSpec.Cheapest | ConsoleApplication/ConsoleApplication/Dictionary/PricedCachePool.cs:106 | the eviction candidate is resident, no resident key is cheaper, and it precedes every other key at its price |
| CacheSpec.CheapestUnique | ConsoleApplication/ConsoleApplication/Dictionary/PricedCachePool.cs:106 | only one key meets that description, so the candidate is determined |
| CacheSpec.Reverse | ConsoleApplication/ConsoleApplication/Dictionary/PricedCachePool.cs:127-131 | the values that OnEvict enumerates are the stack top first: same length, i-th from the top |
| CacheSpec.PutResident | ConsoleApplication/ConsoleApplication/Dictionary/PricedCachePool.cs:72-92 | a resident key is refiled at the new price whether or not the push succeeds; the value is pushed exactly when the stack is below the limit, and the result says which; nothing is evicted and no other key changes |
| CacheSpec.Admit | ConsoleApplication/ConsoleApplication/Dictionary/PricedCachePool.cs:118-122 | defines admission of a new key: its entry is the new price and a stack holding only the value, whatever the replica limit; every other entry is kept |
| CacheSpec.PutFull | ConsoleApplication/ConsoleApplication/Dictionary/PricedCachePool.cs:104-134 | a new key offered to a full, non-empty pool is stored exactly when some resident is cheaper. It then evicts the cheapest resident (price below the new one, values top first) and admits the key with a one-value stack, keeping the count. Otherwise nothing changes |
| CacheSpec.Put | ConsoleApplication/ConsoleApplication/Dictionary/PricedCachePool.cs:69-135 | an eviction happens exactly when a new key is stored into a full pool; it takes the cheapest resident, which then is gone; the put fails only for a new key with no room and an empty pool, changing nothing |
| CacheSpec.PutBounded | ConsoleApplication/ConsoleApplication/Dictionary/PricedCachePool.cs:86-132 | every put keeps the key count within the capacity and each stack within max(replica limit, 1) |
| CacheSpec.ResidentBounded | ConsoleApplication/ConsoleApplication/Dictionary/PricedCachePool.cs:72-92 | a put on a resident key keeps the bounds |
| CacheSpec.AdmitBounded | ConsoleApplication/ConsoleApplication/Dictionary/PricedCachePool.cs:116-123 | admitting one key with a one-value stack into room keeps the bounds |
| CacheSpec.PutEvicts | ConsoleApplication/ConsoleApplication/Dictionary/PricedCachePool.cs:104-132 | a new key outbidding the cheapest resident of a full pool evicts that resident, with its stack top first and its price, and is admitted; the bounds hold afterwards |
| CacheSpec.PutRejects | ConsoleApplication/ConsoleApplication/Dictionary/PricedCachePool.cs:104-134 | a new key offered to a full pool at no more than every resident's price is refused and nothing changes |
| CacheSpec.PutAdmits | ConsoleApplication/ConsoleApplication/Dictionary/PricedCachePool.cs:99-123 | a new key offered to a pool with room is stored with a one-value stack at its price, the result is true, and nothing is evicted |
| CacheSpec.PutReplaces | ConsoleApplication/ConsoleApplication/Dictionary/PricedCachePool.cs:104-132 | a new key outbidding the cheapest resident m of a full pool replaces m, the result is true, and m is notified with its values top first and its price |
| CacheSpec.PutPushes | ConsoleApplication/ConsoleApplication/Dictionary/PricedCachePool.cs:72-92 | a resident key whose stack is below the limit is refiled at the new price with the value on top, the result is true, and nothing is evicted |
| CacheSpec.Take | ConsoleApplication/ConsoleApplication/Dictionary/PricedCachePool.cs:143-159 | a value is taken exactly when the key is resident with a non-empty stack; it is the top, and the rest of the stack stays at the same price; otherwise nothing changes; the resident keys never change |
| CacheSpec.TakeBounded | ConsoleApplication/ConsoleApplication/Dictionary/PricedCachePool.cs:143-159 | a take keeps the bounds |
| CacheSpec.PushThenTake | ConsoleApplication/ConsoleApplication/Dictionary/PricedCachePool.cs:143-156 | popping a stack whose top was just pushed gives that value back and leaves the stack below it |
| CacheSpec.PutThenTake | ConsoleApplication/ConsoleApplication/Dictionary/PricedCachePool.cs:86-155 | a take right after a successful put returns the value put and restores the key's previous stack (empty for a newly admitted key), at the new price |
| CacheSpec.Step | ConsoleApplication/ConsoleApplication/Dictionary/PricedCachePool.cs:69-159 | one call gives one reply and at most one notification |
| CacheSpec.Run | ConsoleApplication/ConsoleApplication/Dictionary/PricedCachePool.cs:69-159 | a sequence of calls gives one reply per call and no more notifications than calls |
| CacheSpec.RunBounded | ConsoleApplication/ConsoleApplication/Dictionary/PricedCachePool.cs:52-132 | over any sequence of calls, a pool that starts within its bounds never holds more keys than its capacity nor a stack longer than max(replica limit, 1) |
| CacheSpec.LifoLaw | ConsoleApplication/ConsoleApplication/Dictionary/PricedCachePool.cs:86-156 | after v1 then v2 are put under a newly admitted key, takes yield v2, then v1, then nothing; the drained key stays resident with an empty stack |
| CacheSpec.PushOps | ConsoleApplication/ConsoleApplication/Dictionary/PricedCachePool.cs:69 | the run of puts of the given values under one key and price, in order |
| CacheSpec.Stored | ConsoleApplication/ConsoleApplication/Dictionary/PricedCachePool.cs:86 | how many of a run of pushes fit under the limit, never more than the run |
| CacheSpec.RepeatedPushes | ConsoleApplication/ConsoleApplication/Dictionary/PricedCachePool.cs:72-92 | in a run of puts under a resident key, the i-th succeeds exactly when the stack length plus i is below the limit. The stack grows by the values that got in, in order, and the key ends at the new price. Nothing is evicted and no other key changes |
| CacheSpec.PushReply | ConsoleApplication/ConsoleApplication/Dictionary/PricedCachePool.cs:86-92 | the reply to the i-th put of such a run |
| CacheSpec.PushFrame | ConsoleApplication/ConsoleApplication/Dictionary/PricedCachePool.cs:72-92 | such a run evicts nothing and touches no other key |
| CacheSpec.PushStack | ConsoleApplication/ConsoleApplication/Dictionary/PricedCachePool.cs:72-92 | the stack and the price such a run leaves behind |
| CacheSpec.StackAfterPushes | ConsoleApplication/ConsoleApplication/Dictionary/PricedCachePool.cs:86-89 | one push followed by the rest of the run adds up to the whole run |
| CachePool.IndexedBy | ConsoleApplication/ConsoleApplication/Dictionary/PricedCachePool.cs:45-46 | defines the agreement of the two maps: every index entry is filed under its key's current price in the price table, and every key of the table has an index entry at that price, so each resident key has exactly one |
| CachePool.View | ConsoleApplication/ConsoleApplication/Dictionary/PricedCachePool.cs:45-46 | the contents of the index and price table: the table's keys, and an index equal to the contents' index |
| CachePool.PoolSize | ConsoleApplication/ConsoleApplication/Dictionary/PricedCachePool.cs:52 | the index has one entry per key of the price table, so `_pool.Count` counts resident keys |
| CachePool.Refile | ConsoleApplication/ConsoleApplication/Dictionary/PricedCachePool.cs:77-84 | removing a key's index entry, re-adding its stack under a new price and recording that price keeps the two maps consistent and changes only that key's entry |
| CachePool.AddKey | ConsoleApplication/ConsoleApplication/Dictionary/PricedCachePool.cs:116-123 | adding a new key to the index and the table keeps them consistent and adds exactly its entry |
| CachePool.RemoveKey | ConsoleApplication/ConsoleApplication/Dictionary/PricedCachePool.cs:127-130 | removing an index entry and its key's price keeps them consistent and removes exactly that key |
| CachePool.ResidentPutRefines | ConsoleApplication/ConsoleApplication/Dictionary/PricedCachePool.cs:72-92 | the source's reprice-then-push on the two maps is what `Put` does to the contents, and it keeps the invariant |
| CachePool.AdmitRefines | ConsoleApplication/ConsoleApplication/Dictionary/PricedCachePool.cs:99-123 | admission into room on the two maps is what `Put` does |
| CachePool.FirstIsCheapest | ConsoleApplication/ConsoleApplication/Dictionary/PricedCachePool.cs:106 | the first index entry belongs to the cheapest resident key and carries its price and stack |
| CachePool.EvictView | ConsoleApplication/ConsoleApplication/Dictionary/PricedCachePool.cs:116-130 | adding the new key and then removing the first entry is an admission into the rest of the pool |
| CachePool.EvictRefines | ConsoleApplication/ConsoleApplication/Dictionary/PricedCachePool.cs:104-132 | add-then-evict on the two maps is what `Put` does, and the notification carries the first entry's key, stack top first, and price |
| CachePool.RefuseRefines | ConsoleApplication/ConsoleApplication/Dictionary/PricedCachePool.cs:104-134 | a refused put (or a failing one on an empty index) is what `Put` says and changes nothing |
| CachePool.TakeRefines | ConsoleApplication/ConsoleApplication/Dictionary/PricedCachePool.cs:143-155 | popping the stack in place is what `Take` does, and it keeps the invariant |
| CachePool.PricedCachePool.Valid | ConsoleApplication/ConsoleApplication/Dictionary/PricedCachePool.cs:43-46 | defines the class invariant every method keeps: the index and the price table agree, and the contents are within the capacity and replica bounds |
| CachePool.PricedCachePool.constructor | ConsoleApplication/ConsoleApplication/Dictionary/PricedCachePool.cs:54-60 | a new pool is empty, keeps its configuration and has notified nothing |
| CachePool.PricedCachePool.Count | ConsoleApplication/ConsoleApplication/Dictionary/PricedCachePool.cs:52 | the count is the number of resident keys, between 0 and the capacity |
| CachePool.PricedCachePool.TryPut | ConsoleApplication/ConsoleApplication/Dictionary/PricedCachePool.cs:69-135 | the outcome and the new contents are those of `Put` on the old contents; the eviction, if any, is appended to the log; the invariant is kept |
| CachePool.PricedCachePool.TryPutResident | ConsoleApplication/ConsoleApplication/Dictionary/PricedCachePool.cs:72-92 | the resident-key branch of TryPut does what `Put` does and notifies nothing |
| CachePool.PricedCachePool.TryPutNew | ConsoleApplication/ConsoleApplication/Dictionary/PricedCachePool.cs:95-134 | the new-key branch of TryPut does what `Put` does and logs its eviction after updating both maps |
| CachePool.PricedCachePool.TryTake | ConsoleApplication/ConsoleApplication/Dictionary/PricedCachePool.cs:143-159 | the value and the new contents are those of `Take` on the old contents; the invariant is kept |
| PoolDriver.FullCheapest | ConsoleApplication/ConsoleApplication/Dictionary/PricedCachePool_Test.cs:20-24 | of "3" and "7", both at price 1, "3" is the eviction candidate |
| PoolDriver.TakeMissing | ConsoleApplication/ConsoleApplication/Dictionary/PricedCachePool_Test.cs:17 | a take of a key never put returns nothing and changes nothing |
| PoolDriver.Fill | ConsoleApplication/ConsoleApplication/Dictionary/PricedCachePool_Test.cs:19-23 | the first five puts are stored and fill the pool with the five keys at their prices |
| PoolDriver.PutSix | ConsoleApplication/ConsoleApplication/Dictionary/PricedCachePool_Test.cs:24 | ("6", "f", 3) is stored and evicts "3" with ["c"] at price 1 |
| PoolDriver.PutOne | ConsoleApplication/ConsoleApplication/Dictionary/PricedCachePool_Test.cs:26 | ("1", "aa", 10) is stored and evicts "7" with ["a"] at price 1 |
| PoolDriver.PutTwo | ConsoleApplication/ConsoleApplication/Dictionary/PricedCachePool_Test.cs:27 | ("2", "bb", 20) refiles "2" at 20 and stores "bb" above "b" |
| PoolDriver.PutThree | ConsoleApplication/ConsoleApplication/Dictionary/PricedCachePool_Test.cs:28 | ("3", "cc", 30) is stored and evicts "6" with ["f"] at price 3 |
| PoolDriver.Scenario | ConsoleApplication/ConsoleApplication/Dictionary/PricedCachePool_Test.cs:11-28 | the whole exercise ends with 5 resident keys, exactly "2" at 20 with ["b", "bb"], "5" at 5 with ["e"], "4" at 4 with ["d"], "1" at 10 with ["aa"] and "3" at 30 with ["cc"], after notifying exactly ("3", ["c"], 1), ("7", ["a"], 1) and ("6", ["f"], 3), in that order |

## Left out

- `OnEvict` subscribers are foreign delegates, so they are not modelled. The model appends the notification they would receive to the `evictions` log, after both maps are updated, as the source invokes them.
- `Comparer<TKey>.Default` for strings is culture-sensitive in .NET. It is replaced by ordinal order on characters (`PricedKeys.CompareKeys`). Keys are fixed to `string`. The driver's one-digit keys compare the same under either order. In .NET the culture comparer can return 0 for two strings that the price table treats as different keys. Two such keys at one price then collide in the index: `_pool.Add` throws, either at PricedCachePool.cs:121 or at PricedCachePool.cs:83 after lines 79-80 have already run, and in the second case the two maps are left disagreeing. The ordinal order makes distinct keys compare unequal, so the model cannot show this.
- The internals of `SortedDictionary`, `Dictionary`, `Stack` and LINQ `First()` are not modelled. They become a map keyed by the priced key, a map from key to price, a sequence with the top last, and the least element of a finite set.
- The shared `Stack` reference is not modelled as aliasing. After a reprice, the source pushes onto the same stack object, which is now filed under the new priced key. The model writes the pushed stack back under the new priced key.
- `_poolCapacity`, `_replicaLimit` and `Count` are 32-bit `int` in the source and unbounded `int` here. They are only compared, and the count never exceeds the capacity, so no overflow can arise.
- The exception `First()` throws on an empty index is modelled as the outcome `EmptyPoolFailure`, with the state unchanged. Exception propagation itself is not modelled.
- `CachePool.PricedCachePool.TryPut` is split into `TryPutResident` (the `_prices.TryGetValue` branch) and `TryPutNew` (the rest), and dispatches to them. The statements inside each are the source's, in its order.
- ConsoleApplication/ConsoleApplication/Inherit/InheritConstructor.cs is not part of this model. It only demonstrates constructor chaining and writes to the console.
- The `ITest` harness is not part of this model. Only its call sequence is replayed (`PoolDriver.Scenario`).
- `PoolDriver.Fill` returns only the last of its five outcomes. Each of the five is proved to be `Returned(true)` by `PoolDriver.AdmitPut`.
