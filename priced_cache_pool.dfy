/**
 The pool as the source keeps it: an ordered index from priced keys to stacks of
 values, and a table from each key to its current price, both updated in place.
 Each method is proved to do to the pool's contents what the reference
 definitions in CacheSpec say, so the properties proved there hold of it.
 */
module CachePool {
  import opened PricedKeys
  import opened CacheSpec

  /** The index and the price table describe the same keys at the same prices. */
  ghost predicate IndexedBy<V>(pool: map<PricedKey, seq<V>>, prices: map<string, u64>) {
    && (forall pk :: pk in pool ==> pk.key in prices && prices[pk.key] == pk.price)
    && (forall k :: k in prices ==> PricedKey(k, prices[k]) in pool)
  }

  /** What the two structures hold together: each resident key's price and stack. */
  function View<V>(pool: map<PricedKey, seq<V>>, prices: map<string, u64>): (c: Cache<V>)
    requires IndexedBy(pool, prices)
    ensures c.Keys == prices.Keys
    ensures Index(c) == pool.Keys
  {
    var c := map k | k in prices :: Entry(prices[k], pool[PricedKey(k, prices[k])]);
    assert forall pk :: pk in pool ==> pk == PricedKey(pk.key, c[pk.key].price);
    c
  }

  /** The index has exactly one entry per key of the price table. */
  lemma PoolSize<V>(pool: map<PricedKey, seq<V>>, prices: map<string, u64>)
    requires IndexedBy(pool, prices)
    ensures |pool| == |prices|
  {
    var c := View(pool, prices);
    IndexSize(c);
    assert |pool.Keys| == |Index(c)|;
    assert |c.Keys| == |prices.Keys|;
  }

  /**
   Filing a resident key's stack s under price p, removing its old index entry
   and recording p in the table, sets that key's entry to (p, s) and nothing else.
   */
  lemma Refile<V>(pool: map<PricedKey, seq<V>>, prices: map<string, u64>, key: string, p: u64, s: seq<V>)
    requires IndexedBy(pool, prices) && key in prices
    ensures var pool' := (pool - {PricedKey(key, prices[key])})[PricedKey(key, p) := s];
            var prices' := prices[key := p];
            && IndexedBy(pool', prices')
            && View(pool', prices') == View(pool, prices)[key := Entry(p, s)]
  {
    var pool' := (pool - {PricedKey(key, prices[key])})[PricedKey(key, p) := s];
    var prices' := prices[key := p];
    assert IndexedBy(pool', prices');
    var c := View(pool, prices)[key := Entry(p, s)];
    forall k | k in prices'
      ensures View(pool', prices')[k] == c[k]
    {
      if k != key { assert PricedKey(k, prices[k]) != PricedKey(key, prices[key]); }
    }
  }

  /** Adding a new key to both structures adds its entry to the contents. */
  lemma AddKey<V>(pool: map<PricedKey, seq<V>>, prices: map<string, u64>, key: string, p: u64, s: seq<V>)
    requires IndexedBy(pool, prices) && key !in prices
    ensures PricedKey(key, p) !in pool
    ensures var pool' := pool[PricedKey(key, p) := s];
            var prices' := prices[key := p];
            && IndexedBy(pool', prices')
            && View(pool', prices') == View(pool, prices)[key := Entry(p, s)]
  {
    var pool' := pool[PricedKey(key, p) := s];
    var prices' := prices[key := p];
    assert IndexedBy(pool', prices');
    var c := View(pool, prices)[key := Entry(p, s)];
    forall k | k in prices'
      ensures View(pool', prices')[k] == c[k]
    {
    }
  }

  /** Removing a resident key's index entry and its price removes its entry from the contents. */
  lemma RemoveKey<V>(pool: map<PricedKey, seq<V>>, prices: map<string, u64>, m: PricedKey)
    requires IndexedBy(pool, prices) && m in pool
    ensures IndexedBy(pool - {m}, prices - {m.key})
    ensures View(pool - {m}, prices - {m.key}) == View(pool, prices) - {m.key}
  {
    var c := View(pool, prices) - {m.key};
    assert IndexedBy(pool - {m}, prices - {m.key});
    forall k | k in prices - {m.key}
      ensures View(pool - {m}, prices - {m.key})[k] == c[k]
    {
    }
  }

  /**
   TryPut on a resident key, as the index and the table see it: its stack is
   refiled under the new price, with the value pushed on top when the stack is
   below the limit; this is what Put does to the contents.
   */
  lemma ResidentPutRefines<V>(pool: map<PricedKey, seq<V>>, prices: map<string, u64>,
                              pool': map<PricedKey, seq<V>>, prices': map<string, u64>,
                              capacity: int, replicaLimit: int, key: string, value: V, newPrice: u64)
    requires IndexedBy(pool, prices) && Bounded(View(pool, prices), capacity, replicaLimit) && key in prices
    requires var values := pool[PricedKey(key, prices[key])];
             pool' == (pool - {PricedKey(key, prices[key])})[PricedKey(key, newPrice) :=
                                                             if |values| < replicaLimit then values + [value] else values]
    requires prices' == prices[key := newPrice]
    ensures IndexedBy(pool', prices') && Bounded(View(pool', prices'), capacity, replicaLimit)
    ensures var step := Put(View(pool, prices), capacity, replicaLimit, key, value, newPrice);
            && View(pool', prices') == step.cache
            && step.outcome == Returned(|pool[PricedKey(key, prices[key])]| < replicaLimit)
            && step.evicted == None
  {
    var c := View(pool, prices);
    var values := pool[PricedKey(key, prices[key])];
    var pushed := |values| < replicaLimit;
    Refile(pool, prices, key, newPrice, if pushed then values + [value] else values);
    ResidentBounded(c, capacity, replicaLimit, key, value, newPrice);
    assert Put(c, capacity, replicaLimit, key, value, newPrice) == PutResident(c, replicaLimit, key, value, newPrice);
  }

  /** TryPut of a new key with room: both structures gain the key, with a one-value stack. */
  lemma AdmitRefines<V>(pool: map<PricedKey, seq<V>>, prices: map<string, u64>,
                        pool': map<PricedKey, seq<V>>, prices': map<string, u64>,
                        capacity: int, replicaLimit: int, key: string, value: V, newPrice: u64)
    requires IndexedBy(pool, prices) && Bounded(View(pool, prices), capacity, replicaLimit)
    requires key !in prices && |pool| < capacity
    requires pool' == pool[PricedKey(key, newPrice) := [value]] && prices' == prices[key := newPrice]
    ensures IndexedBy(pool', prices') && Bounded(View(pool', prices'), capacity, replicaLimit)
    ensures var step := Put(View(pool, prices), capacity, replicaLimit, key, value, newPrice);
            View(pool', prices') == step.cache && step.outcome == Returned(true) && step.evicted == None
  {
    var c := View(pool, prices);
    PoolSize(pool, prices);
    AddKey(pool, prices, key, newPrice, [value]);
    AdmitBounded(c, capacity, replicaLimit, key, value, newPrice);
  }

  /** The first entry of the index belongs to the cheapest resident key. */
  lemma FirstIsCheapest<V>(pool: map<PricedKey, seq<V>>, prices: map<string, u64>)
    requires IndexedBy(pool, prices) && pool != map[]
    ensures var min := First(pool.Keys);
            var c := View(pool, prices);
            && min in pool && c != map[]
            && min.key == Cheapest(c)
            && c[min.key] == Entry(min.price, pool[min])
  {
    var c := View(pool, prices);
    var min := First(pool.Keys);
    assert min.key in c;
    var k := Cheapest(c);
    assert PricedKey(k, c[k].price) in pool;
  }

  /** Adding the new key and dropping the first entry's key is an admission into the rest. */
  lemma EvictView<V>(pool: map<PricedKey, seq<V>>, prices: map<string, u64>, min: PricedKey,
                     key: string, value: V, newPrice: u64)
    requires IndexedBy(pool, prices) && min in pool && key !in prices
    ensures var pool' := pool[PricedKey(key, newPrice) := [value]] - {min};
            var prices' := prices[key := newPrice] - {min.key};
            && IndexedBy(pool', prices')
            && View(pool', prices') == Admit(View(pool, prices) - {min.key}, key, value, newPrice)
  {
    var c := View(pool, prices);
    AddKey(pool, prices, key, newPrice, [value]);
    var pool1 := pool[PricedKey(key, newPrice) := [value]];
    var prices1 := prices[key := newPrice];
    RemoveKey(pool1, prices1, min);
    assert min.key != key;
    assert c[key := Entry(newPrice, [value])] - {min.key} == (c - {min.key})[key := Entry(newPrice, [value])];
  }

  /**
   TryPut of a new key into a full pool at a price above the first entry's:
   the key is added, then the first entry is removed from both structures, and
   its key, its stack (top first) and its price are what is notified.
   */
  lemma EvictRefines<V>(pool: map<PricedKey, seq<V>>, prices: map<string, u64>,
                        pool': map<PricedKey, seq<V>>, prices': map<string, u64>,
                        capacity: int, replicaLimit: int, key: string, value: V, newPrice: u64)
    requires IndexedBy(pool, prices) && Bounded(View(pool, prices), capacity, replicaLimit)
    requires key !in prices && |pool| >= capacity && pool != map[]
    requires newPrice > First(pool.Keys).price
    requires pool' == pool[PricedKey(key, newPrice) := [value]] - {First(pool.Keys)}
    requires prices' == prices[key := newPrice] - {First(pool.Keys).key}
    ensures IndexedBy(pool', prices') && Bounded(View(pool', prices'), capacity, replicaLimit)
    ensures var min := First(pool.Keys);
            var step := Put(View(pool, prices), capacity, replicaLimit, key, value, newPrice);
            && View(pool', prices') == step.cache
            && step.outcome == Returned(true)
            && step.evicted == Some(Eviction(min.key, Reverse(pool[min]), min.price))
  {
    var min := First(pool.Keys);
    PoolSize(pool, prices);
    FirstIsCheapest(pool, prices);
    EvictView(pool, prices, min, key, value, newPrice);
    PutEvicts(View(pool, prices), capacity, replicaLimit, key, value, newPrice);
  }

  /** TryPut of a new key into a full pool that it does not outbid, or that fails for lack of a first entry. */
  lemma RefuseRefines<V>(pool: map<PricedKey, seq<V>>, prices: map<string, u64>, capacity: int, replicaLimit: int,
                         key: string, value: V, newPrice: u64)
    requires IndexedBy(pool, prices)
    requires key !in prices && |pool| >= capacity
    requires pool != map[] ==> newPrice <= First(pool.Keys).price
    ensures var c := View(pool, prices);
            (Put(c, capacity, replicaLimit, key, value, newPrice)
             == PutStep(c, if pool == map[] then EmptyPoolFailure else Returned(false), None))
  {
    var c := View(pool, prices);
    PoolSize(pool, prices);
    if pool != map[] {
      var min := First(pool.Keys);
      assert min.key == Cheapest(c);
    } else {
      assert c == map[];
    }
  }

  /** TryTake of a resident key with a non-empty stack: the top is popped in place. */
  lemma TakeRefines<V>(pool: map<PricedKey, seq<V>>, prices: map<string, u64>, capacity: int, replicaLimit: int, key: string)
    requires IndexedBy(pool, prices) && Bounded(View(pool, prices), capacity, replicaLimit)
    requires key in prices && pool[PricedKey(key, prices[key])] != []
    ensures var pk := PricedKey(key, prices[key]);
            var values := pool[pk];
            var pool' := pool[pk := values[..|values| - 1]];
            var step := Take(View(pool, prices), key);
            && IndexedBy(pool', prices)
            && Bounded(View(pool', prices), capacity, replicaLimit)
            && View(pool', prices) == step.cache
            && step.taken == Some(values[|values| - 1])
  {
    var pk := PricedKey(key, prices[key]);
    var values := pool[pk];
    Refile(pool, prices, key, prices[key], values[..|values| - 1]);
    assert (pool - {pk})[pk := values[..|values| - 1]] == pool[pk := values[..|values| - 1]];
    assert prices[key := prices[key]] == prices;
    TakeBounded(View(pool, prices), capacity, replicaLimit, key);
  }

  class PricedCachePool<V> {
    const capacity: int
    const replicaLimit: int
    /** The ordered index: priced keys, ordered by Compare, to their value stacks (top last). */
    var pool: map<PricedKey, seq<V>>
    /** Each resident key's current price. */
    var prices: map<string, u64>
    /** The eviction notifications delivered so far, in order. */
    var evictions: seq<Eviction<V>>

    ghost predicate Valid()
      reads this
    {
      IndexedBy(pool, prices) && Bounded(View(pool, prices), capacity, replicaLimit)
    }

    /** The pool's contents: each resident key's price and stack. */
    function Contents(): (c: Cache<V>)
      reads this
      requires Valid()
    {
      View(pool, prices)
    }

    constructor (capacity: int, replicaLimit: int)
      ensures Valid()
      ensures this.capacity == capacity && this.replicaLimit == replicaLimit
      ensures Contents() == map[] && evictions == []
    {
      this.capacity := capacity;
      this.replicaLimit := replicaLimit;
      pool := map[];
      prices := map[];
      evictions := [];
    }

    /** The number of resident keys, which never exceeds the capacity. */
    function Count(): (n: int)
      reads this
      requires Valid()
      ensures n == |prices| == |Contents()|
      ensures 0 <= n <= Max(capacity, 0)
    {
      PoolSize(pool, prices);
      |pool|
    }

    /**
     Offers value for key at newPrice. A resident key is refiled under the new
     price and pushed onto if its stack has room; a new key is admitted if there
     is room or if it outbids the first entry of the index, which is then
     evicted and notified. A new key and no room on an empty pool fails, as
     taking the first entry of an empty index does.
     */
    method TryPut(key: string, value: V, newPrice: u64) returns (r: PutOutcome)
      requires Valid()
      modifies this`pool, this`prices, this`evictions
      ensures Valid()
      ensures var step := Put(old(Contents()), capacity, replicaLimit, key, value, newPrice);
              && r == step.outcome
              && Contents() == step.cache
              && (step.evicted.None? ==> evictions == old(evictions))
              && (step.evicted.Some? ==> evictions == old(evictions) + [step.evicted.value])
    {
      if key in prices {
        r := TryPutResident(key, value, newPrice);
      } else {
        r := TryPutNew(key, value, newPrice);
      }
    }

    /** TryPut on a resident key: refile under the new price, then push if the stack has room. */
    method TryPutResident(key: string, value: V, newPrice: u64) returns (r: PutOutcome)
      requires Valid() && key in prices
      modifies this`pool, this`prices
      ensures Valid()
      ensures var step := Put(old(Contents()), capacity, replicaLimit, key, value, newPrice);
              r == step.outcome && Contents() == step.cache && step.evicted == None
    {
      ghost var pool0, prices0 := pool, prices;
      var oldPrice := prices[key];
      var pricedKey := PricedKey(key, oldPrice);
      var values := pool[pricedKey];
      if oldPrice != newPrice {
        prices := prices[key := newPrice];
        pool := pool - {pricedKey};
        pricedKey := pricedKey.(price := newPrice);
        pool := pool[pricedKey := values];
      } else {
        assert pool == (pool0 - {pricedKey})[pricedKey := values];
        assert prices == prices0[key := newPrice];
      }
      if |values| < replicaLimit {
        // the stack is shared with the index, so the push lands under the new priced key
        pool := pool[pricedKey := values + [value]];
        ResidentPutRefines(pool0, prices0, pool, prices, capacity, replicaLimit, key, value, newPrice);
        return Returned(true);
      }
      ResidentPutRefines(pool0, prices0, pool, prices, capacity, replicaLimit, key, value, newPrice);
      return Returned(false);
    }

    /** TryPut on a key that is not resident: admit it if there is room or it outbids the first entry. */
    method TryPutNew(key: string, value: V, newPrice: u64) returns (r: PutOutcome)
      requires Valid() && key !in prices
      modifies this`pool, this`prices, this`evictions
      ensures Valid()
      ensures var step := Put(old(Contents()), capacity, replicaLimit, key, value, newPrice);
              && r == step.outcome
              && Contents() == step.cache
              && (step.evicted.None? ==> evictions == old(evictions))
              && (step.evicted.Some? ==> evictions == old(evictions) + [step.evicted.value])
    {
      ghost var pool0, prices0 := pool, prices;
      var shouldAdd := false;
      var shouldEvict := false;
      var min := PricedKey([], 0);
      var minValues := [];
      if capacity > |pool| {
        shouldAdd := true;
      } else {
        if pool == map[] {
          RefuseRefines(pool, prices, capacity, replicaLimit, key, value, newPrice);
          return EmptyPoolFailure;
        }
        min := First(pool.Keys);
        minValues := pool[min];
        if newPrice > min.price {
          shouldEvict := true;
          shouldAdd := true;
        }
      }

      if shouldAdd {
        pool := pool[PricedKey(key, newPrice) := [value]];
        prices := prices[key := newPrice];
      }

      if shouldEvict {
        pool := pool - {min};
        prices := prices - {min.key};
        evictions := evictions + [Eviction(min.key, Reverse(minValues), min.price)];
        EvictRefines(pool0, prices0, pool, prices, capacity, replicaLimit, key, value, newPrice);
      } else if shouldAdd {
        AdmitRefines(pool0, prices0, pool, prices, capacity, replicaLimit, key, value, newPrice);
      } else {
        RefuseRefines(pool, prices, capacity, replicaLimit, key, value, newPrice);
      }
      return Returned(shouldAdd);
    }

    /**
     Takes the most recently put value of key, if key is resident and its stack
     is not empty. The key stays resident even when its stack becomes empty.
     */
    method TryTake(key: string) returns (taken: Option<V>)
      requires Valid()
      modifies this`pool
      ensures Valid()
      ensures var step := Take(old(Contents()), key);
              taken == step.taken && Contents() == step.cache
    {
      if key in prices {
        var pricedKey := PricedKey(key, prices[key]);
        var values := pool[pricedKey];
        if |values| > 0 {
          TakeRefines(pool, prices, capacity, replicaLimit, key);
          taken := Some(values[|values| - 1]);
          pool := pool[pricedKey := values[..|values| - 1]];
          return;
        }
      }
      taken := None;
    }
  }
}
