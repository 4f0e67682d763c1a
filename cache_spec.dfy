/**
 The priced cache pool seen as one value: a map from each resident key to its
 price and its stack of values. Put and Take are the reference definitions of
 what one TryPut and one TryTake do to that value; Run replays a sequence of
 calls. The class in priced_cache_pool.dfy is proved to follow them.
 */
module CacheSpec {
  import opened PricedKeys

  datatype Option<T> = None | Some(value: T)

  /** A resident key's current price and its stack of values (the top is last). */
  datatype Entry<V> = Entry(price: u64, stack: seq<V>)

  type Cache<V> = map<string, Entry<V>>

  /** What an eviction notification carries: the key, its values (top first), its price. */
  datatype Eviction<V> = Eviction(key: string, values: seq<V>, price: u64)

  /**
   What TryPut does for its caller: it returns whether the value was stored, or
   it fails, as enumerating the first entry of an empty index does.
   */
  datatype PutOutcome = Returned(stored: bool) | EmptyPoolFailure

  datatype PutStep<V> = PutStep(cache: Cache<V>, outcome: PutOutcome, evicted: Option<Eviction<V>>)

  datatype TakeStep<V> = TakeStep(cache: Cache<V>, taken: Option<V>)

  function Max(a: int, b: int): (m: int)
    ensures a <= m && b <= m
    ensures m == a || m == b
  {
    if a < b then b else a
  }

  /**
   The bounds the pool keeps: no more keys than the capacity allows, and no
   stack longer than the replica limit, except that admission always seeds a
   new key's stack with one value.
   */
  predicate Bounded<V>(c: Cache<V>, capacity: int, replicaLimit: int) {
    && |c| <= Max(capacity, 0)
    && forall k :: k in c ==> |c[k].stack| <= Max(replicaLimit, 1)
  }

  /** The price index of a cache: one priced key per resident key. */
  function Index<V>(c: Cache<V>): (s: set<PricedKey>)
    ensures forall k :: k in c ==> PricedKey(k, c[k].price) in s
    ensures forall pk :: pk in s ==> pk.key in c && c[pk.key].price == pk.price
  {
    set k | k in c :: PricedKey(k, c[k].price)
  }

  /** Distinct resident keys have distinct priced keys, so the index has one entry per key. */
  lemma {:induction false} IndexSize<V>(c: Cache<V>)
    ensures |Index(c)| == |c|
    decreases |c|
  {
    if c != map[] {
      var k :| k in c;
      var rest := c - {k};
      IndexSize(rest);
      forall pk | pk in Index(c)
        ensures pk in Index(rest) + {PricedKey(k, c[k].price)}
      {
        if pk.key != k { assert pk.key in rest; }
      }
      assert Index(c) == Index(rest) + {PricedKey(k, c[k].price)};
      assert PricedKey(k, c[k].price) !in Index(rest);
      assert |c| == |rest| + 1;
    }
  }

  /** k is the resident key filed first in the index: lowest price, ties by key order. */
  predicate IsCheapest<V>(k: string, c: Cache<V>) {
    && k in c
    && (forall j :: j in c ==> c[k].price <= c[j].price)
    && (forall j :: j in c && j != k && c[j].price == c[k].price ==> CompareKeys(k, j) < 0)
  }

  /** The eviction candidate: the key of the first entry of the index. */
  function Cheapest<V>(c: Cache<V>): (k: string)
    requires c != map[]
    ensures IsCheapest(k, c)
  {
    First(Index(c)).key
  }

  /** The eviction candidate is well defined: only one resident key is filed first. */
  lemma CheapestUnique<V>(k: string, c: Cache<V>)
    requires IsCheapest(k, c)
    ensures Cheapest(c) == k
  {
    var m := Cheapest(c);
    if m != k {
      CompareKeysAntisymmetric(m, k);
    }
  }

  /** A stack's values in the order enumerating it yields them: top first. */
  function Reverse<V>(s: seq<V>): (r: seq<V>)
    ensures |r| == |s|
    ensures forall i :: 0 <= i < |s| ==> r[i] == s[|s| - 1 - i]
  {
    if s == [] then [] else [s[|s| - 1]] + Reverse(s[..|s| - 1])
  }

  /**
   TryPut on a resident key: the key is refiled under the new price whether or
   not the push succeeds, and the value is pushed onto its stack exactly when
   the stack is below the replica limit. No other key is touched.
   */
  function PutResident<V>(c: Cache<V>, replicaLimit: int, key: string, value: V, newPrice: u64): (r: PutStep<V>)
    requires key in c
    ensures r.evicted == None
    ensures r.cache.Keys == c.Keys
    ensures r.cache[key].price == newPrice
    ensures r.outcome == Returned(|c[key].stack| < replicaLimit)
    ensures r.cache[key].stack == if r.outcome.stored then c[key].stack + [value] else c[key].stack
    ensures forall j :: j in c && j != key ==> r.cache[j] == c[j]
  {
    var stack := c[key].stack;
    if |stack| < replicaLimit then PutStep(c[key := Entry(newPrice, stack + [value])], Returned(true), None)
    else PutStep(c[key := Entry(newPrice, stack)], Returned(false), None)
  }

  /** Admission of a new key: a stack holding just the value, whatever the replica limit. */
  function Admit<V>(c: Cache<V>, key: string, value: V, newPrice: u64): (r: Cache<V>)
    requires key !in c
  {
    c[key := Entry(newPrice, [value])]
  }

  /**
   TryPut of a new key into a full, non-empty pool: the new key gets in exactly
   when its price is above the price of the cheapest resident, which is then
   evicted; otherwise nothing changes and the put is refused.
   */
  function PutFull<V>(c: Cache<V>, key: string, value: V, newPrice: u64): (r: PutStep<V>)
    requires key !in c && c != map[]
    ensures r.outcome.Returned?
    ensures r.outcome.stored <==> exists j :: j in c && c[j].price < newPrice
    ensures r.evicted.Some? <==> r.outcome.stored
    ensures !r.outcome.stored ==> r.cache == c
    ensures r.evicted.Some? ==>
      var e := r.evicted.value;
      && IsCheapest(e.key, c)
      && e.price == c[e.key].price < newPrice
      && e.values == Reverse(c[e.key].stack)
      && r.cache == Admit(c - {e.key}, key, value, newPrice)
      && |r.cache| == |c|
  {
    var m := Cheapest(c);
    if newPrice > c[m].price then
      assert |c - {m}| == |c| - 1;
      PutStep(Admit(c - {m}, key, value, newPrice), Returned(true), Some(Eviction(m, Reverse(c[m].stack), c[m].price)))
    else
      PutStep(c, Returned(false), None)
  }

  /** One TryPut(key, value, newPrice) on a pool of the given capacity and replica limit. */
  function Put<V>(c: Cache<V>, capacity: int, replicaLimit: int, key: string, value: V, newPrice: u64): (r: PutStep<V>)
    // an eviction happens only to admit a new key into a full pool, and takes the cheapest resident
    ensures r.evicted.Some? <==> key !in c && |c| >= capacity && r.outcome == Returned(true)
    ensures r.evicted.Some? ==> IsCheapest(r.evicted.value.key, c) && r.evicted.value.key !in r.cache
    // the pool fails only when asked to admit a key with no room and nothing to evict
    ensures r.outcome == EmptyPoolFailure <==> key !in c && |c| >= capacity && c == map[]
    ensures r.outcome == EmptyPoolFailure ==> r.cache == c
  {
    if key in c then PutResident(c, replicaLimit, key, value, newPrice)
    else if |c| < capacity then PutStep(Admit(c, key, value, newPrice), Returned(true), None)
    else if c == map[] then PutStep(c, EmptyPoolFailure, None)
    else PutFull(c, key, value, newPrice)
  }

  /** TryPut keeps the pool within its capacity and its stacks within the replica limit. */
  lemma PutBounded<V>(c: Cache<V>, capacity: int, replicaLimit: int, key: string, value: V, newPrice: u64)
    requires Bounded(c, capacity, replicaLimit)
    ensures Bounded(Put(c, capacity, replicaLimit, key, value, newPrice).cache, capacity, replicaLimit)
  {
    if key in c {
      ResidentBounded(c, capacity, replicaLimit, key, value, newPrice);
    } else if |c| < capacity {
      AdmitBounded(c, capacity, replicaLimit, key, value, newPrice);
    } else if c != map[] {
      var r := PutFull(c, key, value, newPrice);
      if r.outcome.stored {
        var m := r.evicted.value.key;
        AdmitBounded(c - {m}, capacity, replicaLimit, key, value, newPrice);
      }
    }
  }

  lemma ResidentBounded<V>(c: Cache<V>, capacity: int, replicaLimit: int, key: string, value: V, newPrice: u64)
    requires Bounded(c, capacity, replicaLimit) && key in c
    ensures Bounded(PutResident(c, replicaLimit, key, value, newPrice).cache, capacity, replicaLimit)
  {
    var r := PutResident(c, replicaLimit, key, value, newPrice).cache;
    assert |r| == |c| by { assert r.Keys == c.Keys; }
  }

  lemma AdmitBounded<V>(c: Cache<V>, capacity: int, replicaLimit: int, key: string, value: V, newPrice: u64)
    requires key !in c && |c| < Max(capacity, 0)
    requires forall k :: k in c ==> |c[k].stack| <= Max(replicaLimit, 1)
    ensures Bounded(Admit(c, key, value, newPrice), capacity, replicaLimit)
  {
  }

  /**
   A new key outbidding the cheapest resident of a full pool: that resident is
   evicted with its stack top first, the new key is admitted, and the bounds hold.
   */
  lemma PutEvicts<V>(c: Cache<V>, capacity: int, replicaLimit: int, key: string, value: V, newPrice: u64)
    requires Bounded(c, capacity, replicaLimit)
    requires key !in c && |c| >= capacity && c != map[] && newPrice > c[Cheapest(c)].price
    ensures var m := Cheapest(c);
            var c' := Admit(c - {m}, key, value, newPrice);
            && Put(c, capacity, replicaLimit, key, value, newPrice)
               == PutStep(c', Returned(true), Some(Eviction(m, Reverse(c[m].stack), c[m].price)))
            && Bounded(c', capacity, replicaLimit)
  {
    var m := Cheapest(c);
    assert Put(c, capacity, replicaLimit, key, value, newPrice) == PutFull(c, key, value, newPrice);
    assert |c - {m}| == |c| - 1;
    AdmitBounded(c - {m}, capacity, replicaLimit, key, value, newPrice);
  }

  /**
   A new key offered to a full pool at a price no higher than any resident's
   is refused, and nothing changes.
   */
  lemma PutRejects<V>(c: Cache<V>, capacity: int, replicaLimit: int, key: string, value: V, newPrice: u64)
    requires key !in c && |c| >= capacity && c != map[]
    requires forall j :: j in c ==> newPrice <= c[j].price
    ensures Put(c, capacity, replicaLimit, key, value, newPrice) == PutStep(c, Returned(false), None)
  {
    assert Put(c, capacity, replicaLimit, key, value, newPrice) == PutFull(c, key, value, newPrice);
  }

  /** A new key with room is admitted with a one-value stack, and nothing is evicted. */
  lemma PutAdmits<V>(c: Cache<V>, capacity: int, replicaLimit: int, key: string, value: V, price: u64)
    requires key !in c && |c| < capacity
    ensures Put(c, capacity, replicaLimit, key, value, price)
            == PutStep(c[key := Entry(price, [value])], Returned(true), None)
  {
  }

  /**
   A new key outbidding m, the cheapest resident of a full pool, takes m's
   place, and m is notified with its values top first and its price.
   */
  lemma PutReplaces<V>(c: Cache<V>, capacity: int, replicaLimit: int, m: string, key: string, value: V, price: u64)
    requires Bounded(c, capacity, replicaLimit)
    requires IsCheapest(m, c) && |c| >= capacity && key !in c && price > c[m].price
    ensures Put(c, capacity, replicaLimit, key, value, price)
            == PutStep((c - {m})[key := Entry(price, [value])], Returned(true),
                       Some(Eviction(m, Reverse(c[m].stack), c[m].price)))
  {
    CheapestUnique(m, c);
    PutEvicts(c, capacity, replicaLimit, key, value, price);
  }

  /** A resident key whose stack is below the limit is refiled and gets the value on top. */
  lemma PutPushes<V>(c: Cache<V>, capacity: int, replicaLimit: int, key: string, value: V, price: u64)
    requires key in c && |c[key].stack| < replicaLimit
    ensures Put(c, capacity, replicaLimit, key, value, price)
            == PutStep(c[key := Entry(price, c[key].stack + [value])], Returned(true), None)
  {
    assert Put(c, capacity, replicaLimit, key, value, price) == PutResident(c, replicaLimit, key, value, price);
  }

  /** One TryTake(key): pop the top value of a resident key with a non-empty stack. */
  function Take<V>(c: Cache<V>, key: string): (r: TakeStep<V>)
    // draining a stack never evicts: the resident keys stay the same
    ensures r.cache.Keys == c.Keys
    ensures r.taken.Some? <==> key in c && c[key].stack != []
    ensures r.taken.Some? ==>
      var s := c[key].stack;
      && r.taken.value == s[|s| - 1]
      && r.cache[key] == Entry(c[key].price, s[..|s| - 1])
    ensures r.taken.None? ==> r.cache == c
    ensures forall j :: j in c && j != key ==> r.cache[j] == c[j]
  {
    if key in c && c[key].stack != [] then
      var s := c[key].stack;
      TakeStep(c[key := Entry(c[key].price, s[..|s| - 1])], Some(s[|s| - 1]))
    else
      TakeStep(c, None)
  }

  /** Taking never lengthens a stack nor adds a key, so it keeps the bounds. */
  lemma TakeBounded<V>(c: Cache<V>, capacity: int, replicaLimit: int, key: string)
    requires Bounded(c, capacity, replicaLimit)
    ensures Bounded(Take(c, key).cache, capacity, replicaLimit)
  {
  }

  /** Popping what was just pushed gives it back and restores the stack below it. */
  lemma PushThenTake<V>(c: Cache<V>, key: string, below: seq<V>, value: V, price: u64)
    requires key in c && c[key] == Entry(price, below + [value])
    ensures Take(c, key) == TakeStep(c[key := Entry(price, below)], Some(value))
  {
    assert (below + [value])[..|below|] == below;
  }

  /**
   A value that TryPut stored is the one the next TryTake of that key hands
   back, and that take leaves the key's stack as it was before the put (empty
   for a key the put admitted), at the new price.
   */
  lemma PutThenTake<V>(c: Cache<V>, capacity: int, replicaLimit: int, key: string, value: V, price: u64)
    requires Put(c, capacity, replicaLimit, key, value, price).outcome == Returned(true)
    ensures var r := Put(c, capacity, replicaLimit, key, value, price);
            var t := Take(r.cache, key);
            && t.taken == Some(value)
            && t.cache == r.cache[key := Entry(price, if key in c then c[key].stack else [])]
  {
    var r := Put(c, capacity, replicaLimit, key, value, price);
    if key in c {
      PushThenTake(r.cache, key, c[key].stack, value, price);
    } else {
      assert r.cache[key] == Entry(price, [value]) by {
        if |c| >= capacity {
          assert r == PutFull(c, key, value, price);
        }
      }
      PushThenTake(r.cache, key, [], value, price);
    }
  }

  /** A call on the pool, as the driver makes them. */
  datatype Op<V> = PutOp(key: string, value: V, price: u64) | TakeOp(key: string)

  /** What a call returns to its caller. */
  datatype Reply<V> = PutReply(outcome: PutOutcome) | TakeReply(taken: Option<V>)

  /** The state after a sequence of calls, their replies, and the evictions notified, in order. */
  datatype Trace<V> = Trace(cache: Cache<V>, replies: seq<Reply<V>>, evictions: seq<Eviction<V>>)

  /** One call. */
  function Step<V>(c: Cache<V>, capacity: int, replicaLimit: int, op: Op<V>): (t: Trace<V>)
    ensures |t.replies| == 1 && |t.evictions| <= 1
  {
    match op
    case PutOp(key, value, price) =>
      var r := Put(c, capacity, replicaLimit, key, value, price);
      Trace(r.cache, [PutReply(r.outcome)], if r.evicted.Some? then [r.evicted.value] else [])
    case TakeOp(key) =>
      var r := Take(c, key);
      Trace(r.cache, [TakeReply(r.taken)], [])
  }

  /** A sequence of calls, one after the other, on a pool whose configuration never changes. */
  function Run<V>(c: Cache<V>, capacity: int, replicaLimit: int, ops: seq<Op<V>>): (t: Trace<V>)
    ensures |t.replies| == |ops|
    ensures |t.evictions| <= |ops|
    decreases |ops|
  {
    if ops == [] then Trace(c, [], [])
    else
      var first := Step(c, capacity, replicaLimit, ops[0]);
      var rest := Run(first.cache, capacity, replicaLimit, ops[1..]);
      Trace(rest.cache, first.replies + rest.replies, first.evictions + rest.evictions)
  }

  /**
   The capacity bound: whatever the calls, a pool that starts within its bounds
   (an empty one does) never holds more keys than its capacity nor a stack
   longer than its replica limit (or than one, for a limit below one).
   */
  lemma {:induction false} RunBounded<V>(c: Cache<V>, capacity: int, replicaLimit: int, ops: seq<Op<V>>)
    requires Bounded(c, capacity, replicaLimit)
    ensures Bounded(Run(c, capacity, replicaLimit, ops).cache, capacity, replicaLimit)
    decreases |ops|
  {
    if ops != [] {
      var first := Step(c, capacity, replicaLimit, ops[0]);
      match ops[0] {
        case PutOp(key, value, price) => PutBounded(c, capacity, replicaLimit, key, value, price);
        case TakeOp(key) => TakeBounded(c, capacity, replicaLimit, key);
      }
      RunBounded(first.cache, capacity, replicaLimit, ops[1..]);
    }
  }

  /**
   Stack order: after v1 and then v2 are put under a newly admitted key at one
   price, takes yield v2, then v1, then nothing, and the drained key is still
   resident.
   */
  lemma LifoLaw<V>(c: Cache<V>, capacity: int, replicaLimit: int, key: string, v1: V, v2: V, price: u64)
    requires key !in c && |c| < capacity && 2 <= replicaLimit
    ensures var p1 := Put(c, capacity, replicaLimit, key, v1, price);
            var p2 := Put(p1.cache, capacity, replicaLimit, key, v2, price);
            var t1 := Take(p2.cache, key);
            var t2 := Take(t1.cache, key);
            var t3 := Take(t2.cache, key);
            && p1.outcome == Returned(true) && p2.outcome == Returned(true)
            && t1.taken == Some(v2) && t2.taken == Some(v1) && t3.taken == None
            && p1.evicted == None && p2.evicted == None
            && t3.cache == c[key := Entry(price, [])]
  {
    var p1 := Put(c, capacity, replicaLimit, key, v1, price);
    assert p1.cache == Admit(c, key, v1, price);
    var p2 := Put(p1.cache, capacity, replicaLimit, key, v2, price);
    assert p2.cache[key] == Entry(price, [v1] + [v2]);
    PushThenTake(p2.cache, key, [v1], v2, price);
    var t1 := Take(p2.cache, key);
    PushThenTake(t1.cache, key, [], v1, price);
    var t2 := Take(t1.cache, key);
    assert t2.cache == c[key := Entry(price, [])];
  }

  /** A put on a resident key, as one call. */
  lemma ResidentStep<V>(c: Cache<V>, capacity: int, replicaLimit: int, key: string, value: V, price: u64)
    requires key in c
    ensures var r := PutResident(c, replicaLimit, key, value, price);
            Step(c, capacity, replicaLimit, PutOp(key, value, price)) == Trace(r.cache, [PutReply(r.outcome)], [])
  {
  }

  /** Running a call and then the rest is running them all. */
  lemma RunCons<V>(c: Cache<V>, capacity: int, replicaLimit: int, op: Op<V>, ops: seq<Op<V>>,
                   first: Trace<V>, rest: Trace<V>)
    requires Step(c, capacity, replicaLimit, op) == first
    requires Run(first.cache, capacity, replicaLimit, ops) == rest
    ensures Run(c, capacity, replicaLimit, [op] + ops)
         == Trace(rest.cache, first.replies + rest.replies, first.evictions + rest.evictions)
  {
    assert ([op] + ops)[1..] == ops;
  }

  /** The calls that put each of vs under key at one price, in order. */
  function PushOps<V>(key: string, vs: seq<V>, price: u64): (ops: seq<Op<V>>)
    ensures |ops| == |vs|
    ensures forall i :: 0 <= i < |vs| ==> ops[i] == PutOp(key, vs[i], price)
  {
    if vs == [] then [] else [PutOp(key, vs[0], price)] + PushOps(key, vs[1..], price)
  }

  /**
   The replica limit over a run: putting values one after another under a
   resident key, the i-th put succeeds exactly when the stack's length plus i
   is below the limit; the stack grows by the values that got in, in order;
   the key ends at the new price; no other key changes and nothing is evicted.
   So from an empty stack exactly the first replicaLimit puts succeed.
   */
  lemma RepeatedPushes<V>(c: Cache<V>, capacity: int, replicaLimit: int, key: string, vs: seq<V>, price: u64)
    requires key in c
    ensures var t := Run(c, capacity, replicaLimit, PushOps(key, vs, price));
            var n := |c[key].stack|;
            && (forall i :: 0 <= i < |vs| ==> t.replies[i] == PutReply(Returned(n + i < replicaLimit)))
            && t.evictions == []
            && t.cache.Keys == c.Keys
            && (forall j :: j in c && j != key ==> t.cache[j] == c[j])
            && (vs != [] ==> t.cache[key].price == price)
            && t.cache[key].stack == c[key].stack + vs[..Stored(n, replicaLimit, |vs|)]
  {
    forall i | 0 <= i < |vs|
      ensures Run(c, capacity, replicaLimit, PushOps(key, vs, price)).replies[i]
           == PutReply(Returned(|c[key].stack| + i < replicaLimit))
    {
      PushReply(c, capacity, replicaLimit, key, vs, price, i);
    }
    PushFrame(c, capacity, replicaLimit, key, vs, price);
    PushStack(c, capacity, replicaLimit, key, vs, price);
  }

  /** The reply to the i-th of a run of puts under a resident key. */
  lemma {:induction false} PushReply<V>(c: Cache<V>, capacity: int, replicaLimit: int,
                                        key: string, vs: seq<V>, price: u64, i: nat)
    requires key in c && i < |vs|
    ensures Run(c, capacity, replicaLimit, PushOps(key, vs, price)).replies[i]
         == PutReply(Returned(|c[key].stack| + i < replicaLimit))
    decreases i
  {
    var n := |c[key].stack|;
    var tail := PushOps(key, vs[1..], price);
    assert PushOps(key, vs, price) == [PutOp(key, vs[0], price)] + tail;
    var r := PutResident(c, replicaLimit, key, vs[0], price);
    var first := Trace(r.cache, [PutReply(r.outcome)], []);
    ResidentStep(c, capacity, replicaLimit, key, vs[0], price);
    var rest := Run(r.cache, capacity, replicaLimit, tail);
    RunCons(c, capacity, replicaLimit, PutOp(key, vs[0], price), tail, first, rest);
    if i > 0 {
      PushReply(r.cache, capacity, replicaLimit, key, vs[1..], price, i - 1);
      assert |r.cache[key].stack| == if n < replicaLimit then n + 1 else n;
    }
  }

  /** A run of puts under a resident key touches no other key and evicts nothing. */
  lemma {:induction false} PushFrame<V>(c: Cache<V>, capacity: int, replicaLimit: int,
                                        key: string, vs: seq<V>, price: u64)
    requires key in c
    ensures var t := Run(c, capacity, replicaLimit, PushOps(key, vs, price));
            && t.evictions == []
            && t.cache.Keys == c.Keys
            && (forall j :: j in c && j != key ==> t.cache[j] == c[j])
    decreases |vs|
  {
    if vs != [] {
      var n := |c[key].stack|;
      var tail := PushOps(key, vs[1..], price);
      assert PushOps(key, vs, price) == [PutOp(key, vs[0], price)] + tail;
      var r := PutResident(c, replicaLimit, key, vs[0], price);
      var first := Trace(r.cache, [PutReply(r.outcome)], []);
      ResidentStep(c, capacity, replicaLimit, key, vs[0], price);
      var rest := Run(r.cache, capacity, replicaLimit, tail);
      RunCons(c, capacity, replicaLimit, PutOp(key, vs[0], price), tail, first, rest);
      assert Run(c, capacity, replicaLimit, PushOps(key, vs, price)) == Trace(rest.cache, first.replies + rest.replies, rest.evictions);
      PushFrame(r.cache, capacity, replicaLimit, key, vs[1..], price);
    }
  }

  /** The stack a run of puts under a resident key leaves behind. */
  lemma {:induction false} PushStack<V>(c: Cache<V>, capacity: int, replicaLimit: int,
                                        key: string, vs: seq<V>, price: u64)
    requires key in c
    ensures var t := Run(c, capacity, replicaLimit, PushOps(key, vs, price));
            && key in t.cache
            && (vs != [] ==> t.cache[key].price == price)
            && t.cache[key].stack == c[key].stack + vs[..Stored(|c[key].stack|, replicaLimit, |vs|)]
    decreases |vs|
  {
    if vs != [] {
      var tail := PushOps(key, vs[1..], price);
      assert PushOps(key, vs, price) == [PutOp(key, vs[0], price)] + tail;
      var r := PutResident(c, replicaLimit, key, vs[0], price);
      ResidentStep(c, capacity, replicaLimit, key, vs[0], price);
      var rest := Run(r.cache, capacity, replicaLimit, tail);
      RunCons(c, capacity, replicaLimit, PutOp(key, vs[0], price), tail, Trace(r.cache, [PutReply(r.outcome)], []), rest);
      PushStack(r.cache, capacity, replicaLimit, key, vs[1..], price);
      StackAfterPushes(c[key].stack, r.cache[key].stack, rest.cache[key].stack, vs, replicaLimit);
    }
  }

  /** How many of count puts onto a stack of length n get in under the limit. */
  function Stored(n: nat, limit: int, count: nat): (k: nat)
    ensures k <= count
  {
    if n + count <= limit then count else if n < limit then limit - n else 0
  }

  /** One put followed by the rest of the run adds up to the whole run. */
  lemma StackAfterPushes<V>(s: seq<V>, s1: seq<V>, s2: seq<V>, vs: seq<V>, limit: int)
    requires vs != []
    requires s1 == if |s| < limit then s + [vs[0]] else s
    requires s2 == s1 + vs[1..][..Stored(|s1|, limit, |vs| - 1)]
    ensures s2 == s + vs[..Stored(|s|, limit, |vs|)]
  {
    var k := Stored(|s|, limit, |vs|);
    if |s| < limit {
      assert Stored(|s1|, limit, |vs| - 1) == k - 1;
      assert vs[..k] == [vs[0]] + vs[1..][..k - 1];
    }
  }
}
