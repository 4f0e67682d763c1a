/**
 The exercise the repository runs against the pool: a capacity of five keys,
 at most two values per key, one take from the empty pool and nine puts, three
 of which push out the cheapest resident.
 */
module PoolDriver {
  import opened PricedKeys
  import opened CacheSpec
  import opened CachePool

  /** The contents after each of the first four puts. */
  const One: Cache<string> := map["2" := Entry(2, ["b"])]
  const Two: Cache<string> := One["3" := Entry(1, ["c"])]
  const Three: Cache<string> := Two["5" := Entry(5, ["e"])]
  const Four: Cache<string> := Three["7" := Entry(1, ["a"])]

  /** The contents after the first five puts: the pool is full. */
  const Full: Cache<string> :=
    map["2" := Entry(2, ["b"]), "3" := Entry(1, ["c"]), "5" := Entry(5, ["e"]),
        "7" := Entry(1, ["a"]), "4" := Entry(4, ["d"])]

  /** After ("6", "f", 3) pushed out "3". */
  const AfterSix: Cache<string> :=
    map["2" := Entry(2, ["b"]), "5" := Entry(5, ["e"]), "7" := Entry(1, ["a"]),
        "4" := Entry(4, ["d"]), "6" := Entry(3, ["f"])]

  /** After ("1", "aa", 10) pushed out "7". */
  const AfterOne: Cache<string> :=
    map["2" := Entry(2, ["b"]), "5" := Entry(5, ["e"]), "4" := Entry(4, ["d"]),
        "6" := Entry(3, ["f"]), "1" := Entry(10, ["aa"])]

  /** After ("2", "bb", 20) refiled "2" at 20 with a second value. */
  const AfterTwo: Cache<string> :=
    map["2" := Entry(20, ["b", "bb"]), "5" := Entry(5, ["e"]), "4" := Entry(4, ["d"]),
        "6" := Entry(3, ["f"]), "1" := Entry(10, ["aa"])]

  /** After ("3", "cc", 30) pushed out "6": the final contents. */
  const Final: Cache<string> :=
    map["2" := Entry(20, ["b", "bb"]), "5" := Entry(5, ["e"]), "4" := Entry(4, ["d"]),
        "1" := Entry(10, ["aa"]), "3" := Entry(30, ["cc"])]

  /** Each of the first five puts has a new key and finds room. */
  lemma FillFacts()
    ensures "3" !in One && "5" !in Two && "7" !in Three && "4" !in Four
    ensures |One| == 1 && |Two| == 2 && |Three| == 3 && |Four| == 4
    ensures Four["4" := Entry(4, ["d"])] == Full
  {
  }

  /** Of the two keys at the lowest price, "3" sorts first. */
  lemma FullCheapest()
    ensures IsCheapest("3", Full)
  {
    assert CompareKeys("3", "7") < 0;
  }

  lemma FullShape()
    ensures |Full| == 5 && "6" !in Full && Full["3"].price < 3
  {
  }

  /** ("6", "f", 3) takes the place of "3", whose one value is notified. */
  lemma FullRest()
    ensures (Full - {"3"})["6" := Entry(3, ["f"])] == AfterSix
    ensures Reverse(Full["3"].stack) == ["c"] && Full["3"].price == 1
  {
    assert Full - {"3"} == map["2" := Entry(2, ["b"]), "5" := Entry(5, ["e"]), "7" := Entry(1, ["a"]), "4" := Entry(4, ["d"])];
  }

  /** "7" is now alone at the lowest price. */
  lemma AfterSixCheapest()
    ensures IsCheapest("7", AfterSix)
  {
  }

  lemma AfterSixShape()
    ensures |AfterSix| == 5 && "1" !in AfterSix && AfterSix["7"].price < 10
  {
  }

  /** ("1", "aa", 10) takes the place of "7". */
  lemma AfterSixRest()
    ensures (AfterSix - {"7"})["1" := Entry(10, ["aa"])] == AfterOne
    ensures Reverse(AfterSix["7"].stack) == ["a"] && AfterSix["7"].price == 1
  {
    assert AfterSix - {"7"} == map["2" := Entry(2, ["b"]), "5" := Entry(5, ["e"]), "4" := Entry(4, ["d"]), "6" := Entry(3, ["f"])];
  }

  /** "2" holds one value, below the limit of two, and ("2", "bb", 20) adds the second. */
  lemma AfterOneFacts()
    ensures "2" in AfterOne && |AfterOne["2"].stack| == 1
    ensures AfterOne["2" := Entry(20, AfterOne["2"].stack + ["bb"])] == AfterTwo
  {
    assert ["b"] + ["bb"] == ["b", "bb"];
  }

  /** "6" is the cheapest resident. */
  lemma AfterTwoCheapest()
    ensures IsCheapest("6", AfterTwo)
  {
  }

  lemma AfterTwoShape()
    ensures |AfterTwo| == 5 && "3" !in AfterTwo && AfterTwo["6"].price < 30
  {
  }

  /** ("3", "cc", 30) takes the place of "6". */
  lemma AfterTwoRest()
    ensures (AfterTwo - {"6"})["3" := Entry(30, ["cc"])] == Final
    ensures Reverse(AfterTwo["6"].stack) == ["f"] && AfterTwo["6"].price == 3
  {
    assert AfterTwo - {"6"} == map["2" := Entry(20, ["b", "bb"]), "5" := Entry(5, ["e"]), "4" := Entry(4, ["d"]), "1" := Entry(10, ["aa"])];
  }

  lemma FinalSize()
    ensures |Final| == 5
  {
  }

  lemma ThreeNotified<T>(a: T, b: T, c: T)
    ensures [] + [a] + [b] + [c] == [a, b, c]
  {
  }

  /** TryPut of a new key into a pool with room, whose contents are c. */
  method AdmitPut(pool: PricedCachePool<string>, ghost c: Cache<string>, key: string, value: string, price: u64)
    returns (r: PutOutcome)
    requires pool.Valid() && pool.Contents() == c && key !in c && |c| < pool.capacity
    modifies pool
    ensures r == Returned(true)
    ensures pool.Valid() && pool.Contents() == c[key := Entry(price, [value])]
    ensures pool.evictions == old(pool.evictions)
  {
    PutAdmits(c, pool.capacity, pool.replicaLimit, key, value, price);
    r := pool.TryPut(key, value, price);
  }

  /** TryPut of a new key that outbids m, the cheapest resident of a full pool whose contents are c. */
  method EvictPut(pool: PricedCachePool<string>, ghost c: Cache<string>, ghost m: string, key: string, value: string, price: u64)
    returns (r: PutOutcome)
    requires pool.Valid() && pool.Contents() == c
    requires IsCheapest(m, c) && |c| >= pool.capacity && key !in c && price > c[m].price
    modifies pool
    ensures r == Returned(true)
    ensures pool.Valid() && pool.Contents() == (c - {m})[key := Entry(price, [value])]
    ensures pool.evictions == old(pool.evictions) + [Eviction(m, Reverse(c[m].stack), c[m].price)]
  {
    PutReplaces(c, pool.capacity, pool.replicaLimit, m, key, value, price);
    r := pool.TryPut(key, value, price);
  }

  /** TryPut on a resident key whose stack has room, in a pool whose contents are c. */
  method PushPut(pool: PricedCachePool<string>, ghost c: Cache<string>, key: string, value: string, price: u64)
    returns (r: PutOutcome)
    requires pool.Valid() && pool.Contents() == c && key in c && |c[key].stack| < pool.replicaLimit
    modifies pool
    ensures r == Returned(true)
    ensures pool.Valid() && pool.Contents() == c[key := Entry(price, c[key].stack + [value])]
    ensures pool.evictions == old(pool.evictions)
  {
    PutPushes(c, pool.capacity, pool.replicaLimit, key, value, price);
    r := pool.TryPut(key, value, price);
  }

  /** TryTake of a key that is not resident changes nothing and takes nothing. */
  method TakeMissing(pool: PricedCachePool<string>, key: string) returns (taken: Option<string>)
    requires pool.Valid() && key !in pool.Contents()
    modifies pool
    ensures taken == None
    ensures pool.Valid() && pool.Contents() == old(pool.Contents()) && pool.evictions == old(pool.evictions)
  {
    taken := pool.TryTake(key);
  }

  /** The first five puts, each of a new key into a pool with room, fill it. */
  method Fill(pool: PricedCachePool<string>) returns (r: PutOutcome)
    requires pool.Valid() && pool.Contents() == map[] && pool.capacity == 5
    modifies pool
    ensures r == Returned(true)
    ensures pool.Valid() && pool.Contents() == Full && pool.evictions == old(pool.evictions)
  {
    FillFacts();
    r := AdmitPut(pool, map[], "2", "b", 2);
    r := AdmitPut(pool, One, "3", "c", 1);
    r := AdmitPut(pool, Two, "5", "e", 5);
    r := AdmitPut(pool, Three, "7", "a", 1);
    r := AdmitPut(pool, Four, "4", "d", 4);
  }

  /** ("6", "f", 3) on the full pool pushes out "3". */
  method PutSix(pool: PricedCachePool<string>) returns (r: PutOutcome)
    requires pool.Valid() && pool.Contents() == Full && pool.capacity == 5
    modifies pool
    ensures r == Returned(true)
    ensures pool.Valid() && pool.Contents() == AfterSix
    ensures pool.evictions == old(pool.evictions) + [Eviction("3", ["c"], 1)]
  {
    FullCheapest();
    FullShape();
    FullRest();
    r := EvictPut(pool, Full, "3", "6", "f", 3);
  }

  /** ("1", "aa", 10) then pushes out "7". */
  method PutOne(pool: PricedCachePool<string>) returns (r: PutOutcome)
    requires pool.Valid() && pool.Contents() == AfterSix && pool.capacity == 5
    modifies pool
    ensures r == Returned(true)
    ensures pool.Valid() && pool.Contents() == AfterOne
    ensures pool.evictions == old(pool.evictions) + [Eviction("7", ["a"], 1)]
  {
    AfterSixCheapest();
    AfterSixShape();
    AfterSixRest();
    r := EvictPut(pool, AfterSix, "7", "1", "aa", 10);
  }

  /** ("2", "bb", 20) refiles "2" and gives it a second value. */
  method PutTwo(pool: PricedCachePool<string>) returns (r: PutOutcome)
    requires pool.Valid() && pool.Contents() == AfterOne && pool.replicaLimit == 2
    modifies pool
    ensures r == Returned(true)
    ensures pool.Valid() && pool.Contents() == AfterTwo
    ensures pool.evictions == old(pool.evictions)
  {
    AfterOneFacts();
    r := PushPut(pool, AfterOne, "2", "bb", 20);
  }

  /** ("3", "cc", 30) pushes out "6". */
  method PutThree(pool: PricedCachePool<string>) returns (r: PutOutcome)
    requires pool.Valid() && pool.Contents() == AfterTwo && pool.capacity == 5
    modifies pool
    ensures r == Returned(true)
    ensures pool.Valid() && pool.Contents() == Final
    ensures pool.evictions == old(pool.evictions) + [Eviction("6", ["f"], 3)]
  {
    AfterTwoCheapest();
    AfterTwoShape();
    AfterTwoRest();
    r := EvictPut(pool, AfterTwo, "6", "3", "cc", 30);
  }

  /**
   Replays the repository's exercise and returns the final count, the final
   contents and the evictions notified on the way.
   */
  method Scenario() returns (count: int, contents: Cache<string>, evicted: seq<Eviction<string>>)
    ensures count == 5
    ensures contents == Final
    ensures evicted == [Eviction("3", ["c"], 1), Eviction("7", ["a"], 1), Eviction("6", ["f"], 3)]
  {
    var pool := new PricedCachePool<string>(5, 2);
    var taken := TakeMissing(pool, "1");

    var r := Fill(pool);
    r := PutSix(pool);
    r := PutOne(pool);
    r := PutTwo(pool);
    r := PutThree(pool);
    FinalSize();
    ThreeNotified(Eviction("3", ["c"], 1), Eviction("7", ["a"], 1), Eviction("6", ["f"], 3));
    count := pool.Count();
    contents := pool.Contents();
    evicted := pool.evictions;
  }
}
