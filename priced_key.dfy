/**
 The sort key of the price index: a cache key paired with its current price,
 ordered by price first and by key second, and the "first" (least) element of a
 finite set of such keys, which is what the ordered index hands out as its first
 entry.
 */
module PricedKeys {

  /** An unsigned 64-bit price. */
  newtype u64 = x: int | 0 <= x < 0x1_0000_0000_0000_0000

  /** A cache key together with the price it is currently filed under. */
  datatype PricedKey = PricedKey(key: string, price: u64)

  /**
   Ordinal comparison of two keys: character by character, a proper prefix
   sorting before the longer key. Negative, zero or positive like a comparer.
   */
  function CompareKeys(a: string, b: string): (c: int)
    ensures -1 <= c <= 1
    ensures c == 0 ==> |a| == |b|
  {
    if a == [] && b == [] then 0
    else if a == [] then -1
    else if b == [] then 1
    else if a[0] < b[0] then -1
    else if a[0] > b[0] then 1
    else CompareKeys(a[1..], b[1..])
  }

  /** The comparer of the price index: a lower price first, equal prices by key. */
  function Compare(x: PricedKey, y: PricedKey): (c: int)
    ensures -1 <= c <= 1
    ensures x.price < y.price ==> c < 0
    ensures x.price > y.price ==> c > 0
    ensures x.price == y.price ==> c == CompareKeys(x.key, y.key)
  {
    if x.price < y.price then -1
    else if x.price > y.price then 1
    else CompareKeys(x.key, y.key)
  }

  predicate Precedes(x: PricedKey, y: PricedKey) {
    Compare(x, y) < 0
  }

  /** Two keys compare equal exactly when they are the same key. */
  lemma {:induction false} CompareKeysZero(a: string, b: string)
    ensures CompareKeys(a, b) == 0 <==> a == b
  {
    if a != [] && b != [] && a[0] == b[0] {
      CompareKeysZero(a[1..], b[1..]);
      assert a == [a[0]] + a[1..] && b == [b[0]] + b[1..];
    }
  }

  /** Swapping the arguments negates the comparison. */
  lemma {:induction false} CompareKeysAntisymmetric(a: string, b: string)
    ensures CompareKeys(a, b) == -CompareKeys(b, a)
  {
    if a != [] && b != [] && a[0] == b[0] {
      CompareKeysAntisymmetric(a[1..], b[1..]);
    }
  }

  lemma {:induction false} CompareKeysTransitive(a: string, b: string, c: string)
    requires CompareKeys(a, b) < 0 && CompareKeys(b, c) < 0
    ensures CompareKeys(a, c) < 0
  {
    if a != [] && b != [] && c != [] && a[0] == b[0] && b[0] == c[0] {
      CompareKeysTransitive(a[1..], b[1..], c[1..]);
    }
  }

  /**
   The comparer is a strict total order whose "equal" is equality of priced
   keys: so a map keyed by PricedKey holds exactly one entry per (key, price),
   as the ordered index does, and distinct resident keys never collide.
   */
  lemma CompareIsEquality(x: PricedKey, y: PricedKey)
    ensures Compare(x, y) == 0 <==> x == y
  {
    CompareKeysZero(x.key, y.key);
  }

  lemma CompareAntisymmetric(x: PricedKey, y: PricedKey)
    ensures Compare(x, y) == -Compare(y, x)
  {
    CompareKeysAntisymmetric(x.key, y.key);
  }

  lemma CompareTransitive(x: PricedKey, y: PricedKey, z: PricedKey)
    requires Precedes(x, y) && Precedes(y, z)
    ensures Precedes(x, z)
  {
    if x.price == y.price == z.price {
      CompareKeysTransitive(x.key, y.key, z.key);
    }
  }

  /** Any two distinct priced keys are ordered one way or the other, never both. */
  lemma Trichotomy(x: PricedKey, y: PricedKey)
    ensures x == y || Precedes(x, y) || Precedes(y, x)
    ensures !(Precedes(x, y) && Precedes(y, x))
  {
    CompareIsEquality(x, y);
    CompareAntisymmetric(x, y);
  }

  /** m is the first element of s in the index order. */
  predicate IsFirst(m: PricedKey, s: set<PricedKey>) {
    m in s && forall y :: y in s && y != m ==> Precedes(m, y)
  }

  /** Every non-empty finite set of priced keys has a first element. */
  lemma {:induction false} FirstExists(s: set<PricedKey>)
    requires s != {}
    ensures exists m :: IsFirst(m, s)
    decreases |s|
  {
    var x :| x in s;
    var rest := s - {x};
    if rest == {} {
      assert s == {x};
      assert IsFirst(x, s);
    } else {
      FirstExists(rest);
      var m :| IsFirst(m, rest);
      Trichotomy(x, m);
      if Precedes(x, m) {
        forall y | y in s && y != x
          ensures Precedes(x, y)
        {
          if y != m { CompareTransitive(x, m, y); }
        }
        assert IsFirst(x, s);
      } else {
        assert IsFirst(m, s);
      }
    }
  }

  /** The first element of a set is unique. */
  lemma FirstUnique(s: set<PricedKey>)
    ensures forall m1, m2 :: IsFirst(m1, s) && IsFirst(m2, s) ==> m1 == m2
  {
    forall m1, m2 | IsFirst(m1, s) && IsFirst(m2, s)
      ensures m1 == m2
    {
      Trichotomy(m1, m2);
    }
  }

  /** The first entry of a non-empty ordered index (its least priced key). */
  function First(s: set<PricedKey>): (m: PricedKey)
    requires s != {}
    ensures m in s
    ensures forall y :: y in s ==> m.price <= y.price
    ensures forall y :: y in s && y != m && y.price == m.price ==> CompareKeys(m.key, y.key) < 0
  {
    FirstExists(s);
    FirstUnique(s);
    var m :| IsFirst(m, s);
    m
  }
}
