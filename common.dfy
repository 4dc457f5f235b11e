/** Values shared by the two programs: optional values, results, and
    grouping a sequence by a key (used for the date groups of the
    past-data view and for the tank tally of the master converter). */
module Common {

  datatype Option<+T> = None | Some(value: T)

  datatype Result<+T, +E> = Ok(value: T) | Err(error: E)

  /** No element occurs twice. */
  predicate Distinct<T(==)>(s: seq<T>) {
    forall i, j :: 0 <= i < j < |s| ==> s[i] != s[j]
  }

  /** The elements of `xs` whose key is `k`, in their original order
      (what `push` into a per-key bucket builds). */
  function WithKey<T, K(==)>(xs: seq<T>, key: T -> K, k: K): (r: seq<T>)
    ensures |r| <= |xs|
  {
    if xs == [] then []
    else WithKey(xs[..|xs| - 1], key, k) + (if key(xs[|xs| - 1]) == k then [xs[|xs| - 1]] else [])
  }

  /** The keys of `xs` in order of first appearance: the iteration order
      of a Python dict filled from `xs`, and of a JavaScript object filled
      from `xs` as long as no key is an array index (a canonical integer
      string below 2^32 - 1, which `Object.keys` lists first). */
  function KeysInOrder<T, K(==)>(xs: seq<T>, key: T -> K): seq<K> {
    if xs == [] then []
    else
      var front := KeysInOrder(xs[..|xs| - 1], key);
      var k := key(xs[|xs| - 1]);
      if k in front then front else front + [k]
  }

  lemma WithKeySnoc<T, K>(xs: seq<T>, x: T, key: T -> K, k: K)
    ensures WithKey(xs + [x], key, k) == WithKey(xs, key, k) + (if key(x) == k then [x] else [])
  {
    assert (xs + [x])[..|xs|] == xs;
  }

  lemma KeysInOrderSnoc<T, K>(xs: seq<T>, x: T, key: T -> K)
    ensures KeysInOrder(xs + [x], key)
            == if key(x) in KeysInOrder(xs, key) then KeysInOrder(xs, key) else KeysInOrder(xs, key) + [key(x)]
  {
    assert (xs + [x])[..|xs|] == xs;
  }

  /** Sum of the bucket sizes for the keys `ks`. */
  function SumSizes<T, K(==)>(xs: seq<T>, key: T -> K, ks: seq<K>): nat {
    if ks == [] then 0
    else SumSizes(xs, key, ks[..|ks| - 1]) + |WithKey(xs, key, ks[|ks| - 1])|
  }

  /** Number of positions of `ks` holding `k`. */
  function Occurrences<K(==)>(ks: seq<K>, k: K): nat {
    if ks == [] then 0
    else Occurrences(ks[..|ks| - 1], k) + (if ks[|ks| - 1] == k then 1 else 0)
  }

  /** The key list has each key of `xs` once, and nothing else. */
  lemma {:induction false} KeysInOrderComplete<T, K>(xs: seq<T>, key: T -> K)
    ensures Distinct(KeysInOrder(xs, key))
    ensures forall x :: x in xs ==> key(x) in KeysInOrder(xs, key)
    ensures forall k :: k in KeysInOrder(xs, key) ==> exists x :: x in xs && key(x) == k
  {
    if xs != [] {
      var front := xs[..|xs| - 1];
      KeysInOrderComplete(front, key);
      assert forall x :: x in xs <==> x in front || x == xs[|xs| - 1];
    }
  }

  /** A bucket holds elements of `xs` with the bucket's key. */
  lemma {:induction false} WithKeyMembers<T, K>(xs: seq<T>, key: T -> K, k: K)
    ensures forall x :: x in WithKey(xs, key, k) ==> x in xs && key(x) == k
  {
    if xs != [] {
      var front := xs[..|xs| - 1];
      WithKeyMembers(front, key, k);
      assert forall x :: x in front ==> x in xs;
    }
  }

  lemma {:induction false} OccurrencesOfDistinct<K>(ks: seq<K>, k: K)
    requires Distinct(ks)
    ensures Occurrences(ks, k) == if k in ks then 1 else 0
  {
    if ks != [] {
      var front := ks[..|ks| - 1];
      OccurrencesOfDistinct(front, k);
      if ks[|ks| - 1] == k {
        assert k !in front;
      } else {
        assert k in ks <==> k in front;
      }
    }
  }

  /** Appending one element grows exactly the buckets of its key, once per
      occurrence of that key in `ks`. */
  lemma {:induction false} SumSizesSnoc<T, K>(xs: seq<T>, x: T, key: T -> K, ks: seq<K>)
    ensures SumSizes(xs + [x], key, ks) == SumSizes(xs, key, ks) + Occurrences(ks, key(x))
  {
    if ks != [] {
      SumSizesSnoc(xs, x, key, ks[..|ks| - 1]);
      assert (xs + [x])[..|xs + [x]| - 1] == xs;
    }
  }

  /** Grouping is a partition: when `ks` lists every key once, the groups'
      sizes add up to the number of elements. */
  lemma {:induction false} GroupSizesSum<T, K>(xs: seq<T>, key: T -> K, ks: seq<K>)
    requires Distinct(ks)
    requires forall x :: x in xs ==> key(x) in ks
    ensures SumSizes(xs, key, ks) == |xs|
  {
    if xs == [] {
      EmptyBuckets(key, ks);
    } else {
      var front := xs[..|xs| - 1];
      var last := xs[|xs| - 1];
      assert xs == front + [last];
      GroupSizesSum(front, key, ks);
      SumSizesSnoc(front, last, key, ks);
      OccurrencesOfDistinct(ks, key(last));
    }
  }

  lemma {:induction false} EmptyBuckets<T, K>(key: T -> K, ks: seq<K>)
    ensures SumSizes([], key, ks) == 0
  {
    if ks != [] {
      EmptyBuckets(key, ks[..|ks| - 1]);
    }
  }

  /** The first-appearance key list, read as buckets, covers every element. */
  lemma {:induction false} GroupsCoverAll<T, K>(xs: seq<T>, key: T -> K)
    ensures SumSizes(xs, key, KeysInOrder(xs, key)) == |xs|
  {
    KeysInOrderComplete(xs, key);
    GroupSizesSum(xs, key, KeysInOrder(xs, key));
  }

  /** Every element lands in the bucket of its own key. */
  lemma {:induction false} InOwnBucket<T, K>(xs: seq<T>, key: T -> K, x: T)
    requires x in xs
    ensures x in WithKey(xs, key, key(x))
  {
    var front := xs[..|xs| - 1];
    if x != xs[|xs| - 1] {
      assert x in front;
      InOwnBucket(front, key, x);
    }
  }

  /** No repeats is the same as no multiplicity above one. */
  lemma {:induction false} DistinctMultiplicity<T>(s: seq<T>)
    ensures Distinct(s) <==> forall x :: multiset(s)[x] <= 1
  {
    if s != [] {
      var front, last := s[..|s| - 1], s[|s| - 1];
      assert s == front + [last];
      DistinctMultiplicity(front);
      assert Distinct(s) <==> Distinct(front) && last !in front;
      assert multiset(s) == multiset(front) + multiset{last};
      if forall x :: multiset(s)[x] <= 1 {
        assert forall x :: multiset(front)[x] <= multiset(s)[x];
        assert multiset(front)[last] == 0;
      }
    }
  }

  /** A permutation of a sequence without repeats has no repeats. */
  lemma PermutationKeepsDistinct<T>(a: seq<T>, b: seq<T>)
    requires Distinct(a) && multiset(a) == multiset(b)
    ensures Distinct(b)
  {
    DistinctMultiplicity(a);
    DistinctMultiplicity(b);
  }

  /** A key has a non-empty bucket exactly when some element carries it. */
  lemma {:induction false} WithKeyNonEmpty<T, K>(xs: seq<T>, key: T -> K, k: K)
    ensures WithKey(xs, key, k) != [] <==> exists x :: x in xs && key(x) == k
  {
    if xs != [] {
      var front := xs[..|xs| - 1];
      WithKeyNonEmpty(front, key, k);
      assert forall x :: x in xs <==> x in front || x == xs[|xs| - 1];
    }
  }
}
