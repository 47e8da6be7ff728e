/** Ascending, stable sort of a sequence by a real-valued key: what an ordered Java
    stream does under `sorted(Comparator.comparingDouble(key))`. Elements with equal
    keys keep their input order. The sort is written as an insertion sort; the lemma
    `StableSortUnique` shows that every sorted, stable rearrangement gives the same
    sequence, so the choice of algorithm does not show in the result. */
module Ranking {

  /** The keys of `s` never decrease from left to right. */
  ghost predicate SortedBy<T>(s: seq<T>, key: T -> real)
  {
    forall i, j :: 0 <= i < j < |s| ==> key(s[i]) <= key(s[j])
  }

  /** The elements of `s` whose key is `k`, in their order in `s`. A sort is stable
      exactly when it leaves this subsequence unchanged for every key. */
  function WithKey<T>(s: seq<T>, key: T -> real, k: real): seq<T>
  {
    if s == [] then []
    else (if key(s[0]) == k then [s[0]] else []) + WithKey(s[1..], key, k)
  }

  /** Places `x` into the sorted `s` in front of the first element whose key is not
      smaller than its own, so that `x` precedes the elements with an equal key. */
  function Insert<T>(x: T, s: seq<T>, key: T -> real): (r: seq<T>)
    requires SortedBy(s, key)
    ensures |r| == |s| + 1
    ensures key(r[0]) == key(x) || (s != [] && key(r[0]) == key(s[0]))
    ensures SortedBy(r, key)
    ensures multiset(r) == multiset(s) + multiset{x}
  {
    if s == [] || key(x) <= key(s[0]) then [x] + s
    else
      var rest := Insert(x, s[1..], key);
      assert s == [s[0]] + s[1..];
      assert key(s[0]) <= key(rest[0]);
      assert forall i :: 0 <= i < |rest| ==> key(s[0]) <= key(rest[i]);
      [s[0]] + rest
  }

  /** Sorts `s` by ascending key; equal keys keep their order in `s`. */
  function StableSort<T>(s: seq<T>, key: T -> real): (r: seq<T>)
    ensures |r| == |s|
    ensures SortedBy(r, key)
    ensures multiset(r) == multiset(s)
  {
    if s == [] then []
    else
      assert s == [s[0]] + s[1..];
      Insert(s[0], StableSort(s[1..], key), key)
  }

  /** Inserting `x` adds it in front of the elements that share its key and leaves the
      elements of every other key as they were. */
  lemma {:induction false} InsertWithKey<T>(x: T, s: seq<T>, key: T -> real, k: real)
    requires SortedBy(s, key)
    ensures WithKey(Insert(x, s, key), key, k)
            == (if key(x) == k then [x] else []) + WithKey(s, key, k)
  {
    var hx := if key(x) == k then [x] else [];
    if s == [] || key(x) <= key(s[0]) {
      assert Insert(x, s, key) == [x] + s;
      assert ([x] + s)[1..] == s;
      assert WithKey([x] + s, key, k) == hx + WithKey(s, key, k);
    } else {
      var rest := Insert(x, s[1..], key);
      var h0 := if key(s[0]) == k then [s[0]] else [];
      InsertWithKey(x, s[1..], key, k);
      assert Insert(x, s, key) == [s[0]] + rest;
      assert ([s[0]] + rest)[1..] == rest;
      assert WithKey([s[0]] + rest, key, k) == h0 + (hx + WithKey(s[1..], key, k));
      assert WithKey(s, key, k) == h0 + WithKey(s[1..], key, k);
      assert h0 == [] || hx == [];
    }
  }

  /** The sort is stable: for every key, the elements carrying it appear in the
      result in the same order as in the input. */
  lemma {:induction false} StableSortIsStable<T>(s: seq<T>, key: T -> real, k: real)
    ensures WithKey(StableSort(s, key), key, k) == WithKey(s, key, k)
  {
    if s != [] {
      StableSortIsStable(s[1..], key, k);
      InsertWithKey(s[0], StableSort(s[1..], key), key, k);
    }
  }

  /** An element with key `k` lies in `s` whenever `WithKey(s, key, k)` is not empty. */
  lemma {:induction false} WithKeyNonEmpty<T>(s: seq<T>, key: T -> real, k: real)
    requires WithKey(s, key, k) != []
    ensures exists i :: 0 <= i < |s| && key(s[i]) == k
  {
    if key(s[0]) != k {
      WithKeyNonEmpty(s[1..], key, k);
      var i :| 0 <= i < |s[1..]| && key(s[1..][i]) == k;
      assert key(s[i + 1]) == k;
    }
  }

  /** The first element of a non-empty sequence opens the subsequence of its key. */
  lemma WithKeyOfHead<T>(s: seq<T>, key: T -> real)
    requires s != []
    ensures WithKey(s, key, key(s[0])) == [s[0]] + WithKey(s[1..], key, key(s[0]))
  {
  }

  /** Two sorted sequences with the same elements, in the same order, under every key are
      equal: a stable sort's result is determined by its input alone. */
  lemma {:induction false} StableSortUnique<T>(r1: seq<T>, r2: seq<T>, key: T -> real)
    requires SortedBy(r1, key) && SortedBy(r2, key)
    requires forall k :: WithKey(r1, key, k) == WithKey(r2, key, k)
    ensures r1 == r2
  {
    if r1 != [] {
      WithKeyOfHead(r1, key);
    }
    if r2 != [] {
      WithKeyOfHead(r2, key);
    }
    if r1 != [] && r2 != [] {
      var k1, k2 := key(r1[0]), key(r2[0]);
      WithKeyNonEmpty(r2, key, k1);
      WithKeyNonEmpty(r1, key, k2);
      assert k1 == k2;
      assert r1[0] == WithKey(r1, key, k1)[0] == WithKey(r2, key, k1)[0] == r2[0];
      forall k ensures WithKey(r1[1..], key, k) == WithKey(r2[1..], key, k) {
        var head := if k1 == k then [r1[0]] else [];
        assert WithKey(r1, key, k) == head + WithKey(r1[1..], key, k);
        assert WithKey(r2, key, k) == head + WithKey(r2[1..], key, k);
        assert WithKey(r1[1..], key, k) == WithKey(r1, key, k)[|head|..];
        assert WithKey(r2[1..], key, k) == WithKey(r2, key, k)[|head|..];
      }
      StableSortUnique(r1[1..], r2[1..], key);
      assert r1 == [r1[0]] + r1[1..];
      assert r2 == [r2[0]] + r2[1..];
    }
  }

  /** Cutting a sequence short only cuts each key's subsequence short. */
  lemma {:induction false} WithKeyOfPrefix<T>(s: seq<T>, n: nat, key: T -> real, k: real)
    requires n <= |s|
    ensures WithKey(s[..n], key, k) <= WithKey(s, key, k)
  {
    if n > 0 {
      WithKeyOfPrefix(s[1..], n - 1, key, k);
      assert s[..n][1..] == s[1..][..n - 1];
      assert s[..n][0] == s[0];
    }
  }
}
