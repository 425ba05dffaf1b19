/**
  * A stable sort by an integer key: the behaviour of `Array.prototype.sort` with a
  * comparator `(a, b) => key(a) - key(b)`, which ECMAScript (since ES2019) requires
  * to be stable. The reference definition is an insertion sort; `StableSortIsUnique`
  * shows that every sort that is ordered by key and stable gives the same sequence,
  * so the engine's own algorithm yields exactly `SortByKey`.
  */
module StableSort {

  /** Keys never decrease along `s`. */
  ghost predicate SortedBy<T>(s: seq<T>, key: T -> int) {
    forall i, j :: 0 <= i < j < |s| ==> key(s[i]) <= key(s[j])
  }

  /** The elements of `s` whose key is `k`, in their order in `s`. */
  function WithKey<T>(s: seq<T>, key: T -> int, k: int): seq<T> {
    if s == [] then []
    else WithKey(s[..|s| - 1], key, k) + (if key(s[|s| - 1]) == k then [s[|s| - 1]] else [])
  }

  /** `r` keeps the relative order that `s` gives to the elements of each key. */
  ghost predicate SameOrderPerKey<T>(r: seq<T>, s: seq<T>, key: T -> int) {
    forall k :: WithKey(r, key, k) == WithKey(s, key, k)
  }

  /** Places `x` after every element of `s` whose key is at most `key(x)`, scanning from the end. */
  function Insert<T>(s: seq<T>, x: T, key: T -> int): (r: seq<T>)
    ensures |r| == |s| + 1
  {
    if s == [] then [x]
    else if key(s[|s| - 1]) <= key(x) then s + [x]
    else Insert(s[..|s| - 1], x, key) + [s[|s| - 1]]
  }

  /** Insertion sort by key, inserting the elements from first to last. */
  function SortByKey<T>(s: seq<T>, key: T -> int): (r: seq<T>)
    ensures |r| == |s|
  {
    if s == [] then [] else Insert(SortByKey(s[..|s| - 1], key), s[|s| - 1], key)
  }

  lemma {:induction false} InsertPermutes<T>(s: seq<T>, x: T, key: T -> int)
    ensures multiset(Insert(s, x, key)) == multiset(s) + multiset{x}
  {
    if s != [] && key(s[|s| - 1]) > key(x) {
      var init, last := s[..|s| - 1], s[|s| - 1];
      assert s == init + [last];
      InsertPermutes(init, x, key);
    }
  }

  lemma {:induction false} InsertKeepsSorted<T>(s: seq<T>, x: T, key: T -> int)
    requires SortedBy(s, key)
    ensures SortedBy(Insert(s, x, key), key)
  {
    if s != [] && key(s[|s| - 1]) > key(x) {
      var init, last := s[..|s| - 1], s[|s| - 1];
      assert s == init + [last];
      var ins := Insert(init, x, key);
      var r := ins + [last];
      assert SortedBy(init, key);
      InsertKeepsSorted(init, x, key);
      InsertPermutes(init, x, key);
      forall i | 0 <= i < |ins| ensures key(ins[i]) <= key(last) {
        assert ins[i] in multiset(ins);
        if ins[i] != x {
          assert ins[i] in multiset(init);
          var j :| 0 <= j < |init| && init[j] == ins[i];
          assert s[j] == init[j];
        }
      }
      forall i, j | 0 <= i < j < |r| ensures key(r[i]) <= key(r[j]) {
        if j < |r| - 1 {
          assert r[i] == ins[i] && r[j] == ins[j];
        }
      }
    }
  }

  /** The sort outputs a permutation of its input. */
  lemma {:induction false} SortByKeyPermutes<T>(s: seq<T>, key: T -> int)
    ensures multiset(SortByKey(s, key)) == multiset(s)
  {
    if s != [] {
      var init, last := s[..|s| - 1], s[|s| - 1];
      assert s == init + [last];
      SortByKeyPermutes(init, key);
      InsertPermutes(SortByKey(init, key), last, key);
    }
  }

  /** The sort outputs its elements in non-decreasing key order. */
  lemma {:induction false} SortByKeySorts<T>(s: seq<T>, key: T -> int)
    ensures SortedBy(SortByKey(s, key), key)
  {
    if s != [] {
      SortByKeySorts(s[..|s| - 1], key);
      InsertKeepsSorted(SortByKey(s[..|s| - 1], key), s[|s| - 1], key);
    }
  }

  lemma WithKeySnoc<T>(s: seq<T>, x: T, key: T -> int, k: int)
    ensures WithKey(s + [x], key, k) == WithKey(s, key, k) + (if key(x) == k then [x] else [])
  {
    assert (s + [x])[..|s + [x]| - 1] == s;
  }

  /** Inserting moves `x` only past elements with a larger key, so no key's order changes. */
  lemma {:induction false} WithKeyInsert<T>(s: seq<T>, x: T, key: T -> int, k: int)
    ensures WithKey(Insert(s, x, key), key, k) == WithKey(s + [x], key, k)
  {
    if s != [] && key(s[|s| - 1]) > key(x) {
      var init, last := s[..|s| - 1], s[|s| - 1];
      assert s == init + [last];
      WithKeyInsert(init, x, key, k);
      WithKeySnoc(Insert(init, x, key), last, key, k);
      WithKeySnoc(init, x, key, k);
      WithKeySnoc(s, x, key, k);
      WithKeySnoc(init, last, key, k);
    }
  }

  /** The sort is stable: the elements of each key come out in their input order. */
  lemma {:induction false} SortByKeyIsStable<T>(s: seq<T>, key: T -> int, k: int)
    ensures WithKey(SortByKey(s, key), key, k) == WithKey(s, key, k)
  {
    if s != [] {
      var init, last := s[..|s| - 1], s[|s| - 1];
      assert s == init + [last];
      SortByKeyIsStable(init, key, k);
      WithKeyInsert(SortByKey(init, key), last, key, k);
      WithKeySnoc(SortByKey(init, key), last, key, k);
      WithKeySnoc(init, last, key, k);
    }
  }

  lemma SortByKeySameOrderPerKey<T>(s: seq<T>, key: T -> int)
    ensures SameOrderPerKey(SortByKey(s, key), s, key)
  {
    forall k ensures WithKey(SortByKey(s, key), key, k) == WithKey(s, key, k) {
      SortByKeyIsStable(s, key, k);
    }
  }

  lemma {:induction false} WithKeyNonEmpty<T>(s: seq<T>, key: T -> int, i: nat)
    requires i < |s|
    ensures WithKey(s, key, key(s[i])) != []
  {
    var init, last := s[..|s| - 1], s[|s| - 1];
    if i < |s| - 1 {
      assert init[i] == s[i];
      WithKeyNonEmpty(init, key, i);
    }
  }

  lemma {:induction false} WithKeyWitness<T>(s: seq<T>, key: T -> int, k: int)
    requires WithKey(s, key, k) != []
    ensures exists i :: 0 <= i < |s| && key(s[i]) == k
  {
    var init, last := s[..|s| - 1], s[|s| - 1];
    if key(last) != k {
      WithKeyWitness(init, key, k);
      var i :| 0 <= i < |init| && key(init[i]) == k;
      assert s[i] == init[i];
    }
  }

  lemma SnocInjective<T>(u: seq<T>, a: T, v: seq<T>, b: T)
    requires u + [a] == v + [b]
    ensures u == v && a == b
  {
    assert u == (u + [a])[..|u|];
    assert v == (v + [b])[..|v|];
    assert a == (u + [a])[|u|];
  }

  /** A sorted sequence whose last key is `k` has no element with a larger key. */
  lemma {:induction false} LastKeyIsMax<T>(s: seq<T>, key: T -> int, k: int)
    requires s != [] && SortedBy(s, key)
    requires WithKey(s, key, k) != []
    ensures k <= key(s[|s| - 1])
  {
    WithKeyWitness(s, key, k);
  }

  /** Dropping the last elements of two such sequences, when their keys agree, keeps the per-key order. */
  lemma DropLastSameOrder<T>(r: seq<T>, t: seq<T>, key: T -> int)
    requires r != [] && t != [] && key(r[|r| - 1]) == key(t[|t| - 1])
    requires SameOrderPerKey(r, t, key)
    ensures r[|r| - 1] == t[|t| - 1]
    ensures SameOrderPerKey(r[..|r| - 1], t[..|t| - 1], key)
  {
    var r', a := r[..|r| - 1], r[|r| - 1];
    var t', b := t[..|t| - 1], t[|t| - 1];
    assert r == r' + [a] && t == t' + [b];
    forall k ensures WithKey(r', key, k) == WithKey(t', key, k) {
      WithKeySnoc(r', a, key, k);
      WithKeySnoc(t', b, key, k);
      assert WithKey(r, key, k) == WithKey(t, key, k);
      if k == key(a) {
        SnocInjective(WithKey(r', key, k), a, WithKey(t', key, k), b);
      } else {
        assert WithKey(r, key, k) == WithKey(r', key, k);
        assert WithKey(t, key, k) == WithKey(t', key, k);
      }
    }
    WithKeySnoc(r', a, key, key(a));
    WithKeySnoc(t', b, key, key(a));
    assert WithKey(r, key, key(a)) == WithKey(t, key, key(a));
    SnocInjective(WithKey(r', key, key(a)), a, WithKey(t', key, key(a)), b);
  }

  lemma SortedPrefix<T>(s: seq<T>, key: T -> int)
    requires s != [] && SortedBy(s, key)
    ensures SortedBy(s[..|s| - 1], key)
  {
  }

  /** Two non-empty sorted sequences with the same per-key order end in the same key. */
  lemma LastKeysAgree<T>(r: seq<T>, t: seq<T>, key: T -> int)
    requires r != [] && t != [] && SortedBy(r, key) && SortedBy(t, key)
    requires SameOrderPerKey(r, t, key)
    ensures key(r[|r| - 1]) == key(t[|t| - 1])
  {
    var a, b := r[|r| - 1], t[|t| - 1];
    WithKeyNonEmpty(r, key, |r| - 1);
    WithKeyNonEmpty(t, key, |t| - 1);
    assert WithKey(t, key, key(a)) != [] && WithKey(r, key, key(b)) != [];
    LastKeyIsMax(t, key, key(a));
    LastKeyIsMax(r, key, key(b));
  }

  /** Two sequences ordered by key that agree on the order within every key are equal. */
  lemma {:induction false} SortedSameOrderEqual<T>(r: seq<T>, t: seq<T>, key: T -> int)
    requires SortedBy(r, key) && SortedBy(t, key)
    requires SameOrderPerKey(r, t, key)
    ensures r == t
    decreases |r| + |t|
  {
    if r == [] || t == [] {
      if r != [] {
        WithKeyNonEmpty(r, key, 0);
        assert false;
      } else if t != [] {
        WithKeyNonEmpty(t, key, 0);
        assert false;
      }
    } else {
      var a, b := r[|r| - 1], t[|t| - 1];
      LastKeysAgree(r, t, key);
      DropLastSameOrder(r, t, key);
      SortedPrefix(r, key);
      SortedPrefix(t, key);
      SortedSameOrderEqual(r[..|r| - 1], t[..|t| - 1], key);
      assert r == r[..|r| - 1] + [a] && t == t[..|t| - 1] + [b];
    }
  }

  /** Any result that is ordered by key and stable is the insertion sort's result. */
  lemma StableSortIsUnique<T>(s: seq<T>, r: seq<T>, key: T -> int)
    requires SortedBy(r, key) && SameOrderPerKey(r, s, key)
    ensures r == SortByKey(s, key)
  {
    SortByKeySorts(s, key);
    SortByKeySameOrderPerKey(s, key);
    SortedSameOrderEqual(r, SortByKey(s, key), key);
  }

  /** Sorting a sequence that is already ordered by key leaves it as it is. */
  lemma SortByKeyOfSorted<T>(s: seq<T>, key: T -> int)
    requires SortedBy(s, key)
    ensures SortByKey(s, key) == s
  {
    StableSortIsUnique(s, s, key);
  }

  /** Sorting twice gives the same sequence as sorting once. */
  lemma SortByKeyIdempotent<T>(s: seq<T>, key: T -> int)
    ensures SortByKey(SortByKey(s, key), key) == SortByKey(s, key)
  {
    SortByKeySorts(s, key);
    SortByKeyOfSorted(SortByKey(s, key), key);
  }

  /** Where the backward scan of `Insert` stops: after the last element whose key is at most `key(x)`. */
  lemma {:induction false} InsertAt<T>(s: seq<T>, x: T, key: T -> int, m: nat)
    requires m <= |s|
    requires m == 0 || key(s[m - 1]) <= key(x)
    requires forall j :: m <= j < |s| ==> key(s[j]) > key(x)
    ensures Insert(s, x, key) == s[..m] + [x] + s[m..]
    decreases |s|
  {
    if m < |s| {
      var init, last := s[..|s| - 1], s[|s| - 1];
      assert key(last) > key(x);
      assert Insert(s, x, key) == Insert(init, x, key) + [last];
      assert m == 0 || key(init[m - 1]) <= key(x);
      forall j | m <= j < |init| ensures key(init[j]) > key(x) {
        assert init[j] == s[j];
      }
      InsertAt(init, x, key, m);
      assert init[..m] == s[..m];
      assert init[m..] + [last] == s[m..];
      calc {
        Insert(s, x, key);
        Insert(init, x, key) + [last];
        s[..m] + [x] + init[m..] + [last];
        s[..m] + [x] + (init[m..] + [last]);
      }
    } else if s != [] {
      assert key(s[|s| - 1]) <= key(x);
      assert Insert(s, x, key) == s + [x];
      assert s[..m] == s && s[m..] == [];
    }
  }

  /** One step of the in-place insertion sort: shifts `a[i]` left into the prefix `a[..i]`. */
  method InsertInPlace<T>(a: array<T>, i: nat, key: T -> int)
    requires i < a.Length
    modifies a
    ensures a[..i + 1] == Insert(old(a[..i]), old(a[i]), key)
    ensures a[i + 1..] == old(a[i + 1..])
  {
    ghost var sorted := a[..i];
    var x := a[i];
    var j := i;
    while j > 0 && key(a[j - 1]) > key(x)
      invariant 0 <= j <= i
      invariant forall m :: 0 <= m < j ==> a[m] == sorted[m]
      invariant forall m :: j < m <= i ==> a[m] == sorted[m - 1]
      invariant forall m :: i < m < a.Length ==> a[m] == old(a[m])
      invariant forall m :: j <= m < i ==> key(sorted[m]) > key(x)
    {
      a[j] := a[j - 1];
      j := j - 1;
    }
    a[j] := x;
    InsertAt(sorted, x, key, j);
    ghost var spliced := sorted[..j] + [x] + sorted[j..];
    assert a[..i + 1] == spliced by {
      forall m | 0 <= m <= i ensures a[m] == spliced[m] {
        if m < j {
          assert spliced[m] == sorted[m];
        } else if m > j {
          assert spliced[m] == sorted[m - 1];
        }
      }
    }
  }

  /** `a.sort(...)`: sorts the array in place, as insertion sort does. */
  method SortInPlace<T>(a: array<T>, key: T -> int)
    modifies a
    ensures a[..] == SortByKey(old(a[..]), key)
  {
    ghost var orig := a[..];
    for i := 0 to a.Length
      invariant a[..i] == SortByKey(orig[..i], key)
      invariant a[i..] == orig[i..]
    {
      InsertInPlace(a, i, key);
      assert orig[..i + 1][..i] == orig[..i];
      assert a[i + 1..] == orig[i + 1..];
    }
    assert orig[..a.Length] == orig;
  }
}
