/**
 * Python's `list.sort(key=...)` for string keys: a stable sort by code-point order of
 * the keys. The specification is `StableSort`, an insertion sort written as a function;
 * `SortInPlace` is the in-place algorithm on an array, proved to produce exactly the
 * same sequence.
 */
module StableSorting {
  import opened Text

  ghost predicate SortedByKey<T>(s: seq<T>, key: T -> string) {
    forall i, j :: 0 <= i < j < |s| ==> LexLe(key(s[i]), key(s[j]))
  }

  /** The elements of `s` whose key is `k`, in their order in `s`. A sort is stable when it
      leaves every one of these subsequences as it was. */
  function WithKey<T>(s: seq<T>, key: T -> string, k: string): (r: seq<T>)
    ensures |r| <= |s|
  {
    if s == [] then []
    else (if key(s[0]) == k then [s[0]] else []) + WithKey(s[1..], key, k)
  }

  /** Every element of `WithKey(s, key, k)` comes from `s` and has key `k`. */
  lemma {:induction false} WithKeyElements<T>(s: seq<T>, key: T -> string, k: string, i: int)
    requires 0 <= i < |WithKey(s, key, k)|
    ensures WithKey(s, key, k)[i] in s && key(WithKey(s, key, k)[i]) == k
  {
    var head := if key(s[0]) == k then [s[0]] else [];
    if i >= |head| {
      WithKeyElements(s[1..], key, k, i - |head|);
    }
  }

  /** Every element of `s` with key `k` is in `WithKey(s, key, k)`. */
  lemma {:induction false} WithKeyComplete<T>(s: seq<T>, key: T -> string, j: int)
    requires 0 <= j < |s|
    ensures s[j] in WithKey(s, key, key(s[j]))
  {
    if j > 0 {
      WithKeyComplete(s[1..], key, j - 1);
    }
  }

  lemma {:induction false} WithKeyAppend<T>(s: seq<T>, t: seq<T>, key: T -> string, k: string)
    ensures WithKey(s + t, key, k) == WithKey(s, key, k) + WithKey(t, key, k)
  {
    if s != [] {
      assert (s + t)[1..] == s[1..] + t;
      WithKeyAppend(s[1..], t, key, k);
    } else {
      assert s + t == t;
    }
  }

  /** Inserts `x` after every element whose key is not greater than its own. */
  function Insert<T>(x: T, s: seq<T>, key: T -> string): seq<T> {
    if s == [] then [x]
    else if LexLe(key(s[0]), key(x)) then [s[0]] + Insert(x, s[1..], key)
    else [x] + s
  }

  function StableSort<T>(s: seq<T>, key: T -> string): seq<T> {
    if s == [] then [] else Insert(s[|s| - 1], StableSort(s[..|s| - 1], key), key)
  }

  lemma {:induction false} InsertPermutes<T>(x: T, s: seq<T>, key: T -> string)
    ensures multiset(Insert(x, s, key)) == multiset(s) + multiset{x}
  {
    if s != [] && LexLe(key(s[0]), key(x)) {
      InsertPermutes(x, s[1..], key);
      assert s == [s[0]] + s[1..];
    }
  }

  lemma {:induction false} InsertSorted<T>(x: T, s: seq<T>, key: T -> string)
    requires SortedByKey(s, key)
    ensures SortedByKey(Insert(x, s, key), key)
  {
    var r := Insert(x, s, key);
    if s == [] {
    } else if LexLe(key(s[0]), key(x)) {
      var tail := Insert(x, s[1..], key);
      InsertSorted(x, s[1..], key);
      InsertPermutes(x, s[1..], key);
      forall j | 0 < j < |r|
        ensures LexLe(key(r[0]), key(r[j]))
      {
        assert r[j] == tail[j - 1];
        assert r[j] in multiset(tail);
        if r[j] != x {
          assert r[j] in multiset(s[1..]);
          var m :| 0 <= m < |s[1..]| && s[1..][m] == r[j];
          assert s[m + 1] == r[j];
        }
      }
    } else {
      forall j | 0 <= j < |s|
        ensures LexLe(key(x), key(s[j]))
      {
        LexLeTotal(key(s[0]), key(x));
        if j > 0 { LexLeTransitive(key(x), key(s[0]), key(s[j])); }
      }
      assert forall j :: 0 < j < |r| ==> r[j] == s[j - 1];
    }
  }

  /** Inserting into a sorted sequence puts `x` after everything with its key. */
  lemma {:induction false} InsertWithKey<T>(x: T, s: seq<T>, key: T -> string, k: string)
    requires SortedByKey(s, key)
    ensures WithKey(Insert(x, s, key), key, k) == WithKey(s, key, k) + (if key(x) == k then [x] else [])
  {
    if s == [] {
    } else if LexLe(key(s[0]), key(x)) {
      InsertWithKey(x, s[1..], key, k);
      WithKeyAppend([s[0]], Insert(x, s[1..], key), key, k);
      WithKeyAppend([s[0]], s[1..], key, k);
      assert s == [s[0]] + s[1..];
    } else {
      WithKeyAppend([x], s, key, k);
      if key(x) == k && WithKey(s, key, k) != [] {
        WithKeyElements(s, key, k, 0);
        var j :| 0 <= j < |s| && s[j] == WithKey(s, key, k)[0];
        if j == 0 {
          LexLeReflexive(key(x));
        }
        assert false;
      }
    }
  }

  /** The reference sort is sorted, a permutation of its input, and stable. */
  lemma {:induction false} StableSortCorrect<T>(s: seq<T>, key: T -> string)
    ensures SortedByKey(StableSort(s, key), key)
    ensures multiset(StableSort(s, key)) == multiset(s)
    ensures forall k :: WithKey(StableSort(s, key), key, k) == WithKey(s, key, k)
  {
    if s != [] {
      var init, last := s[..|s| - 1], s[|s| - 1];
      StableSortCorrect(init, key);
      InsertSorted(last, StableSort(init, key), key);
      InsertPermutes(last, StableSort(init, key), key);
      assert s == init + [last];
      forall k
        ensures WithKey(StableSort(s, key), key, k) == WithKey(s, key, k)
      {
        InsertWithKey(last, StableSort(init, key), key, k);
        WithKeyAppend(init, [last], key, k);
      }
    }
  }

  /** A sorted sequence is determined by its per-key subsequences: there is only one
      stable sorted arrangement of a list. */
  lemma {:induction false} SortedUnique<T>(r: seq<T>, r': seq<T>, key: T -> string)
    requires SortedByKey(r, key) && SortedByKey(r', key)
    requires forall k :: WithKey(r, key, k) == WithKey(r', key, k)
    ensures r == r'
  {
    if r == [] || r' == [] {
      if r != [] {
        WithKeyComplete(r, key, 0);
        assert false;
      }
      if r' != [] {
        WithKeyComplete(r', key, 0);
        assert false;
      }
    } else {
      var a, b := r[0], r'[0];
      FirstKeysAgree(r, r', key);
      var m := key(a);
      assert WithKey(r, key, m) == [a] + WithKey(r[1..], key, m);
      assert WithKey(r', key, m) == [b] + WithKey(r'[1..], key, m);
      assert WithKey(r, key, m)[0] == a;
      assert WithKey(r', key, m)[0] == b;
      assert a == b;
      forall k
        ensures WithKey(r[1..], key, k) == WithKey(r'[1..], key, k)
      {
        var head := if m == k then [a] else [];
        assert WithKey(r, key, k) == head + WithKey(r[1..], key, k);
        assert WithKey(r', key, k) == head + WithKey(r'[1..], key, k);
        assert WithKey(r[1..], key, k) == WithKey(r, key, k)[|head|..];
        assert WithKey(r'[1..], key, k) == WithKey(r', key, k)[|head|..];
      }
      SortedUnique(r[1..], r'[1..], key);
      assert r == [a] + r[1..];
      assert r' == [b] + r'[1..];
    }
  }

  /** Two sorted sequences with the same per-key subsequences start with the same key. */
  lemma FirstKeysAgree<T>(r: seq<T>, r': seq<T>, key: T -> string)
    requires r != [] && r' != []
    requires SortedByKey(r, key) && SortedByKey(r', key)
    requires forall k :: WithKey(r, key, k) == WithKey(r', key, k)
    ensures key(r[0]) == key(r'[0])
  {
    var a, b := r[0], r'[0];
    LexLeReflexive(key(a));
    LexLeReflexive(key(b));
    WithKeyComplete(r, key, 0);
    assert a in WithKey(r', key, key(a));
    var ia :| 0 <= ia < |WithKey(r', key, key(a))| && WithKey(r', key, key(a))[ia] == a;
    WithKeyElements(r', key, key(a), ia);
    var ja :| 0 <= ja < |r'| && r'[ja] == a;
    assert LexLe(key(b), key(a));
    WithKeyComplete(r', key, 0);
    assert b in WithKey(r, key, key(b));
    var ib :| 0 <= ib < |WithKey(r, key, key(b))| && WithKey(r, key, key(b))[ib] == b;
    WithKeyElements(r, key, key(b), ib);
    var jb :| 0 <= jb < |r| && r[jb] == b;
    assert LexLe(key(a), key(b));
    LexLeAntisymmetric(key(a), key(b));
  }

  /** Sorting what is already sorted changes nothing. */
  lemma SortSortedIsIdentity<T>(s: seq<T>, key: T -> string)
    requires SortedByKey(s, key)
    ensures StableSort(s, key) == s
  {
    StableSortCorrect(s, key);
    SortedUnique(StableSort(s, key), s, key);
  }

  /** Swapping two neighbours with different keys leaves every per-key subsequence alone. */
  lemma SwapKeepsWithKey<T>(s: seq<T>, s': seq<T>, j: int, key: T -> string)
    requires 0 < j < |s| == |s'|
    requires key(s[j - 1]) != key(s[j])
    requires s'[j - 1] == s[j] && s'[j] == s[j - 1]
    requires forall m :: 0 <= m < |s| && m != j - 1 && m != j ==> s'[m] == s[m]
    ensures forall k :: WithKey(s', key, k) == WithKey(s, key, k)
  {
    assert s == s[..j - 1] + [s[j - 1], s[j]] + s[j + 1..];
    assert s' == s[..j - 1] + [s[j], s[j - 1]] + s[j + 1..];
    forall k
      ensures WithKey(s', key, k) == WithKey(s, key, k)
    {
      WithKeyAppend(s[..j - 1] + [s[j - 1], s[j]], s[j + 1..], key, k);
      WithKeyAppend(s[..j - 1] + [s[j], s[j - 1]], s[j + 1..], key, k);
      WithKeyAppend(s[..j - 1], [s[j - 1], s[j]], key, k);
      WithKeyAppend(s[..j - 1], [s[j], s[j - 1]], key, k);
      WithKeyAppend([s[j - 1]], [s[j]], key, k);
      WithKeyAppend([s[j]], [s[j - 1]], key, k);
    }
  }

  /** `list.sort(key=key)` on the list held in `a`: insertion sort by adjacent swaps of
      strictly out-of-order neighbours, which never reorders equal keys. */
  method SortInPlace<T>(a: array<T>, key: T -> string)
    modifies a
    ensures a[..] == StableSort(old(a[..]), key)
  {
    if a.Length == 0 {
      return;
    }
    var i := 1;
    while i < a.Length
      invariant 1 <= i <= a.Length
      invariant forall p, q :: 0 <= p < q < i ==> LexLe(key(a[p]), key(a[q]))
      invariant forall k :: WithKey(a[..], key, k) == WithKey(old(a[..]), key, k)
    {
      var j := i;
      while j > 0 && !LexLe(key(a[j - 1]), key(a[j]))
        invariant 0 <= j <= i
        invariant forall p, q :: 0 <= p < q <= i && p != j && q != j ==> LexLe(key(a[p]), key(a[q]))
        invariant forall q :: j < q <= i ==> LexLe(key(a[j]), key(a[q]))
        invariant forall k :: WithKey(a[..], key, k) == WithKey(old(a[..]), key, k)
      {
        ghost var before := a[..];
        LexLeReflexive(key(a[j]));
        LexLeTotal(key(a[j - 1]), key(a[j]));
        a[j - 1], a[j] := a[j], a[j - 1];
        SwapKeepsWithKey(before, a[..], j, key);
        forall q | j < q <= i
          ensures LexLe(key(a[j - 1]), key(a[q]))
        {
          LexLeTransitive(key(a[j - 1]), key(a[j]), key(a[q]));
        }
        j := j - 1;
      }
      forall p, q | 0 <= p < q <= i
        ensures LexLe(key(a[p]), key(a[q]))
      {
        if q == j && p < j - 1 {
          LexLeTransitive(key(a[p]), key(a[j - 1]), key(a[j]));
        }
      }
      i := i + 1;
    }
    StableSortCorrect(old(a[..]), key);
    SortedUnique(a[..], StableSort(old(a[..]), key), key);
  }
}
