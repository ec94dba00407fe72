/**
 * Python's `sorted(xs, key=k, reverse=True)` and `xs.sort(key=k, reverse=True)`:
 * a stable sort into non-increasing key order. Stability means that items with
 * equal keys keep the order they had before sorting.
 */
module Sorting {
  import opened Seqs

  predicate SortedDesc<T>(s: seq<T>, key: T -> real)
  {
    forall i, j :: 0 <= i < j < |s| ==> key(s[i]) >= key(s[j])
  }

  /** The items of `s` whose key is `v`, in their order in `s`. */
  function WithKey<T>(s: seq<T>, key: T -> real, v: real): seq<T>
  {
    if s == [] then []
    else (if key(s[0]) == v then [s[0]] else []) + WithKey(s[1..], key, v)
  }

  /** Puts `x` in front of the first item whose key is not greater than its own. */
  function Insert<T>(x: T, t: seq<T>, key: T -> real): seq<T>
  {
    if t == [] || key(t[0]) <= key(x) then [x] + t
    else [t[0]] + Insert(x, t[1..], key)
  }

  function SortDesc<T>(s: seq<T>, key: T -> real): seq<T>
  {
    if s == [] then [] else Insert(s[0], SortDesc(s[1..], key), key)
  }

  lemma {:induction false} InsertPermutes<T>(x: T, t: seq<T>, key: T -> real)
    ensures multiset(Insert(x, t, key)) == multiset(t) + multiset{x}
    ensures |Insert(x, t, key)| == |t| + 1
  {
    if !(t == [] || key(t[0]) <= key(x)) {
      InsertPermutes(x, t[1..], key);
      assert t == [t[0]] + t[1..];
    }
  }

  lemma SortedTail<T>(t: seq<T>, key: T -> real)
    requires t != [] && SortedDesc(t, key)
    ensures SortedDesc(t[1..], key)
    ensures forall k :: 0 <= k < |t[1..]| ==> key(t[1..][k]) <= key(t[0])
  {
    assert forall k :: 0 <= k < |t[1..]| ==> t[1..][k] == t[k + 1];
  }

  lemma {:induction false} InsertSorted<T>(x: T, t: seq<T>, key: T -> real)
    requires SortedDesc(t, key)
    ensures SortedDesc(Insert(x, t, key), key)
    ensures forall k :: 0 <= k < |Insert(x, t, key)| ==>
              key(Insert(x, t, key)[k]) <= key(x) || (t != [] && key(Insert(x, t, key)[k]) <= key(t[0]))
  {
    InsertPermutes(x, t, key);
    if t == [] || key(t[0]) <= key(x) {
      var r := [x] + t;
      forall i, j | 0 <= i < j < |r| ensures key(r[i]) >= key(r[j]) {
        if i > 0 { assert r[i] == t[i - 1] && r[j] == t[j - 1]; }
        else { assert r[j] == t[j - 1]; if j > 1 { assert key(t[0]) >= key(t[j - 1]); } }
      }
      forall k | 0 <= k < |r| ensures key(r[k]) <= key(x) {
        if k > 0 { assert r[k] == t[k - 1]; if k > 1 { assert key(t[0]) >= key(t[k - 1]); } }
      }
    } else {
      SortedTail(t, key);
      var rest := Insert(x, t[1..], key);
      InsertSorted(x, t[1..], key);
      var r := [t[0]] + rest;
      forall k | 0 <= k < |rest| ensures key(rest[k]) <= key(t[0]) {
      }
      forall i, j | 0 <= i < j < |r| ensures key(r[i]) >= key(r[j]) {
        if i == 0 { assert r[j] == rest[j - 1]; }
        else { assert r[i] == rest[i - 1] && r[j] == rest[j - 1]; }
      }
      forall k | 0 <= k < |r| ensures key(r[k]) <= key(t[0]) {
        if k > 0 { assert r[k] == rest[k - 1]; }
      }
    }
  }

  lemma {:induction false} InsertWithKey<T>(x: T, t: seq<T>, key: T -> real, v: real)
    ensures WithKey(Insert(x, t, key), key, v) == (if key(x) == v then [x] else []) + WithKey(t, key, v)
  {
    if t == [] || key(t[0]) <= key(x) {
      WithKeyCons(x, t, key, v);
    } else {
      var rest := Insert(x, t[1..], key);
      InsertWithKey(x, t[1..], key, v);
      WithKeyCons(t[0], rest, key, v);
      WithKeyCons(t[0], t[1..], key, v);
      assert [t[0]] + t[1..] == t;
      if key(x) == v {
        assert key(t[0]) != v;
      }
    }
  }

  lemma WithKeyCons<T>(y: T, rest: seq<T>, key: T -> real, v: real)
    ensures WithKey([y] + rest, key, v) == (if key(y) == v then [y] else []) + WithKey(rest, key, v)
  {
    assert ([y] + rest)[0] == y && ([y] + rest)[1..] == rest;
  }

  /** The sort puts its input into non-increasing key order. */
  lemma {:induction false} SortDescSorted<T>(s: seq<T>, key: T -> real)
    ensures SortedDesc(SortDesc(s, key), key)
    ensures |SortDesc(s, key)| == |s|
  {
    if s != [] {
      SortDescSorted(s[1..], key);
      InsertSorted(s[0], SortDesc(s[1..], key), key);
      InsertPermutes(s[0], SortDesc(s[1..], key), key);
    }
  }

  /** The sort only reorders its input. */
  lemma {:induction false} SortDescPermutes<T>(s: seq<T>, key: T -> real)
    ensures multiset(SortDesc(s, key)) == multiset(s)
  {
    if s != [] {
      SortDescPermutes(s[1..], key);
      InsertPermutes(s[0], SortDesc(s[1..], key), key);
      assert s == [s[0]] + s[1..];
    }
  }

  /** The sort is stable: items with equal keys come out in their input order. */
  lemma {:induction false} SortDescStable<T>(s: seq<T>, key: T -> real, v: real)
    ensures WithKey(SortDesc(s, key), key, v) == WithKey(s, key, v)
  {
    if s != [] {
      SortDescStable(s[1..], key, v);
      InsertWithKey(s[0], SortDesc(s[1..], key), key, v);
    }
  }

  /** The facts above, in one place for callers. */
  lemma SortDescSpec<T>(s: seq<T>, key: T -> real)
    ensures SortedDesc(SortDesc(s, key), key)
    ensures |SortDesc(s, key)| == |s|
    ensures multiset(SortDesc(s, key)) == multiset(s)
  {
    SortDescSorted(s, key);
    SortDescPermutes(s, key);
  }

  /** A prefix of a sorted list is sorted. */
  lemma SortedPrefix<T>(s: seq<T>, key: T -> real, n: nat)
    requires SortedDesc(s, key) && n <= |s|
    ensures SortedDesc(s[..n], key)
  {
    assert forall i :: 0 <= i < n ==> s[..n][i] == s[i];
  }

  /** Inserting commutes with a map that keeps the keys. */
  lemma {:induction false} InsertMap<T, U>(x: T, t: seq<T>, f: T -> U, key: T -> real, keyU: U -> real)
    requires forall y :: keyU(f(y)) == key(y)
    ensures Map(Insert(x, t, key), f) == Insert(f(x), Map(t, f), keyU)
  {
    if !(t == [] || key(t[0]) <= key(x)) {
      InsertMap(x, t[1..], f, key, keyU);
      assert Map(t, f)[1..] == Map(t[1..], f);
    }
  }

  /** Sorting and then mapping is mapping and then sorting, when the map keeps the keys. */
  lemma {:induction false} SortDescMap<T, U>(s: seq<T>, f: T -> U, key: T -> real, keyU: U -> real)
    requires forall y :: keyU(f(y)) == key(y)
    ensures Map(SortDesc(s, key), f) == SortDesc(Map(s, f), keyU)
  {
    if s != [] {
      SortDescMap(s[1..], f, key, keyU);
      InsertMap(s[0], SortDesc(s[1..], key), f, key, keyU);
      assert Map(s, f)[1..] == Map(s[1..], f);
    }
  }

  /** The items of a prefix with a given key are a prefix of the items with that key. */
  lemma {:induction false} WithKeyPrefix<T>(s: seq<T>, n: nat, key: T -> real, v: real)
    requires n <= |s|
    ensures WithKey(s[..n], key, v) <= WithKey(s, key, v)
  {
    if n > 0 {
      WithKeyPrefix(s[1..], n - 1, key, v);
      assert s[..n][1..] == s[1..][..n - 1];
      assert s[..n][0] == s[0];
    }
  }

  /** No item of `s` left out of `top` has a greater key than an item of `top`. */
  ghost predicate KeepsBest<T>(top: seq<T>, s: seq<T>, key: T -> real)
  {
    forall x, y :: x in top && y in s && y !in top ==> key(y) <= key(x)
  }

  /**
   * The first `n` after a descending sort: at most `n` items of `s`, sorted,
   * none of them beaten by an item left out.
   */
  lemma TopSpec<T>(s: seq<T>, key: T -> real, n: nat)
    ensures |Take(SortDesc(s, key), n)| == if n < |s| then n else |s|
    ensures SortedDesc(Take(SortDesc(s, key), n), key)
    ensures forall x :: x in Take(SortDesc(s, key), n) ==> x in s
    ensures KeepsBest(Take(SortDesc(s, key), n), s, key)
  {
    var sorted := SortDesc(s, key);
    SortDescSpec(s, key);
    var r := Take(sorted, n);
    SortedPrefix(sorted, key, |r|);
    assert r == sorted[..|r|];
    forall x | x in r ensures x in s {
      assert x in multiset(sorted);
    }
    forall x, y | x in r && y in s && y !in r ensures key(y) <= key(x) {
      assert y in multiset(sorted);
      var j :| 0 <= j < |sorted| && sorted[j] == y;
      var i :| 0 <= i < |r| && r[i] == x;
      assert j >= |r|;
    }
  }
}
