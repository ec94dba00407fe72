/** Sequence helpers standing in for Python list and str built-ins. */
module Seqs {

  /** `sum(xs)` */
  function Sum(xs: seq<real>): real
  {
    if xs == [] then 0.0 else Sum(xs[..|xs| - 1]) + xs[|xs| - 1]
  }

  /** Concatenation of a list of lists, defined from the back so that loops appending at the end follow it. */
  function Flatten<T>(ss: seq<seq<T>>): seq<T>
  {
    if ss == [] then [] else Flatten(ss[..|ss| - 1]) + ss[|ss| - 1]
  }

  lemma {:induction false} FlattenSnoc<T>(ss: seq<seq<T>>, s: seq<T>)
    ensures Flatten(ss + [s]) == Flatten(ss) + s
  {
    assert (ss + [s])[..|ss|] == ss;
  }

  /** Adding an item to the last of the lists adds it to the end of their concatenation. */
  lemma {:induction false} FlattenExtendLast<T>(ss: seq<seq<T>>, x: T)
    requires |ss| >= 1
    ensures Flatten(ss[..|ss| - 1] + [ss[|ss| - 1] + [x]]) == Flatten(ss) + [x]
  {
    var n := |ss| - 1;
    var init, last := ss[..n], ss[n];
    assert ss == init + [last];
    FlattenSnoc(init, last);
    FlattenSnoc(init, last + [x]);
    assert Flatten(init) + (last + [x]) == (Flatten(init) + last) + [x];
  }

  lemma {:induction false} FlattenAppend<T>(a: seq<seq<T>>, b: seq<seq<T>>)
    ensures Flatten(a + b) == Flatten(a) + Flatten(b)
    decreases |b|
  {
    if b == [] {
      assert a + b == a;
    } else {
      var b' := b[..|b| - 1];
      assert a + b == (a + b') + [b[|b| - 1]];
      assert b == b' + [b[|b| - 1]];
      FlattenSnoc(a + b', b[|b| - 1]);
      FlattenSnoc(b', b[|b| - 1]);
      FlattenAppend(a, b');
    }
  }

  /** Every element of the concatenation lies in one of the parts. */
  lemma {:induction false} FlattenMember<T>(ss: seq<seq<T>>, x: T)
    requires x in Flatten(ss)
    ensures exists i :: 0 <= i < |ss| && x in ss[i]
  {
    if ss != [] {
      var init := ss[..|ss| - 1];
      if x in Flatten(init) {
        FlattenMember(init, x);
        var i :| 0 <= i < |init| && x in init[i];
        assert ss[i] == init[i];
      } else {
        assert x in ss[|ss| - 1];
      }
    }
  }

  /** `sep.join(parts)` */
  function Join(parts: seq<string>, sep: string): string
  {
    if parts == [] then ""
    else if |parts| == 1 then parts[0]
    else Join(parts[..|parts| - 1], sep) + sep + parts[|parts| - 1]
  }

  /** Python's `s[:-2]`: drops the last two characters, or all of them when there are fewer. */
  function DropLastTwo(s: string): (r: string)
    ensures |r| == if |s| < 2 then 0 else |s| - 2
    ensures r <= s
  {
    if |s| < 2 then "" else s[..|s| - 2]
  }

  /** The number of occurrences of `x` in `s`. */
  function Count<T(==)>(s: seq<T>, x: T): nat
  {
    if s == [] then 0 else Count(s[..|s| - 1], x) + (if s[|s| - 1] == x then 1 else 0)
  }

  /** `len(set(s)) == len(s)`: no element occurs twice. */
  predicate Distinct<T(==)>(s: seq<T>)
  {
    forall i, j :: 0 <= i < j < |s| ==> s[i] != s[j]
  }

  /** The reversed list, as `list.reverse()` leaves it. */
  function Reverse<T>(s: seq<T>): (r: seq<T>)
    ensures |r| == |s|
    ensures forall i :: 0 <= i < |s| ==> r[i] == s[|s| - 1 - i]
  {
    if s == [] then [] else [s[|s| - 1]] + Reverse(s[..|s| - 1])
  }

  /** `[f(x) for x in s]` */
  function Map<T, U>(s: seq<T>, f: T -> U): (r: seq<U>)
    ensures |r| == |s|
    ensures forall i :: 0 <= i < |s| ==> r[i] == f(s[i])
  {
    if s == [] then [] else [f(s[0])] + Map(s[1..], f)
  }

  /** `s[:n]` */
  function Take<T>(s: seq<T>, n: nat): (r: seq<T>)
    ensures |r| == if n < |s| then n else |s|
    ensures r <= s
  {
    if n < |s| then s[..n] else s
  }

  lemma MapAppend<T, U>(a: seq<T>, b: seq<T>, f: T -> U)
    ensures Map(a + b, f) == Map(a, f) + Map(b, f)
  {
    assert forall i :: 0 <= i < |a| ==> (a + b)[i] == a[i];
    assert forall i :: 0 <= i < |b| ==> (a + b)[|a| + i] == b[i];
  }

  lemma MapTake<T, U>(s: seq<T>, n: nat, f: T -> U)
    ensures Map(Take(s, n), f) == Take(Map(s, f), n)
  {
  }
}
