/** `itertools.product(*lists)`: every way of picking one item from each list, in its order. */
module Products {

  /** `[[x] + t for t in tails]` */
  function ConsAll<T>(x: T, tails: seq<seq<T>>): (r: seq<seq<T>>)
    ensures |r| == |tails|
    ensures forall i :: 0 <= i < |tails| ==> r[i] == [x] + tails[i]
  {
    seq(|tails|, i requires 0 <= i < |tails| => [x] + tails[i])
  }

  /** The tuples that start with an item of `heads` and continue with one of `tails`, heads varying slowest. */
  function ProductFrom<T>(heads: seq<T>, tails: seq<seq<T>>): seq<seq<T>>
  {
    if heads == [] then [] else ConsAll(heads[0], tails) + ProductFrom(heads[1..], tails)
  }

  /** The last list varies fastest; the product of no lists is the one empty tuple. */
  function Product<T>(lists: seq<seq<T>>): seq<seq<T>>
  {
    if lists == [] then [[]] else ProductFrom(lists[0], Product(lists[1..]))
  }

  /** `t` takes its i-th item from the i-th list. */
  ghost predicate Picks<T>(t: seq<T>, lists: seq<seq<T>>)
  {
    |t| == |lists| && forall i :: 0 <= i < |t| ==> t[i] in lists[i]
  }

  /** The product of the list lengths. */
  function Size<T>(lists: seq<seq<T>>): nat
  {
    if lists == [] then 1 else |lists[0]| * Size(lists[1..])
  }

  lemma {:induction false} ProductFromMember<T>(heads: seq<T>, tails: seq<seq<T>>, t: seq<T>)
    ensures t in ProductFrom(heads, tails) <==> |t| > 0 && t[0] in heads && t[1..] in tails
  {
    if heads != [] {
      ProductFromMember(heads[1..], tails, t);
      assert heads == [heads[0]] + heads[1..];
      if t in ConsAll(heads[0], tails) {
        var i :| 0 <= i < |tails| && ConsAll(heads[0], tails)[i] == t;
        assert t[1..] == tails[i];
      }
      if |t| > 0 && t[0] == heads[0] && t[1..] in tails {
        var i :| 0 <= i < |tails| && tails[i] == t[1..];
        assert ConsAll(heads[0], tails)[i] == t;
      }
    }
  }

  /** The product holds exactly the tuples that pick one item from each list. */
  lemma {:induction false} ProductMember<T>(lists: seq<seq<T>>, t: seq<T>)
    ensures t in Product(lists) <==> Picks(t, lists)
  {
    if lists == [] {
    } else {
      ProductFromMember(lists[0], Product(lists[1..]), t);
      if |t| > 0 {
        ProductMember(lists[1..], t[1..]);
        if Picks(t, lists) {
          forall i | 0 <= i < |t[1..]| ensures t[1..][i] in lists[1..][i] {
            assert t[1..][i] == t[i + 1];
          }
        }
        if t[0] in lists[0] && Picks(t[1..], lists[1..]) {
          forall i | 0 <= i < |t| ensures t[i] in lists[i] {
            if i > 0 { assert t[i] == t[1..][i - 1]; }
          }
        }
      }
    }
  }

  lemma {:induction false} ProductFromSize<T>(heads: seq<T>, tails: seq<seq<T>>)
    ensures |ProductFrom(heads, tails)| == |heads| * |tails|
  {
    if heads != [] {
      ProductFromSize(heads[1..], tails);
      calc {
        |ProductFrom(heads, tails)|;
        |tails| + (|heads| - 1) * |tails|;
        { assert (|heads| - 1) * |tails| == |heads| * |tails| - |tails|; }
        |heads| * |tails|;
      }
    }
  }

  /** The number of tuples is the product of the list lengths. */
  lemma {:induction false} ProductSize<T>(lists: seq<seq<T>>)
    ensures |Product(lists)| == Size(lists)
  {
    if lists != [] {
      ProductSize(lists[1..]);
      ProductFromSize(lists[0], Product(lists[1..]));
    }
  }

  lemma {:induction false} MulMono(x: nat, y: nat, z: nat)
    requires x <= y
    ensures x * z <= y * z
  {
    if z > 0 {
      MulMono(x, y, z - 1);
      assert x * z == x * (z - 1) + x;
      assert y * z == y * (z - 1) + y;
    }
  }

  /** Three lengths between 1 and `w` multiply to between 1 and `w`³. */
  lemma WidthCube(a: nat, b: nat, c: nat, w: nat)
    requires 1 <= a <= w && 1 <= b <= w && 1 <= c <= w
    ensures 1 <= a * b * c <= w * w * w
  {
    MulMono(1, a, b);
    MulMono(a, w, b);
    MulMono(b, w, w);
    assert w * b == b * w;
    var ab := a * b;
    MulMono(1, ab, c);
    MulMono(ab, w * w, c);
    MulMono(c, w, w * w);
    assert c * (w * w) == (w * w) * c;
    assert w * (w * w) == w * w * w;
  }
}
