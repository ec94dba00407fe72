/**
 * `__filter_by_type_and_split`: the steps of a test case cut into pages at
 * every page-transition marker, keeping only the steps of one class.
 */
module PageSplit {
  import opened Seqs
  import opened Operation

  /** The two classes the strategy filters by. */
  datatype TargetClass = LocatableClass | CodableClass

  /** `isinstance(step, target_class)` */
  predicate IsA(s: Step, c: TargetClass)
  {
    match c
    case LocatableClass => s.IsLocatable()
    case CodableClass => s.IsCodable()
  }

  /** The pages of `steps`, the last one still open; defined step by step from the back. */
  function Pages(steps: seq<Step>, c: TargetClass): (r: seq<seq<Step>>)
    ensures |r| >= 1
  {
    if steps == [] then [[]]
    else
      var prev := Pages(steps[..|steps| - 1], c);
      var s := steps[|steps| - 1];
      if s.PageTransition? then prev + [[]]
      else if IsA(s, c) then prev[..|prev| - 1] + [prev[|prev| - 1] + [s]]
      else prev
  }

  /** `__filter_by_type_and_split`: `result` holds the closed pages, `page` the open one. */
  method FilterByTypeAndSplit(steps: seq<Step>, c: TargetClass) returns (result: seq<seq<Step>>)
    ensures result == Pages(steps, c)
  {
    result := [];
    var page: seq<Step> := [];
    for i := 0 to |steps|
      invariant result + [page] == Pages(steps[..i], c)
    {
      var s := steps[i];
      assert steps[..i + 1][..i] == steps[..i];
      if s.PageTransition? {
        result := result + [page];
        page := [];
      } else if IsA(s, c) {
        assert (result + [page])[..|result|] == result;
        page := page + [s];
      }
    }
    assert steps[..|steps|] == steps;
    result := result + [page];
  }

  /** The number of page-transition markers. */
  function Transitions(steps: seq<Step>): nat
  {
    if steps == [] then 0
    else Transitions(steps[..|steps| - 1]) + (if steps[|steps| - 1].PageTransition? then 1 else 0)
  }

  /** The steps of class `c`, in order. */
  function OfClass(steps: seq<Step>, c: TargetClass): (r: seq<Step>)
    ensures forall i :: 0 <= i < |r| ==> IsA(r[i], c)
  {
    if steps == [] then []
    else
      var s := steps[|steps| - 1];
      OfClass(steps[..|steps| - 1], c) + (if IsA(s, c) then [s] else [])
  }

  /** Every step of every page is of class `c`. */
  lemma {:induction false} PagesOfClass(steps: seq<Step>, c: TargetClass)
    ensures forall i, j :: 0 <= i < |Pages(steps, c)| && 0 <= j < |Pages(steps, c)[i]| ==> IsA(Pages(steps, c)[i][j], c)
  {
    if steps != [] {
      var init := steps[..|steps| - 1];
      var s := steps[|steps| - 1];
      var prev := Pages(init, c);
      PagesOfClass(init, c);
      if !s.PageTransition? && IsA(s, c) {
        var n := |prev| - 1;
        var r := Pages(steps, c);
        assert r == prev[..n] + [prev[n] + [s]];
        forall i, j | 0 <= i < |r| && 0 <= j < |r[i]| ensures IsA(r[i][j], c) {
          if i < n {
            assert r[i] == prev[i];
          } else if j < |prev[n]| {
            assert r[i][j] == prev[n][j];
          }
        }
      }
    }
  }

  /** One page per transition marker, and one more. */
  lemma {:induction false} PagesCount(steps: seq<Step>, c: TargetClass)
    ensures |Pages(steps, c)| == Transitions(steps) + 1
  {
    if steps != [] {
      PagesCount(steps[..|steps| - 1], c);
    }
  }

  /** Read one after the other, the pages are exactly the steps of class `c`, in order. */
  lemma {:induction false} PagesFlatten(steps: seq<Step>, c: TargetClass)
    ensures Flatten(Pages(steps, c)) == OfClass(steps, c)
  {
    if steps != [] {
      var init := steps[..|steps| - 1];
      var s := steps[|steps| - 1];
      var prev := Pages(init, c);
      PagesFlatten(init, c);
      if s.PageTransition? {
        FlattenSnoc(prev, []);
      } else if IsA(s, c) {
        FlattenExtendLast(prev, s);
      }
    }
  }

  /**
   * The locatable pages are the codable pages with the assertions and
   * `open` steps taken out, page by page, so the two splits line up.
   */
  lemma {:induction false} PagesLineUp(steps: seq<Step>)
    ensures |Pages(steps, LocatableClass)| == |Pages(steps, CodableClass)|
    ensures forall i :: 0 <= i < |Pages(steps, CodableClass)| ==>
      Pages(steps, LocatableClass)[i] == OfClass(Pages(steps, CodableClass)[i], LocatableClass)
  {
    if steps != [] {
      var init := steps[..|steps| - 1];
      var s := steps[|steps| - 1];
      PagesLineUp(init);
      if s.PageTransition? {
        LineUpTransition(init, s);
      } else {
        LineUpStep(init, s);
      }
    }
  }

  lemma LineUpTransition(init: seq<Step>, s: Step)
    requires s.PageTransition?
    requires |Pages(init, LocatableClass)| == |Pages(init, CodableClass)|
    requires forall i :: 0 <= i < |Pages(init, CodableClass)| ==>
      Pages(init, LocatableClass)[i] == OfClass(Pages(init, CodableClass)[i], LocatableClass)
    ensures Pages(init + [s], LocatableClass) == Pages(init, LocatableClass) + [[]]
    ensures Pages(init + [s], CodableClass) == Pages(init, CodableClass) + [[]]
    ensures forall i :: 0 <= i < |Pages(init + [s], CodableClass)| ==>
      Pages(init + [s], LocatableClass)[i] == OfClass(Pages(init + [s], CodableClass)[i], LocatableClass)
  {
    assert (init + [s])[..|init|] == init;
  }

  lemma LineUpStep(init: seq<Step>, s: Step)
    requires !s.PageTransition?
    requires |Pages(init, LocatableClass)| == |Pages(init, CodableClass)|
    requires forall i :: 0 <= i < |Pages(init, CodableClass)| ==>
      Pages(init, LocatableClass)[i] == OfClass(Pages(init, CodableClass)[i], LocatableClass)
    ensures |Pages(init + [s], LocatableClass)| == |Pages(init + [s], CodableClass)|
    ensures forall i :: 0 <= i < |Pages(init + [s], CodableClass)| ==>
      Pages(init + [s], LocatableClass)[i] == OfClass(Pages(init + [s], CodableClass)[i], LocatableClass)
  {
    var steps := init + [s];
    assert steps[..|init|] == init;
    var lp := Pages(init, LocatableClass);
    var cp := Pages(init, CodableClass);
    var n := |cp| - 1;
    assert Pages(steps, CodableClass) == cp[..n] + [cp[n] + [s]];
    if s.IsLocatable() {
      assert Pages(steps, LocatableClass) == lp[..n] + [lp[n] + [s]];
    } else {
      assert Pages(steps, LocatableClass) == lp;
    }
    LineUpLast(lp, cp, s);
  }

  /** Adding a step to the last codable page adds it to the last locatable page when it is locatable. */
  lemma LineUpLast(lp: seq<seq<Step>>, cp: seq<seq<Step>>, s: Step)
    requires |lp| == |cp| >= 1
    requires forall i :: 0 <= i < |cp| ==> lp[i] == OfClass(cp[i], LocatableClass)
    ensures var n := |cp| - 1;
      var lp' := if s.IsLocatable() then lp[..n] + [lp[n] + [s]] else lp;
      var cp' := cp[..n] + [cp[n] + [s]];
      forall i :: 0 <= i < |cp'| ==> lp'[i] == OfClass(cp'[i], LocatableClass)
  {
    var n := |cp| - 1;
    var g := cp[n] + [s];
    assert g[..|g| - 1] == cp[n];
    assert OfClass(g, LocatableClass) == lp[n] + (if s.IsLocatable() then [s] else []);
  }
}
