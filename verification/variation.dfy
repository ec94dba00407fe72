/**
 * The value objects of the transition-matching search: a `Variation` is one
 * choice of page elements for the steps of one kind, a `PageVariation` one
 * such choice (or none) per locatable kind on a page.
 */
module Variations {
  import opened Wrappers
  import opened Elements
  import opened Operation
  import L = Locators

  /** The elements chosen for the steps of one kind, in step order, and their score. */
  datatype Variation = Variation(elems: seq<Element>, score: real)

  /** What a kind adds to a page's score: its variation's score, or nothing when it has none. */
  function Contribution(v: Option<Variation>): real
  {
    if v.Some? then v.value.score else 0.0
  }

  /** The kinds `score` visits, in its order. */
  const Kinds: seq<L.OperationType> := [L.OperationType.Enter, L.OperationType.Select, L.OperationType.Click]

  datatype PageVariation = PageVariation(enter: Option<Variation>, select: Option<Variation>, click: Option<Variation>)
  {
    /** `get(operation_type)` */
    function Get(t: L.OperationType): (r: Option<Variation>)
      requires t.IsLocatable()
      ensures t == L.OperationType.Enter ==> r == enter
      ensures t == L.OperationType.Select ==> r == select
      ensures t == L.OperationType.Click ==> r == click
    {
      match t
      case Enter => enter
      case Select => select
      case _ => click
    }

    /** The score of a page variation: what the three kinds contribute together. */
    function Score(): real
    {
      Contribution(enter) + Contribution(select) + Contribution(click)
    }
  }

  /**
   * `PageVariation.score`: starts from 0 and adds the score of every kind that
   * has a variation, so a kind without one adds exactly nothing.
   */
  method ComputeScore(pv: PageVariation) returns (total: real)
    ensures total == pv.Score()
  {
    total := 0.0;
    for i := 0 to |Kinds|
      invariant total == if i == 0 then 0.0
                         else if i == 1 then Contribution(pv.enter)
                         else if i == 2 then Contribution(pv.enter) + Contribution(pv.select)
                         else pv.Score()
    {
      var v := pv.Get(Kinds[i]);
      if v.Some? {
        total := total + v.value.score;
      }
    }
  }

  // ---------------------------------------------------------------------------
  // Rendering one page's steps with a page variation

  /** How many of `steps` are locatable steps of kind `t`. */
  function KindCount(steps: seq<Step>, t: L.OperationType): nat
  {
    if steps == [] then 0
    else
      var s := steps[|steps| - 1];
      KindCount(steps[..|steps| - 1], t) + (if s.IsLocatable() && s.OperationType() == t then 1 else 0)
  }

  predicate AllCodable(steps: seq<Step>)
  {
    forall i :: 0 <= i < |steps| ==> steps[i].IsCodable()
  }

  /** `indexes[t]` of a `defaultdict(int)`. */
  function Index(indexes: map<L.OperationType, nat>, t: L.OperationType): nat
  {
    if t in indexes then indexes[t] else 0
  }

  /**
   * The code lines of `steps` under `pv`, and the path locators handed to the
   * locator writer along the way, step by step.
   */
  function CodeOf(pv: PageVariation, steps: seq<Step>): Result<(seq<string>, seq<L.Locator>)>
    requires AllCodable(steps)
  {
    if steps == [] then Ok(([], []))
    else
      var init := steps[..|steps| - 1];
      var s := steps[|steps| - 1];
      StepCode(pv, CodeOf(pv, init), s, KindCount(init, s.OperationType()))
  }

  /**
   * One more step after `prev`, when `k` steps of its kind came before it. A
   * locatable step whose kind has no variation is skipped; otherwise it takes
   * the k-th element of its kind's variation, and there being none is an
   * `IndexError`.
   */
  function StepCode(pv: PageVariation, prev: Result<(seq<string>, seq<L.Locator>)>, s: Step, k: nat): Result<(seq<string>, seq<L.Locator>)>
    requires s.IsCodable()
  {
    if prev.Err? then prev
    else if !s.IsLocatable() then Ok((prev.value.0 + [PlainCode(s)], prev.value.1))
    else
      var v := pv.Get(s.OperationType());
      if v.None? then prev
      else if k < |v.value.elems| then
        var e := v.value.elems[k];
        Ok((prev.value.0 + [LocatableCode(s, e.GetLocator())], prev.value.1 + [e.GetXPath()]))
      else Err(IndexError)
  }

  /** `PageVariation.to_code`: walks the steps keeping one running index per kind. */
  method ToCode(pv: PageVariation, steps: seq<Step>) returns (r: Result<(seq<string>, seq<L.Locator>)>)
    requires AllCodable(steps)
    ensures r == CodeOf(pv, steps)
  {
    var indexes: map<L.OperationType, nat> := map[];
    var lines: seq<string> := [];
    var locs: seq<L.Locator> := [];
    for i := 0 to |steps|
      invariant CodeOf(pv, steps[..i]) == Ok((lines, locs))
      invariant forall t: L.OperationType :: t.IsLocatable() && pv.Get(t).Some? ==> Index(indexes, t) == KindCount(steps[..i], t)
    {
      var s := steps[i];
      CodeSnoc(pv, steps, i);
      if s.IsLocatable() {
        var t := s.OperationType();
        var v := pv.Get(t);
        if v.Some? {
          var k := Index(indexes, t);
          if k >= |v.value.elems| {
            CodeErrSticks(pv, steps, i + 1);
            assert steps[..|steps|] == steps;
            return Err(IndexError);
          }
          var e := v.value.elems[k];
          indexes := indexes[t := k + 1];
          lines := lines + [LocatableCode(s, e.GetLocator())];
          locs := locs + [e.GetXPath()];
        }
      } else {
        lines := lines + [PlainCode(s)];
      }
    }
    assert steps[..|steps|] == steps;
    r := Ok((lines, locs));
  }

  /** One more step of `steps` renders by `StepCode` and counts towards its own kind only. */
  lemma CodeSnoc(pv: PageVariation, steps: seq<Step>, i: nat)
    requires AllCodable(steps) && i < |steps|
    ensures CodeOf(pv, steps[..i + 1]) == StepCode(pv, CodeOf(pv, steps[..i]), steps[i], KindCount(steps[..i], steps[i].OperationType()))
    ensures forall t :: KindCount(steps[..i + 1], t) == KindCount(steps[..i], t) + (if steps[i].IsLocatable() && steps[i].OperationType() == t then 1 else 0)
  {
    assert steps[..i + 1][..i] == steps[..i];
  }

  /** Once a prefix fails, the whole rendering fails with the same error. */
  lemma {:induction false} CodeErrSticks(pv: PageVariation, steps: seq<Step>, i: nat)
    requires AllCodable(steps) && i <= |steps|
    requires CodeOf(pv, steps[..i]) == Err(IndexError)
    ensures CodeOf(pv, steps) == Err(IndexError)
    decreases |steps| - i
  {
    if i < |steps| {
      assert steps[..i + 1][..i] == steps[..i];
      CodeErrSticks(pv, steps, i + 1);
    } else {
      assert steps[..i] == steps;
    }
  }

  /** Every kind that has a variation has at least as many elements as the steps of that kind. */
  predicate Fits(pv: PageVariation, steps: seq<Step>)
  {
    forall t: L.OperationType :: t.IsLocatable() && pv.Get(t).Some? ==> KindCount(steps, t) <= |pv.Get(t).value.elems|
  }

  /** How many of `steps` are locatable steps whose kind has a variation (`placed`) or has none. */
  function Placed(pv: PageVariation, steps: seq<Step>, placed: bool): nat
  {
    if steps == [] then 0
    else
      var s := steps[|steps| - 1];
      Placed(pv, steps[..|steps| - 1], placed)
      + (if s.IsLocatable() && pv.Get(s.OperationType()).Some? == placed then 1 else 0)
  }

  /**
   * Rendering fails exactly when some kind has more steps than its variation
   * has elements. Otherwise every step but the skipped ones gives one line,
   * and every placed step hands one path to the locator writer.
   */
  lemma {:induction false} CodeOkIffFits(pv: PageVariation, steps: seq<Step>)
    requires AllCodable(steps)
    ensures CodeOf(pv, steps).Ok? <==> Fits(pv, steps)
    ensures CodeOf(pv, steps).Ok? ==>
      |CodeOf(pv, steps).value.0| == |steps| - Placed(pv, steps, false) &&
      |CodeOf(pv, steps).value.1| == Placed(pv, steps, true)
  {
    if steps != [] {
      var init := steps[..|steps| - 1];
      var s := steps[|steps| - 1];
      CodeOkIffFits(pv, init);
      PlacedBound(pv, init);
      forall t: L.OperationType | t.IsLocatable()
        ensures KindCount(steps, t) == KindCount(init, t) + (if s.IsLocatable() && s.OperationType() == t then 1 else 0)
      {
      }
      if s.IsLocatable() && pv.Get(s.OperationType()).Some? {
        var t := s.OperationType();
        if Fits(pv, steps) {
          assert KindCount(init, t) < |pv.Get(t).value.elems|;
        }
        if CodeOf(pv, steps).Ok? {
          assert Fits(pv, steps) by {
            forall t' : L.OperationType | t'.IsLocatable() && pv.Get(t').Some?
              ensures KindCount(steps, t') <= |pv.Get(t').value.elems|
            {
              if t' != t { assert KindCount(steps, t') == KindCount(init, t'); }
            }
          }
        }
      }
    }
  }

  /** The skipped steps are among the steps. */
  lemma {:induction false} PlacedBound(pv: PageVariation, steps: seq<Step>)
    ensures Placed(pv, steps, false) <= |steps|
  {
    if steps != [] {
      PlacedBound(pv, steps[..|steps| - 1]);
    }
  }
}
