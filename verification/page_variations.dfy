/**
 * `__get_page_variations`: the first `searchWidth` variations of each
 * locatable kind, combined in every way, one per kind, and sorted by the
 * page variation's score.
 */
module PageVariations {
  import opened Wrappers
  import opened Seqs
  import opened Sorting
  import opened Products
  import opened Setting
  import opened Operation
  import opened Variations
  import opened Ranking
  import L = Locators

  /** `__get_variation_by_type(steps, t)[:SEARCH_WIDTH]` */
  function KindVariations(page: Page, steps: seq<Step>, t: L.OperationType, cfg: Config): seq<Option<Variation>>
    requires AllLocatable(steps) && t.IsLocatable()
  {
    Take(VariationsOf(page, steps, t, cfg), cfg.searchWidth)
  }

  /** The three truncated lists, in the order `itertools.product` is given them. */
  function KindLists(page: Page, steps: seq<Step>, cfg: Config): (r: seq<seq<Option<Variation>>>)
    requires AllLocatable(steps)
    ensures |r| == 3
  {
    [KindVariations(page, steps, L.OperationType.Enter, cfg),
     KindVariations(page, steps, L.OperationType.Select, cfg),
     KindVariations(page, steps, L.OperationType.Click, cfg)]
  }

  predicate AllTriples(tuples: seq<seq<Option<Variation>>>)
  {
    forall i :: 0 <= i < |tuples| ==> |tuples[i]| == 3
  }

  /** Every tuple of a product of three lists has three items. */
  lemma ProductTriples(lists: seq<seq<Option<Variation>>>)
    requires |lists| == 3
    ensures AllTriples(Product(lists))
  {
    forall i | 0 <= i < |Product(lists)| ensures |Product(lists)[i]| == 3 {
      ProductMember(lists, Product(lists)[i]);
    }
  }

  /** One page variation per (enter, select, click) tuple, in tuple order. */
  function Compose(triples: seq<seq<Option<Variation>>>): (r: seq<PageVariation>)
    requires AllTriples(triples)
    ensures |r| == |triples|
    ensures forall i :: 0 <= i < |r| ==> r[i] == PageVariation(triples[i][0], triples[i][1], triples[i][2])
  {
    if triples == [] then []
    else
      var n := |triples| - 1;
      Compose(triples[..n]) + [PageVariation(triples[n][0], triples[n][1], triples[n][2])]
  }

  function PageScore(pv: PageVariation): real { pv.Score() }

  /** The page variations built from three lists, highest score first. */
  function Combine(lists: seq<seq<Option<Variation>>>): seq<PageVariation>
    requires |lists| == 3
  {
    ProductTriples(lists);
    SortDesc(Compose(Product(lists)), PageScore)
  }

  /** What `__get_page_variations` returns for the steps of one page. */
  function PageVariationsOf(page: Page, steps: seq<Step>, cfg: Config): seq<PageVariation>
    requires AllLocatable(steps)
  {
    Combine(KindLists(page, steps, cfg))
  }

  /** `__get_page_variations`: one loop over the product of the three truncated lists, then a sort. */
  method GetPageVariations(page: Page, steps: seq<Step>, cfg: Config) returns (pageVariations: seq<PageVariation>)
    requires AllLocatable(steps)
    ensures pageVariations == PageVariationsOf(page, steps, cfg)
  {
    var enterVariations := VariationsByType(page, steps, L.OperationType.Enter, cfg);
    enterVariations := Take(enterVariations, cfg.searchWidth);
    var selectVariations := VariationsByType(page, steps, L.OperationType.Select, cfg);
    selectVariations := Take(selectVariations, cfg.searchWidth);
    var clickVariations := VariationsByType(page, steps, L.OperationType.Click, cfg);
    clickVariations := Take(clickVariations, cfg.searchWidth);
    var triples := Product([enterVariations, selectVariations, clickVariations]);
    ProductTriples([enterVariations, selectVariations, clickVariations]);
    var composed: seq<PageVariation> := [];
    for i := 0 to |triples|
      invariant composed == Compose(triples[..i])
    {
      assert triples[..i + 1][..i] == triples[..i];
      composed := composed + [PageVariation(triples[i][0], triples[i][1], triples[i][2])];
    }
    assert triples[..|triples|] == triples;
    pageVariations := SortDesc(composed, PageScore);
  }

  /** A combination holds exactly one item of each list, in kind order. */
  lemma CombineMember(lists: seq<seq<Option<Variation>>>, pv: PageVariation)
    requires |lists| == 3
    ensures pv in Combine(lists) <==> pv.enter in lists[0] && pv.select in lists[1] && pv.click in lists[2]
  {
    ProductTriples(lists);
    var composed := Compose(Product(lists));
    SortDescSpec(composed, PageScore);
    assert pv in Combine(lists) <==> pv in multiset(composed);
    ComposeMember(Product(lists), pv);
    ProductMember(lists, [pv.enter, pv.select, pv.click]);
  }

  lemma ComposeMember(triples: seq<seq<Option<Variation>>>, pv: PageVariation)
    requires AllTriples(triples)
    ensures pv in Compose(triples) <==> [pv.enter, pv.select, pv.click] in triples
  {
    var composed := Compose(triples);
    var t := [pv.enter, pv.select, pv.click];
    if pv in composed {
      var i :| 0 <= i < |composed| && composed[i] == pv;
      assert triples[i] == t;
    }
    if t in triples {
      var i :| 0 <= i < |triples| && triples[i] == t;
      assert composed[i] == pv;
    }
  }

  /** There are as many combinations as the lengths multiplied, sorted by score. */
  lemma CombineSize(lists: seq<seq<Option<Variation>>>)
    requires |lists| == 3
    ensures |Combine(lists)| == |lists[0]| * |lists[1]| * |lists[2]|
    ensures SortedDesc(Combine(lists), PageScore)
  {
    ProductTriples(lists);
    SortDescSpec(Compose(Product(lists)), PageScore);
    ProductSize(lists);
    SizeThree(lists);
  }

  lemma SizeThree(lists: seq<seq<Option<Variation>>>)
    requires |lists| == 3
    ensures Size(lists) == |lists[0]| * |lists[1]| * |lists[2]|
  {
    var l1 := lists[1..];
    var l2 := l1[1..];
    assert l2[1..] == [];
    assert Size(l2) == |lists[2]| * 1;
    assert Size(l1) == |lists[1]| * Size(l2);
  }

  /**
   * A page variation is offered exactly when its enter, select and click
   * variations are each among the first `searchWidth` of their kind.
   */
  lemma PageVariationsMember(page: Page, steps: seq<Step>, cfg: Config, pv: PageVariation)
    requires AllLocatable(steps)
    ensures pv in PageVariationsOf(page, steps, cfg) <==>
      pv.enter in KindVariations(page, steps, L.OperationType.Enter, cfg) &&
      pv.select in KindVariations(page, steps, L.OperationType.Select, cfg) &&
      pv.click in KindVariations(page, steps, L.OperationType.Click, cfg)
  {
    CombineMember(KindLists(page, steps, cfg), pv);
  }

  /** Every kind keeps at least one and at most `searchWidth` variations. */
  lemma KindVariationsBounds(page: Page, steps: seq<Step>, t: L.OperationType, cfg: Config)
    requires AllLocatable(steps) && t.IsLocatable() && cfg.Valid()
    ensures 1 <= |KindVariations(page, steps, t, cfg)| <= cfg.searchWidth
  {
    VariationsOfNone(page, steps, t, cfg);
  }

  /**
   * There is one page variation per combination, so never none and at most
   * `searchWidth`³ of them.
   */
  lemma PageVariationsSize(page: Page, steps: seq<Step>, cfg: Config)
    requires AllLocatable(steps) && cfg.Valid()
    ensures |PageVariationsOf(page, steps, cfg)| ==
      |KindVariations(page, steps, L.OperationType.Enter, cfg)| *
      |KindVariations(page, steps, L.OperationType.Select, cfg)| *
      |KindVariations(page, steps, L.OperationType.Click, cfg)|
    ensures 1 <= |PageVariationsOf(page, steps, cfg)| <= cfg.searchWidth * cfg.searchWidth * cfg.searchWidth
  {
    var lists := KindLists(page, steps, cfg);
    CombineSize(lists);
    KindVariationsBounds(page, steps, L.OperationType.Enter, cfg);
    KindVariationsBounds(page, steps, L.OperationType.Select, cfg);
    KindVariationsBounds(page, steps, L.OperationType.Click, cfg);
    WidthCube(|lists[0]|, |lists[1]|, |lists[2]|, cfg.searchWidth);
  }

  /** Page variations come highest score first. */
  lemma PageVariationsSorted(page: Page, steps: seq<Step>, cfg: Config)
    requires AllLocatable(steps)
    ensures SortedDesc(PageVariationsOf(page, steps, cfg), PageScore)
  {
    CombineSize(KindLists(page, steps, cfg));
  }
}
