/**
 * Ranking the elements of the current page for the steps of one page: the
 * candidates kept per step, the duplicate-free variations of one kind, and
 * the page variations that combine one variation per kind.
 */
module Ranking {
  import opened Wrappers
  import opened Seqs
  import opened Sorting
  import opened Products
  import opened WordUtil
  import opened Setting
  import opened Elements
  import opened Operation
  import opened Variations
  import L = Locators
  import EC = ElementContainers

  /**
   * What the search reads off the page the browser is on: the extracted
   * elements, with their vectors attached, and the calculator's similarity of
   * query words to an element.
   */
  datatype Page = Page(elems: seq<Element>, sim: (seq<string>, Element) -> real)

  /** `WordUtil.filter(step.target.split())`: the target's whitespace-separated words, filtered. */
  function Query(s: Step, cfg: Config): seq<string>
    requires s.IsLocatable()
  {
    Filter(Fragments(s.target, IsSpace), cfg.AllStopWords())
  }

  predicate AllLocatable(steps: seq<Step>)
  {
    forall i :: 0 <= i < |steps| ==> steps[i].IsLocatable()
  }

  // ---------------------------------------------------------------------------
  // Candidates per step

  function SimKey(q: seq<string>, sim: (seq<string>, Element) -> real): Element -> real
  {
    (e: Element) => sim(q, e)
  }

  function Scoring(q: seq<string>, sim: (seq<string>, Element) -> real): Element -> (Element, real)
  {
    (e: Element) => (e, sim(q, e))
  }

  function PairSim(p: (Element, real)): real { p.1 }

  function PairElem(p: (Element, real)): Element { p.0 }

  /**
   * The candidates of one step: the first `n` elements (all when there are
   * fewer) of a stable sort by descending similarity to the query.
   */
  function TopCandidates(elems: seq<Element>, q: seq<string>, sim: (seq<string>, Element) -> real, n: nat): seq<Element>
  {
    Take(SortDesc(elems, SimKey(q, sim)), n)
  }

  /** One candidate list per step. */
  function CandidatesOf(elems: seq<Element>, steps: seq<Step>, sim: (seq<string>, Element) -> real, cfg: Config): (r: seq<seq<Element>>)
    requires AllLocatable(steps)
    ensures |r| == |steps|
  {
    if steps == [] then []
    else
      var init := steps[..|steps| - 1];
      CandidatesOf(elems, init, sim, cfg)
      + [TopCandidates(elems, Query(steps[|steps| - 1], cfg), sim, cfg.pageMatchingSearch)]
  }

  /** The candidate list of step `i` is that step's top candidates. */
  lemma {:induction false} CandidatesOfAt(elems: seq<Element>, steps: seq<Step>, sim: (seq<string>, Element) -> real, cfg: Config, i: nat)
    requires AllLocatable(steps) && i < |steps|
    ensures CandidatesOf(elems, steps, sim, cfg)[i] == TopCandidates(elems, Query(steps[i], cfg), sim, cfg.pageMatchingSearch)
  {
    var n := |steps| - 1;
    var init := steps[..n];
    assert AllLocatable(init) by {
      forall k | 0 <= k < |init| ensures init[k].IsLocatable() { assert init[k] == steps[k]; }
    }
    if i < n {
      CandidatesOfAt(elems, init, sim, cfg, i);
      assert init[i] == steps[i];
      assert CandidatesOf(elems, steps, sim, cfg)[i] == CandidatesOf(elems, init, sim, cfg)[i];
    }
  }

  /**
   * `__filter_elements`: for every step, pairs each element with its
   * similarity to the step's query, sorts the pairs by similarity, and keeps
   * the elements of the first `PAGE_MATCHING_SEARCH`.
   */
  method FilterElements(elems: seq<Element>, steps: seq<Step>, sim: (seq<string>, Element) -> real, cfg: Config)
    returns (candidatesList: seq<seq<Element>>)
    requires AllLocatable(steps)
    ensures candidatesList == CandidatesOf(elems, steps, sim, cfg)
  {
    candidatesList := [];
    for i := 0 to |steps|
      invariant candidatesList == CandidatesOf(elems, steps[..i], sim, cfg)
    {
      var q := Query(steps[i], cfg);
      var withSimilarity := PairWithSimilarity(elems, q, sim);
      withSimilarity := SortDesc(withSimilarity, PairSim);
      var minNum := if cfg.pageMatchingSearch < |elems| then cfg.pageMatchingSearch else |elems|;
      CandidatePrefix(elems, q, sim, cfg.pageMatchingSearch);
      var candidates := Map(withSimilarity[..minNum], PairElem);
      CandidatesOfSnoc(elems, steps, sim, cfg, i);
      candidatesList := candidatesList + [candidates];
    }
    assert steps[..|steps|] == steps;
  }

  /** `[[elem, sim(query, elem)] for elem in elems]`, built one pair at a time. */
  method PairWithSimilarity(elems: seq<Element>, q: seq<string>, sim: (seq<string>, Element) -> real)
    returns (withSimilarity: seq<(Element, real)>)
    ensures withSimilarity == Map(elems, Scoring(q, sim))
  {
    withSimilarity := [];
    for j := 0 to |elems|
      invariant |withSimilarity| == j
      invariant forall k :: 0 <= k < j ==> withSimilarity[k] == (elems[k], sim(q, elems[k]))
    {
      withSimilarity := withSimilarity + [(elems[j], sim(q, elems[j]))];
    }
  }

  /**
   * Sorting the `[elem, similarity]` pairs by their second item and keeping
   * the elements of the first `min(n, |elems|)` gives the top candidates.
   */
  lemma CandidatePrefix(elems: seq<Element>, q: seq<string>, sim: (seq<string>, Element) -> real, n: nat)
    ensures |SortDesc(Map(elems, Scoring(q, sim)), PairSim)| == |elems|
    ensures Map(SortDesc(Map(elems, Scoring(q, sim)), PairSim)[..if n < |elems| then n else |elems|], PairElem)
            == TopCandidates(elems, q, sim, n)
  {
    var key := SimKey(q, sim);
    SortDescMap(elems, Scoring(q, sim), key, PairSim);
    SortDescSpec(elems, key);
    var s := SortDesc(elems, key);
    var m := Map(s, Scoring(q, sim));
    var k := if n < |elems| then n else |elems|;
    assert Map(m[..k], PairElem) == s[..k];
  }

  lemma CandidatesOfSnoc(elems: seq<Element>, steps: seq<Step>, sim: (seq<string>, Element) -> real, cfg: Config, i: nat)
    requires AllLocatable(steps) && i < |steps|
    ensures CandidatesOf(elems, steps[..i + 1], sim, cfg)
            == CandidatesOf(elems, steps[..i], sim, cfg) + [TopCandidates(elems, Query(steps[i], cfg), sim, cfg.pageMatchingSearch)]
  {
    assert steps[..i + 1][..i] == steps[..i];
  }

  /**
   * A step keeps `min(n, |elems|)` candidates, most similar first; every
   * candidate is an element, and no element left out is more similar than a
   * kept one.
   */
  lemma TopCandidatesSpec(elems: seq<Element>, q: seq<string>, sim: (seq<string>, Element) -> real, n: nat)
    ensures |TopCandidates(elems, q, sim, n)| == if n < |elems| then n else |elems|
    ensures SortedDesc(TopCandidates(elems, q, sim, n), SimKey(q, sim))
    ensures forall c :: c in TopCandidates(elems, q, sim, n) ==> c in elems
    ensures forall c, e :: c in TopCandidates(elems, q, sim, n) && e in elems && e !in TopCandidates(elems, q, sim, n)
              ==> sim(q, e) <= sim(q, c)
  {
    var key := SimKey(q, sim);
    var s := SortDesc(elems, key);
    SortDescSpec(elems, key);
    var r := Take(s, n);
    SortedPrefix(s, key, |r|);
    assert r == s[..|r|];
    forall c | c in r ensures c in elems {
      assert c in multiset(s);
    }
    forall c, e | c in r && e in elems && e !in r ensures sim(q, e) <= sim(q, c) {
      assert e in multiset(s);
      var j :| 0 <= j < |s| && s[j] == e;
      var i :| 0 <= i < |r| && r[i] == c;
      assert j >= |r|;
      assert key(s[i]) >= key(s[j]);
    }
  }

  /**
   * Ties keep extraction order: the candidates with any one similarity are
   * the first of the elements with that similarity, in their page order.
   */
  lemma TopCandidatesStable(elems: seq<Element>, q: seq<string>, sim: (seq<string>, Element) -> real, n: nat, v: real)
    ensures WithKey(TopCandidates(elems, q, sim, n), SimKey(q, sim), v) <= WithKey(elems, SimKey(q, sim), v)
  {
    var key := SimKey(q, sim);
    var s := SortDesc(elems, key);
    SortDescStable(elems, key, v);
    if n < |s| {
      WithKeyPrefix(s, n, key, v);
    }
  }

  // ---------------------------------------------------------------------------
  // Variations of one kind

  /** `[step for step in steps_in_page if step.operation_type == t]` */
  function OfKind(steps: seq<Step>, t: L.OperationType): (r: seq<Step>)
    ensures forall i :: 0 <= i < |r| ==> r[i] in steps && r[i].OperationType() == t
    ensures |r| <= |steps|
  {
    if steps == [] then []
    else
      var s := steps[|steps| - 1];
      OfKind(steps[..|steps| - 1], t) + (if s.OperationType() == t then [s] else [])
  }

  /** The similarities of each step's query to the element chosen for it, summed in step order. */
  function RawScore(steps: seq<Step>, tuple: seq<Element>, sim: (seq<string>, Element) -> real, cfg: Config): real
    requires AllLocatable(steps) && |tuple| == |steps|
  {
    if steps == [] then 0.0
    else
      var n := |steps| - 1;
      RawScore(steps[..n], tuple[..n], sim, cfg) + sim(Query(steps[n], cfg), tuple[n])
  }

  /** The tuple's score: the summed similarity, divided by the number of steps when it is not zero. */
  function TupleScore(steps: seq<Step>, tuple: seq<Element>, sim: (seq<string>, Element) -> real, cfg: Config): real
    requires AllLocatable(steps) && |tuple| == |steps|
  {
    var raw := RawScore(steps, tuple, sim, cfg);
    if raw != 0.0 && |steps| > 0 then raw / |steps| as real else raw
  }

  /** Leaving a zero sum undivided changes nothing: the score is the mean similarity whenever there are steps. */
  lemma TupleScoreIsMean(steps: seq<Step>, tuple: seq<Element>, sim: (seq<string>, Element) -> real, cfg: Config)
    requires AllLocatable(steps) && |tuple| == |steps|
    ensures |steps| > 0 ==> TupleScore(steps, tuple, sim, cfg) == RawScore(steps, tuple, sim, cfg) / |steps| as real
    ensures |steps| == 0 ==> TupleScore(steps, tuple, sim, cfg) == 0.0
  {
  }

  predicate AllOfLength(tuples: seq<seq<Element>>, n: nat)
  {
    forall i :: 0 <= i < |tuples| ==> |tuples[i]| == n
  }

  /** One variation per duplicate-free tuple, in product order. */
  function VariationsFrom(tuples: seq<seq<Element>>, steps: seq<Step>, sim: (seq<string>, Element) -> real, cfg: Config): seq<Variation>
    requires AllLocatable(steps) && AllOfLength(tuples, |steps|)
  {
    if tuples == [] then []
    else
      var t := tuples[|tuples| - 1];
      VariationsFrom(tuples[..|tuples| - 1], steps, sim, cfg)
      + (if Distinct(t) then [Variation(t, TupleScore(steps, t, sim, cfg))] else [])
  }

  function VariationScore(v: Variation): real { v.score }

  function SomeVariation(v: Variation): Option<Variation> { Some(v) }

  /** Every tuple of a product has one item per list. */
  lemma ProductLengths(lists: seq<seq<Element>>)
    ensures AllOfLength(Product(lists), |lists|)
  {
    forall i | 0 <= i < |Product(lists)| ensures |Product(lists)[i]| == |lists| {
      ProductMember(lists, Product(lists)[i]);
    }
  }

  /** The candidate lists of the steps of kind `t`. */
  function KindCandidates(page: Page, steps: seq<Step>, t: L.OperationType, cfg: Config): (r: seq<seq<Element>>)
    requires AllLocatable(steps) && t.IsLocatable()
    ensures |r| == |OfKind(steps, t)|
  {
    CandidatesOf(EC.ElemsOf(page.elems, t, cfg), OfKind(steps, t), page.sim, cfg)
  }

  /** What `__get_variation_by_type` returns. */
  function VariationsOf(page: Page, steps: seq<Step>, t: L.OperationType, cfg: Config): seq<Option<Variation>>
    requires AllLocatable(steps) && t.IsLocatable()
  {
    var ks := OfKind(steps, t);
    var cands := KindCandidates(page, steps, t, cfg);
    ProductLengths(cands);
    var vs := VariationsFrom(Product(cands), ks, page.sim, cfg);
    if vs == [] then [None] else Map(SortDesc(vs, VariationScore), SomeVariation)
  }

  /** `set(s)` */
  function SetOf<T>(s: seq<T>): set<T>
  {
    set x | x in s
  }

  /** `len(set(t)) < len(t)` says exactly that `t` repeats an element. */
  lemma {:induction false} SetSizeDistinct<T>(s: seq<T>)
    ensures |SetOf(s)| <= |s|
    ensures |SetOf(s)| == |s| <==> Distinct(s)
  {
    if s != [] {
      var n := |s| - 1;
      var init := s[..n];
      SetSizeDistinct(init);
      assert s == init + [s[n]];
      assert SetOf(s) == SetOf(init) + {s[n]};
      if s[n] in init {
        var k :| 0 <= k < n && init[k] == s[n];
        assert s[k] == s[n];
        assert SetOf(init) + {s[n]} == SetOf(init);
      } else {
        assert Distinct(s) <==> Distinct(init) by {
          if Distinct(init) {
            forall i, j | 0 <= i < j < |s| ensures s[i] != s[j] {
              if j < n { assert s[i] == init[i] && s[j] == init[j]; }
            }
          }
        }
      }
    }
  }

  lemma VariationsFromSnoc(tuples: seq<seq<Element>>, i: nat, steps: seq<Step>, sim: (seq<string>, Element) -> real, cfg: Config)
    requires AllLocatable(steps) && AllOfLength(tuples, |steps|) && i < |tuples|
    ensures VariationsFrom(tuples[..i + 1], steps, sim, cfg) == VariationsFrom(tuples[..i], steps, sim, cfg)
      + (if Distinct(tuples[i]) then [Variation(tuples[i], TupleScore(steps, tuples[i], sim, cfg))] else [])
  {
    assert tuples[..i + 1][..i] == tuples[..i] && tuples[..i + 1][i] == tuples[i];
  }

  /** The scoring loop of `__get_variation_by_type` for one tuple. */
  method ScoreTuple(steps: seq<Step>, tuple: seq<Element>, sim: (seq<string>, Element) -> real, cfg: Config)
    returns (score: real)
    requires AllLocatable(steps) && |tuple| == |steps|
    ensures score == TupleScore(steps, tuple, sim, cfg)
  {
    score := 0.0;
    for j := 0 to |steps|
      invariant score == RawScore(steps[..j], tuple[..j], sim, cfg)
    {
      assert steps[..j + 1][..j] == steps[..j] && tuple[..j + 1][..j] == tuple[..j];
      score := score + sim(Query(steps[j], cfg), tuple[j]);
    }
    assert steps[..|steps|] == steps && tuple[..|steps|] == tuple;
    if score != 0.0 && |steps| > 0 {
      score := score / |steps| as real;
    }
  }

  /**
   * `__get_variation_by_type`: the candidate lists of the kind's steps, every
   * tuple of their product without a repeated element scored, and the scored
   * tuples sorted by descending score; `[None]` when there are none.
   */
  method VariationsByType(page: Page, steps: seq<Step>, t: L.OperationType, cfg: Config)
    returns (variationsOut: seq<Option<Variation>>)
    requires AllLocatable(steps) && t.IsLocatable()
    ensures variationsOut == VariationsOf(page, steps, t, cfg)
  {
    var ks := OfKind(steps, t);
    var elems := EC.ElemsOf(page.elems, t, cfg);
    var cands := FilterElements(elems, ks, page.sim, cfg);
    var tuples := Product(cands);
    ProductLengths(cands);
    var variations: seq<Variation> := [];
    for i := 0 to |tuples|
      invariant variations == VariationsFrom(tuples[..i], ks, page.sim, cfg)
    {
      var tuple := tuples[i];
      VariationsFromSnoc(tuples, i, ks, page.sim, cfg);
      SetSizeDistinct(tuple);
      if |SetOf(tuple)| < |tuple| {
        continue;
      }
      var score := ScoreTuple(ks, tuple, page.sim, cfg);
      variations := variations + [Variation(tuple, score)];
    }
    assert tuples[..|tuples|] == tuples;
    if variations == [] {
      variationsOut := [None];
    } else {
      variationsOut := Map(SortDesc(variations, VariationScore), SomeVariation);
    }
  }

  /** Each variation comes from a duplicate-free tuple and carries that tuple's score. */
  lemma {:induction false} VariationsFromMember(tuples: seq<seq<Element>>, steps: seq<Step>, sim: (seq<string>, Element) -> real, cfg: Config, x: Variation)
    requires AllLocatable(steps) && AllOfLength(tuples, |steps|)
    requires x in VariationsFrom(tuples, steps, sim, cfg)
    ensures x.elems in tuples && Distinct(x.elems) && |x.elems| == |steps|
    ensures x.score == TupleScore(steps, x.elems, sim, cfg)
  {
    var n := |tuples| - 1;
    var init := tuples[..n];
    if x in VariationsFrom(init, steps, sim, cfg) {
      VariationsFromMember(init, steps, sim, cfg, x);
    }
  }

  /** Every duplicate-free tuple gives a variation. */
  lemma {:induction false} VariationsFromComplete(tuples: seq<seq<Element>>, steps: seq<Step>, sim: (seq<string>, Element) -> real, cfg: Config, t: seq<Element>)
    requires AllLocatable(steps) && AllOfLength(tuples, |steps|)
    requires t in tuples && Distinct(t)
    ensures |t| == |steps|
    ensures Variation(t, TupleScore(steps, t, sim, cfg)) in VariationsFrom(tuples, steps, sim, cfg)
  {
    var n := |tuples| - 1;
    var init := tuples[..n];
    if t != tuples[n] {
      assert t in init;
      VariationsFromComplete(init, steps, sim, cfg, t);
    }
  }

  /** There are no variations exactly when every tuple repeats an element. */
  lemma {:induction false} VariationsFromEmpty(tuples: seq<seq<Element>>, steps: seq<Step>, sim: (seq<string>, Element) -> real, cfg: Config)
    requires AllLocatable(steps) && AllOfLength(tuples, |steps|)
    ensures VariationsFrom(tuples, steps, sim, cfg) == [] <==> forall t :: t in tuples ==> !Distinct(t)
  {
    if tuples != [] {
      var n := |tuples| - 1;
      var init := tuples[..n];
      VariationsFromEmpty(init, steps, sim, cfg);
      assert tuples == init + [tuples[n]];
    }
  }

  /** Sorting and wrapping keeps exactly the variations there were. */
  lemma SortedVariationsMember(vs: seq<Variation>, x: Variation)
    ensures x in vs <==> Some(x) in Map(SortDesc(vs, VariationScore), SomeVariation)
  {
    SortDescSpec(vs, VariationScore);
    var sorted := SortDesc(vs, VariationScore);
    assert x in vs <==> x in multiset(sorted);
    if x in sorted {
      var k :| 0 <= k < |sorted| && sorted[k] == x;
      assert Map(sorted, SomeVariation)[k] == Some(x);
    }
  }

  /** The product of no lists holds the one empty tuple, which scores 0. */
  lemma VariationsFromUnit(sim: (seq<string>, Element) -> real, cfg: Config)
    ensures VariationsFrom([[]], [], sim, cfg) == [Variation([], 0.0)]
  {
    var tuples: seq<seq<Element>> := [[]];
    assert tuples[..0] == [];
    assert Distinct<Element>([]);
  }

  /**
   * Every variation of kind `t` picks, for each of the kind's steps, one of
   * that step's candidates, repeats no element, and is scored by its tuple.
   */
  lemma VariationsOfChoices(page: Page, steps: seq<Step>, t: L.OperationType, cfg: Config, v: Variation)
    requires AllLocatable(steps) && t.IsLocatable()
    requires Some(v) in VariationsOf(page, steps, t, cfg)
    ensures Picks(v.elems, KindCandidates(page, steps, t, cfg)) && Distinct(v.elems)
    ensures |v.elems| == |OfKind(steps, t)|
    ensures v.score == TupleScore(OfKind(steps, t), v.elems, page.sim, cfg)
  {
    var ks := OfKind(steps, t);
    var cands := KindCandidates(page, steps, t, cfg);
    ProductLengths(cands);
    var vs := VariationsFrom(Product(cands), ks, page.sim, cfg);
    SortedVariationsMember(vs, v);
    VariationsFromMember(Product(cands), ks, page.sim, cfg, v);
    ProductMember(cands, v.elems);
  }

  /** Every duplicate-free pick of candidates is one of the variations. */
  lemma VariationsOfComplete(page: Page, steps: seq<Step>, t: L.OperationType, cfg: Config, tuple: seq<Element>)
    requires AllLocatable(steps) && t.IsLocatable()
    requires Picks(tuple, KindCandidates(page, steps, t, cfg)) && Distinct(tuple)
    ensures |tuple| == |OfKind(steps, t)|
    ensures Some(Variation(tuple, TupleScore(OfKind(steps, t), tuple, page.sim, cfg))) in VariationsOf(page, steps, t, cfg)
  {
    var ks := OfKind(steps, t);
    var cands := KindCandidates(page, steps, t, cfg);
    ProductLengths(cands);
    ProductMember(cands, tuple);
    VariationsFromComplete(Product(cands), ks, page.sim, cfg, tuple);
    var vs := VariationsFrom(Product(cands), ks, page.sim, cfg);
    SortedVariationsMember(vs, Variation(tuple, TupleScore(ks, tuple, page.sim, cfg)));
  }

  /**
   * The list is never empty; it is exactly `[None]` when every pick of
   * candidates repeats an element, and `None` appears in no other list.
   */
  lemma VariationsOfNone(page: Page, steps: seq<Step>, t: L.OperationType, cfg: Config)
    requires AllLocatable(steps) && t.IsLocatable()
    ensures VariationsOf(page, steps, t, cfg) != []
    ensures VariationsOf(page, steps, t, cfg) == [None] <==>
      forall tuple :: Picks(tuple, KindCandidates(page, steps, t, cfg)) ==> !Distinct(tuple)
    ensures None in VariationsOf(page, steps, t, cfg) ==> VariationsOf(page, steps, t, cfg) == [None]
  {
    var ks := OfKind(steps, t);
    var cands := KindCandidates(page, steps, t, cfg);
    ProductLengths(cands);
    var vs := VariationsFrom(Product(cands), ks, page.sim, cfg);
    VariationsFromEmpty(Product(cands), ks, page.sim, cfg);
    SortDescSpec(vs, VariationScore);
    forall tuple ensures tuple in Product(cands) <==> Picks(tuple, cands) {
      ProductMember(cands, tuple);
    }
  }

  /** The variations come most similar first. */
  lemma VariationsOfSorted(page: Page, steps: seq<Step>, t: L.OperationType, cfg: Config)
    requires AllLocatable(steps) && t.IsLocatable()
    ensures SortedDesc(VariationsOf(page, steps, t, cfg), Contribution)
  {
    var ks := OfKind(steps, t);
    var cands := KindCandidates(page, steps, t, cfg);
    ProductLengths(cands);
    var vs := VariationsFrom(Product(cands), ks, page.sim, cfg);
    SortDescSpec(vs, VariationScore);
  }

  /** A page without steps of the kind has the one empty variation, scored 0. */
  lemma VariationsOfNoSteps(page: Page, steps: seq<Step>, t: L.OperationType, cfg: Config)
    requires AllLocatable(steps) && t.IsLocatable()
    requires OfKind(steps, t) == []
    ensures VariationsOf(page, steps, t, cfg) == [Some(Variation([], 0.0))]
  {
    var cands := KindCandidates(page, steps, t, cfg);
    assert cands == [];
    assert Product(cands) == [[]];
    VariationsFromUnit(page.sim, cfg);
    var x := Variation([], 0.0);
    assert SortDesc([x], VariationScore) == [x];
  }

  /** Every element a variation of kind `t` chooses is one of the page's elements of that kind. */
  lemma VariationsOfElements(page: Page, steps: seq<Step>, t: L.OperationType, cfg: Config, v: Variation)
    requires AllLocatable(steps) && t.IsLocatable()
    requires Some(v) in VariationsOf(page, steps, t, cfg)
    ensures forall e :: e in v.elems ==> e in EC.ElemsOf(page.elems, t, cfg)
  {
    VariationsOfChoices(page, steps, t, cfg, v);
    var ks := OfKind(steps, t);
    var elems := EC.ElemsOf(page.elems, t, cfg);
    forall e | e in v.elems ensures e in elems {
      var j :| 0 <= j < |v.elems| && v.elems[j] == e;
      CandidatesOfAt(elems, ks, page.sim, cfg, j);
      TopCandidatesSpec(elems, Query(ks[j], cfg), page.sim, cfg.pageMatchingSearch);
    }
  }
}
