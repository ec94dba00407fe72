/**
 * `__beam_search` on the pages of a test case: the states of the frontier
 * are offered the first `searchWidth` page variations of the page their path
 * leads to, and the search keeps the `beamWidth` best states per page.
 */
module BeamSearch {
  import opened Wrappers
  import opened Seqs
  import opened Sorting
  import opened Setting
  import opened Operation
  import opened Variations
  import opened Ranking
  import opened PageVariations
  import opened SearchTrees

  /** Every page's steps are locatable. */
  predicate AllPagesLocatable(pageSteps: seq<seq<Step>>)
  {
    forall d :: 0 <= d < |pageSteps| ==> AllLocatable(pageSteps[d])
  }

  /**
   * `page_variations[:SEARCH_WIDTH]` for a state on `path` at `depth`: the
   * first page variations of the page the browser shows once `path` has been
   * replayed. `browse` stands for that replay and the extraction after it.
   */
  function Offers(pageSteps: seq<seq<Step>>, browse: seq<PageVariation> -> Page, cfg: Config): Offer
    requires AllPagesLocatable(pageSteps)
  {
    (path: seq<PageVariation>, depth: nat) =>
      if depth < |pageSteps| then Take(PageVariationsOf(browse(path), pageSteps[depth], cfg), cfg.searchWidth)
      else []
  }

  /**
   * `__beam_search`: expands every state of the frontier, sorts the children
   * by cumulative score, keeps the first `beamWidth` and goes one page
   * deeper; past the last page the first state's path is the result.
   */
  method Search(candidates: seq<State>, depth: nat, pageSteps: seq<seq<Step>>, browse: seq<PageVariation> -> Page, cfg: Config)
    returns (bestPath: Result<seq<PageVariation>>)
    requires AllPagesLocatable(pageSteps)
    modifies set c | c in candidates :: c.tree
    ensures bestPath == BestPath(Map(candidates, ScoredOf), depth, |pageSteps|, Offers(pageSteps, browse, cfg), cfg.beamWidth)
    ensures depth < |pageSteps| && DistinctTrees(candidates) ==> forall k :: 0 <= k < |candidates| ==>
      GrewBy(candidates[k].tree.children, candidates[k].tree.totalScore, old(candidates[k].tree.children), Offers(pageSteps, browse, cfg)(candidates[k].path, depth))
    decreases |pageSteps| - depth
  {
    if |pageSteps| <= depth {
      if candidates == [] {
        return Err(IndexError);
      }
      return Ok(candidates[0].path);
    }
    var offer := Offers(pageSteps, browse, cfg);
    var nextCandidates := ExpandAll(candidates, depth, pageSteps, browse, cfg);
    SearchStep(nextCandidates, candidates, depth, offer, cfg.beamWidth);
    nextCandidates := SortDesc(nextCandidates, StateScore);
    var kept := Take(nextCandidates, cfg.beamWidth);
    bestPath := Search(kept, depth + 1, pageSteps, browse, cfg);
  }

  /** No two states of the frontier share a tree node. */
  predicate DistinctTrees(candidates: seq<State>)
  {
    forall i, j :: 0 <= i < j < |candidates| ==> candidates[i].tree != candidates[j].tree
  }

  /**
   * The loop of `__beam_search` over the frontier: every state is expanded in
   * turn and its children collected. Each state's node keeps its children and
   * gains one per offered page variation; when two states shared a node it
   * would gain both sets, so the exact growth is stated for distinct nodes.
   */
  method ExpandAll(candidates: seq<State>, depth: nat, pageSteps: seq<seq<Step>>, browse: seq<PageVariation> -> Page, cfg: Config)
    returns (nextCandidates: seq<State>)
    requires depth < |pageSteps| && AllPagesLocatable(pageSteps)
    modifies set c | c in candidates :: c.tree
    ensures Map(nextCandidates, ScoredOf) == Expansion(Map(candidates, ScoredOf), depth, Offers(pageSteps, browse, cfg))
    ensures forall c :: c in nextCandidates ==> fresh(c.tree)
    ensures DistinctTrees(candidates) ==> forall k :: 0 <= k < |candidates| ==>
      GrewBy(candidates[k].tree.children, candidates[k].tree.totalScore, old(candidates[k].tree.children), Offers(pageSteps, browse, cfg)(candidates[k].path, depth))
  {
    var offer := Offers(pageSteps, browse, cfg);
    ghost var before := ChildLists(candidates);
    ghost var grown: seq<seq<SearchTree>> := [];
    nextCandidates := [];
    for i := 0 to |candidates|
      invariant Map(nextCandidates, ScoredOf) == Expansion(Map(candidates[..i], ScoredOf), depth, offer)
      invariant forall c :: c in nextCandidates ==> fresh(c.tree)
      invariant DistinctTrees(candidates) ==> Tracked(candidates, i, before, grown, offer, depth)
    {
      var children;
      children, grown := ExpandNext(candidates, i, depth, pageSteps, browse, cfg, before, grown);
      ExpansionSnoc(candidates, i, depth, offer);
      MapAppend(nextCandidates, children, ScoredOf);
      nextCandidates := nextCandidates + children;
    }
    assert candidates[..|candidates|] == candidates;
    if DistinctTrees(candidates) {
      TrackedAll(candidates, before, grown, offer, depth);
    }
  }

  /** The children of each state's node, in the order of the states. */
  ghost function ChildLists(candidates: seq<State>): (r: seq<seq<SearchTree>>)
    reads set c | c in candidates :: c.tree
    ensures |r| == |candidates|
    ensures forall k :: 0 <= k < |candidates| ==> r[k] == candidates[k].tree.children
  {
    seq(|candidates|, k requires 0 <= k < |candidates| reads set c | c in candidates :: c.tree => candidates[k].tree.children)
  }

  /**
   * What `ExpandAll` knows after expanding the first `i` states, whose nodes
   * had the children `before`: each of those nodes now has the children
   * `grown`, which extend `before` by its offers, and the other nodes are
   * untouched.
   */
  ghost predicate Tracked(candidates: seq<State>, i: nat, before: seq<seq<SearchTree>>, grown: seq<seq<SearchTree>>, offer: Offer, depth: nat)
    reads set c | c in candidates :: c.tree
  {
    i <= |candidates| == |before| && |grown| == i &&
    (forall k :: 0 <= k < i ==>
      candidates[k].tree.children == grown[k] &&
      GrewBy(grown[k], candidates[k].tree.totalScore, before[k], offer(candidates[k].path, depth))) &&
    (forall k :: i <= k < |candidates| ==> candidates[k].tree.children == before[k])
  }

  lemma TrackedAll(candidates: seq<State>, before: seq<seq<SearchTree>>, grown: seq<seq<SearchTree>>, offer: Offer, depth: nat)
    requires Tracked(candidates, |candidates|, before, grown, offer, depth)
    ensures forall k :: 0 <= k < |candidates| ==>
      GrewBy(candidates[k].tree.children, candidates[k].tree.totalScore, before[k], offer(candidates[k].path, depth))
  {
  }

  /** One turn of the loop of `ExpandAll`: the `i`-th state is expanded. */
  method ExpandNext(candidates: seq<State>, i: nat, depth: nat, pageSteps: seq<seq<Step>>, browse: seq<PageVariation> -> Page, cfg: Config,
                    ghost before: seq<seq<SearchTree>>, ghost grown: seq<seq<SearchTree>>)
    returns (children: seq<State>, ghost grown': seq<seq<SearchTree>>)
    requires i < |candidates| && depth < |pageSteps| && AllPagesLocatable(pageSteps)
    requires DistinctTrees(candidates) ==> Tracked(candidates, i, before, grown, Offers(pageSteps, browse, cfg), depth)
    modifies candidates[i].tree
    ensures Map(children, ScoredOf) == ChildrenOf(ScoredOf(candidates[i]), Offers(pageSteps, browse, cfg)(candidates[i].path, depth))
    ensures forall x :: x in children ==> fresh(x.tree)
    ensures DistinctTrees(candidates) ==> Tracked(candidates, i + 1, before, grown', Offers(pageSteps, browse, cfg), depth)
  {
    label pre:
    children := ExpandState(candidates[i], depth, pageSteps, browse, cfg);
    grown' := grown + [candidates[i].tree.children];
    if DistinctTrees(candidates) {
      assert forall k :: 0 <= k < |candidates| && k != i ==>
        candidates[k].tree.children == old@pre(candidates[k].tree.children);
    }
  }

  /** The children of one state: one per page variation offered on the page its path leads to. */
  method ExpandState(c: State, depth: nat, pageSteps: seq<seq<Step>>, browse: seq<PageVariation> -> Page, cfg: Config)
    returns (children: seq<State>)
    requires depth < |pageSteps| && AllPagesLocatable(pageSteps)
    modifies c.tree
    ensures Map(children, ScoredOf) == ChildrenOf(ScoredOf(c), Offers(pageSteps, browse, cfg)(c.path, depth))
    ensures forall x :: x in children ==> fresh(x.tree)
    ensures c.tree.children == old(c.tree.children) + Map(children, TreeOf)
    ensures GrewBy(c.tree.children, c.tree.totalScore, old(c.tree.children), Offers(pageSteps, browse, cfg)(c.path, depth))
  {
    var pageVariations := GetPageVariations(browse(c.path), pageSteps[depth], cfg);
    children := Expand(c, Take(pageVariations, cfg.searchWidth));
  }

  lemma ExpansionSnoc(candidates: seq<State>, i: nat, depth: nat, offer: Offer)
    requires i < |candidates|
    ensures Expansion(Map(candidates[..i + 1], ScoredOf), depth, offer) ==
      Expansion(Map(candidates[..i], ScoredOf), depth, offer) + ChildrenOf(ScoredOf(candidates[i]), offer(candidates[i].path, depth))
  {
    assert Map(candidates[..i + 1], ScoredOf)[..i] == Map(candidates[..i], ScoredOf);
  }

  /** Sorting and cutting the states is sorting and cutting what the search knows of them. */
  lemma SearchStep(next: seq<State>, candidates: seq<State>, depth: nat, offer: Offer, beamWidth: nat)
    requires Map(next, ScoredOf) == Expansion(Map(candidates, ScoredOf), depth, offer)
    ensures Map(Take(SortDesc(next, StateScore), beamWidth), ScoredOf) == NextFrontier(Map(candidates, ScoredOf), depth, offer, beamWidth)
    ensures forall c :: c in Take(SortDesc(next, StateScore), beamWidth) ==> c in next
  {
    SortDescMap(next, ScoredOf, StateScore, ScoredKey);
    MapTake(SortDesc(next, StateScore), beamWidth, ScoredOf);
    TopSpec(next, StateScore, beamWidth);
  }

  /** Each state is offered at least one and at most `searchWidth` page variations. */
  lemma OffersWithinWidth(pageSteps: seq<seq<Step>>, browse: seq<PageVariation> -> Page, cfg: Config)
    requires AllPagesLocatable(pageSteps) && cfg.Valid()
    ensures OffersWithin(Offers(pageSteps, browse, cfg), |pageSteps|, cfg.searchWidth)
  {
    forall path: seq<PageVariation>, d: nat | d < |pageSteps| ensures 1 <= |Offers(pageSteps, browse, cfg)(path, d)| <= cfg.searchWidth {
      PageVariationsSize(browse(path), pageSteps[d], cfg);
    }
  }

  /**
   * What `to_code` gets from the search started at the root: a path with one
   * page variation per page, each among the first `searchWidth` page
   * variations of the page the path before it leads to, and scoring no less
   * than any other path of the final frontier.
   */
  lemma SearchFromRoot(pageSteps: seq<seq<Step>>, browse: seq<PageVariation> -> Page, cfg: Config)
    requires AllPagesLocatable(pageSteps) && cfg.Valid()
    ensures var offer := Offers(pageSteps, browse, cfg);
      var r := BestPath([Scored(0.0, [])], 0, |pageSteps|, offer, cfg.beamWidth);
      r.Ok? && |r.value| == |pageSteps| && Feasible(r.value, |pageSteps|, offer) &&
      forall d :: 0 <= d < |pageSteps| ==> r.value[d] in PageVariationsOf(browse(r.value[..d]), pageSteps[d], cfg)
  {
    var offer := Offers(pageSteps, browse, cfg);
    OffersWithinWidth(pageSteps, browse, cfg);
    BestPathSpec(|pageSteps|, offer, cfg.searchWidth, cfg.beamWidth);
    var p := BestPath([Scored(0.0, [])], 0, |pageSteps|, offer, cfg.beamWidth).value;
    forall d | 0 <= d < |pageSteps| ensures p[d] in PageVariationsOf(browse(p[..d]), pageSteps[d], cfg) {
      assert p[d] in offer(p[..d], d);
    }
  }
}
