/**
 * The beam search of the transition-matching strategy, apart from the pages:
 * the search tree and the states of its frontier, the search on the values
 * it keeps for each state, and the expansion of one state in the tree.
 */
module SearchTrees {
  import opened Wrappers
  import opened Seqs
  import opened Sorting
  import opened Variations

  /** A node of the search tree: its cumulative score and page variation are fixed, its children grow. */
  class SearchTree {
    const totalScore: real
    const current: Option<PageVariation>
    var children: seq<SearchTree>

    constructor (score: real, current: Option<PageVariation>)
      ensures totalScore == score && this.current == current && children == []
    {
      totalScore := score;
      this.current := current;
      children := [];
    }
  }

  /** A state of the frontier: a tree node and the page variations chosen on the way to it. */
  datatype State = State(tree: SearchTree, path: seq<PageVariation>)

  /** What the search knows of a state: its cumulative score and its path. */
  datatype Scored = Scored(score: real, path: seq<PageVariation>)

  function ScoredOf(c: State): Scored { Scored(c.tree.totalScore, c.path) }

  function StateScore(c: State): real { c.tree.totalScore }

  function ScoredKey(n: Scored): real { n.score }

  /** The child of `n` for `pv`: the score grows by the page variation's, the path by the page variation. */
  function Child(n: Scored, pv: PageVariation): Scored
  {
    Scored(n.score + pv.Score(), n.path + [pv])
  }

  /** The children of one state, in the order of the page variations. */
  function ChildrenOf(n: Scored, pvs: seq<PageVariation>): (r: seq<Scored>)
    ensures |r| == |pvs|
    ensures forall k :: 0 <= k < |pvs| ==> r[k] == Child(n, pvs[k])
  {
    if pvs == [] then [] else ChildrenOf(n, pvs[..|pvs| - 1]) + [Child(n, pvs[|pvs| - 1])]
  }

  // ---------------------------------------------------------------------------
  // The search on values

  /**
   * What the search offers a state: given its path and the depth, the page
   * variations it tries, in order.
   */
  type Offer = (seq<PageVariation>, nat) -> seq<PageVariation>

  /** `next_candidates` before sorting: the children of every state, state by state. */
  function Expansion(frontier: seq<Scored>, depth: nat, offer: Offer): seq<Scored>
  {
    if frontier == [] then []
    else
      var n := frontier[|frontier| - 1];
      Expansion(frontier[..|frontier| - 1], depth, offer) + ChildrenOf(n, offer(n.path, depth))
  }

  /** The frontier one depth further: the expansion, best first, cut to `beamWidth`. */
  function NextFrontier(frontier: seq<Scored>, depth: nat, offer: Offer, beamWidth: nat): seq<Scored>
  {
    Take(SortDesc(Expansion(frontier, depth, offer), ScoredKey), beamWidth)
  }

  /** The frontier once the search has gone `levels` deep. */
  function FinalFrontier(frontier: seq<Scored>, depth: nat, levels: nat, offer: Offer, beamWidth: nat): seq<Scored>
    decreases levels - depth
  {
    if levels <= depth then frontier
    else FinalFrontier(NextFrontier(frontier, depth, offer, beamWidth), depth + 1, levels, offer, beamWidth)
  }

  /** The first path of the final frontier, an `IndexError` when there is none. */
  function BestPath(frontier: seq<Scored>, depth: nat, levels: nat, offer: Offer, beamWidth: nat): Result<seq<PageVariation>>
  {
    var f := FinalFrontier(frontier, depth, levels, offer, beamWidth);
    if f == [] then Err(IndexError) else Ok(f[0].path)
  }

  /** Above `levels`, every state is offered at least one and at most `width` page variations. */
  ghost predicate OffersWithin(offer: Offer, levels: nat, width: nat)
  {
    forall path: seq<PageVariation>, d: nat :: d < levels ==> 1 <= |offer(path, d)| <= width
  }

  // ---------------------------------------------------------------------------
  // Properties of one beam step

  /** The new frontier holds at most `beamWidth` children, best first, and no child left out beats a kept one. */
  lemma NextFrontierSpec(frontier: seq<Scored>, depth: nat, offer: Offer, beamWidth: nat)
    ensures |NextFrontier(frontier, depth, offer, beamWidth)| <= beamWidth
    ensures SortedDesc(NextFrontier(frontier, depth, offer, beamWidth), ScoredKey)
    ensures forall x :: x in NextFrontier(frontier, depth, offer, beamWidth) ==> x in Expansion(frontier, depth, offer)
    ensures KeepsBest(NextFrontier(frontier, depth, offer, beamWidth), Expansion(frontier, depth, offer), ScoredKey)
  {
    TopSpec(Expansion(frontier, depth, offer), ScoredKey, beamWidth);
  }

  /** Every state of the expansion is the child of a state of the frontier for a page variation offered to it. */
  lemma {:induction false} ExpansionChildren(frontier: seq<Scored>, depth: nat, offer: Offer, x: Scored)
    requires x in Expansion(frontier, depth, offer)
    ensures exists n, pv :: n in frontier && pv in offer(n.path, depth) && x == Child(n, pv)
  {
    var init := frontier[..|frontier| - 1];
    var n := frontier[|frontier| - 1];
    if x in Expansion(init, depth, offer) {
      ExpansionChildren(init, depth, offer, x);
      var m, pv :| m in init && pv in offer(m.path, depth) && x == Child(m, pv);
      assert m in frontier;
    } else {
      var offered := offer(n.path, depth);
      var k :| 0 <= k < |offered| && ChildrenOf(n, offered)[k] == x;
      assert offered[k] in offered;
    }
  }

  /** Every state of the frontier has a child for every page variation offered to it. */
  lemma {:induction false} ExpansionComplete(frontier: seq<Scored>, depth: nat, offer: Offer, n: Scored, pv: PageVariation)
    requires n in frontier && pv in offer(n.path, depth)
    ensures Child(n, pv) in Expansion(frontier, depth, offer)
  {
    var init := frontier[..|frontier| - 1];
    if n != frontier[|frontier| - 1] {
      assert n in init;
      ExpansionComplete(init, depth, offer, n, pv);
    } else {
      var offered := offer(n.path, depth);
      var k :| 0 <= k < |offered| && offered[k] == pv;
      assert ChildrenOf(n, offered)[k] == Child(n, pv);
    }
  }

  /** Each state of the frontier has at least one and at most `width` children. */
  lemma {:induction false} ExpansionSize(frontier: seq<Scored>, depth: nat, levels: nat, offer: Offer, width: nat)
    requires depth < levels && OffersWithin(offer, levels, width)
    ensures |frontier| <= |Expansion(frontier, depth, offer)| <= |frontier| * width
  {
    if frontier != [] {
      var init := frontier[..|frontier| - 1];
      var n := frontier[|frontier| - 1];
      ExpansionSize(init, depth, levels, offer, width);
      var x := |Expansion(init, depth, offer)|;
      var y := |offer(n.path, depth)|;
      assert |Expansion(frontier, depth, offer)| == x + y;
      WidthSum(|init|, x, y, width);
    }
  }

  lemma WidthSum(a: nat, x: nat, y: nat, w: nat)
    requires a <= x <= a * w && 1 <= y <= w
    ensures a + 1 <= x + y <= (a + 1) * w
  {
  }

  // ---------------------------------------------------------------------------
  // Properties of the whole search

  /** The sum of the scores of the page variations on a path. */
  function PathScore(path: seq<PageVariation>): real
  {
    if path == [] then 0.0 else PathScore(path[..|path| - 1]) + path[|path| - 1].Score()
  }

  /** Every page variation of the path was offered to the path before it. */
  ghost predicate Feasible(path: seq<PageVariation>, levels: nat, offer: Offer)
  {
    |path| <= levels && forall d :: 0 <= d < |path| ==> path[d] in offer(path[..d], d)
  }

  /** A state the search can be in at `depth` when it starts from the root with score 0. */
  ghost predicate Reached(n: Scored, depth: nat, levels: nat, offer: Offer)
  {
    |n.path| == depth && n.score == PathScore(n.path) && Feasible(n.path, levels, offer)
  }

  /** Every state of `frontier` is reached at `depth`. */
  ghost predicate AllReached(frontier: seq<Scored>, depth: nat, levels: nat, offer: Offer)
  {
    forall n :: n in frontier ==> Reached(n, depth, levels, offer)
  }

  /** A child of a reached state for an offered page variation is reached one level deeper. */
  lemma ChildReached(n: Scored, pv: PageVariation, depth: nat, levels: nat, offer: Offer)
    requires depth < levels && Reached(n, depth, levels, offer) && pv in offer(n.path, depth)
    ensures Reached(Child(n, pv), depth + 1, levels, offer)
  {
    var p := n.path + [pv];
    assert p[..|p| - 1] == n.path;
    forall d | 0 <= d < |p| ensures p[d] in offer(p[..d], d) {
      if d < depth {
        assert p[..d] == n.path[..d];
      } else {
        assert p[..d] == n.path;
      }
    }
  }

  /** One beam step takes reached states to reached states one level deeper. */
  lemma NextFrontierReached(frontier: seq<Scored>, depth: nat, levels: nat, offer: Offer, beamWidth: nat)
    requires depth < levels
    requires AllReached(frontier, depth, levels, offer)
    ensures AllReached(NextFrontier(frontier, depth, offer, beamWidth), depth + 1, levels, offer)
  {
    NextFrontierSpec(frontier, depth, offer, beamWidth);
    forall x | x in NextFrontier(frontier, depth, offer, beamWidth)
      ensures Reached(x, depth + 1, levels, offer)
    {
      ExpansionChildren(frontier, depth, offer, x);
      var n, pv :| n in frontier && pv in offer(n.path, depth) && x == Child(n, pv);
      ChildReached(n, pv, depth, levels, offer);
    }
  }

  /** With widths of at least one, a non-empty frontier stays non-empty. */
  lemma NextFrontierNonEmpty(frontier: seq<Scored>, depth: nat, levels: nat, offer: Offer, width: nat, beamWidth: nat)
    requires depth < levels && OffersWithin(offer, levels, width) && beamWidth >= 1
    requires frontier != []
    ensures NextFrontier(frontier, depth, offer, beamWidth) != []
  {
    ExpansionSize(frontier, depth, levels, offer, width);
    SortDescSpec(Expansion(frontier, depth, offer), ScoredKey);
  }

  /**
   * From a non-empty frontier of reached states the search runs one level
   * per remaining page and ends with a non-empty frontier of states reached
   * at the last level.
   */
  lemma FinalFrontierReached(frontier: seq<Scored>, depth: nat, levels: nat, offer: Offer, width: nat, beamWidth: nat)
    requires depth <= levels && OffersWithin(offer, levels, width) && beamWidth >= 1
    requires frontier != [] && AllReached(frontier, depth, levels, offer)
    ensures FinalFrontier(frontier, depth, levels, offer, beamWidth) != []
    ensures AllReached(FinalFrontier(frontier, depth, levels, offer, beamWidth), levels, levels, offer)
  {
    FinalFrontierNonEmpty(frontier, depth, levels, offer, width, beamWidth);
    FinalFrontierAllReached(frontier, depth, levels, offer, beamWidth);
  }

  lemma {:induction false} FinalFrontierNonEmpty(frontier: seq<Scored>, depth: nat, levels: nat, offer: Offer, width: nat, beamWidth: nat)
    requires depth <= levels && OffersWithin(offer, levels, width) && beamWidth >= 1 && |frontier| >= 1
    ensures |FinalFrontier(frontier, depth, levels, offer, beamWidth)| >= 1
    decreases levels - depth
  {
    if depth < levels {
      var next := NextFrontier(frontier, depth, offer, beamWidth);
      NextFrontierNonEmpty(frontier, depth, levels, offer, width, beamWidth);
      FinalFrontierNonEmpty(next, depth + 1, levels, offer, width, beamWidth);
      assert FinalFrontier(frontier, depth, levels, offer, beamWidth) == FinalFrontier(next, depth + 1, levels, offer, beamWidth);
    }
  }

  lemma {:induction false} FinalFrontierAllReached(frontier: seq<Scored>, depth: nat, levels: nat, offer: Offer, beamWidth: nat)
    requires depth <= levels && AllReached(frontier, depth, levels, offer)
    ensures AllReached(FinalFrontier(frontier, depth, levels, offer, beamWidth), levels, levels, offer)
    decreases levels - depth
  {
    if depth < levels {
      NextFrontierReached(frontier, depth, levels, offer, beamWidth);
      FinalFrontierAllReached(NextFrontier(frontier, depth, offer, beamWidth), depth + 1, levels, offer, beamWidth);
    }
  }


  /** Once the search has taken a step, its final frontier is sorted and at most `beamWidth` long. */
  lemma {:induction false} FinalFrontierSorted(frontier: seq<Scored>, depth: nat, levels: nat, offer: Offer, beamWidth: nat)
    requires depth < levels
    ensures |FinalFrontier(frontier, depth, levels, offer, beamWidth)| <= beamWidth
    ensures SortedDesc(FinalFrontier(frontier, depth, levels, offer, beamWidth), ScoredKey)
    decreases levels - depth
  {
    var next := NextFrontier(frontier, depth, offer, beamWidth);
    if depth + 1 < levels {
      FinalFrontierSorted(next, depth + 1, levels, offer, beamWidth);
    } else {
      NextFrontierSpec(frontier, depth, offer, beamWidth);
    }
  }

  /**
   * From the root (score 0, empty path) the search always finds a path: one
   * page variation per level, each offered to the path before it, and no
   * path of the final frontier scores higher.
   */
  lemma BestPathSpec(levels: nat, offer: Offer, width: nat, beamWidth: nat)
    requires OffersWithin(offer, levels, width) && beamWidth >= 1
    ensures BestPath([Scored(0.0, [])], 0, levels, offer, beamWidth).Ok?
    ensures |BestPath([Scored(0.0, [])], 0, levels, offer, beamWidth).value| == levels
    ensures Feasible(BestPath([Scored(0.0, [])], 0, levels, offer, beamWidth).value, levels, offer)
    ensures forall n :: n in FinalFrontier([Scored(0.0, [])], 0, levels, offer, beamWidth) ==>
      PathScore(n.path) <= PathScore(BestPath([Scored(0.0, [])], 0, levels, offer, beamWidth).value)
  {
    var root := [Scored(0.0, [])];
    assert Reached(root[0], 0, levels, offer);
    FinalFrontierReached(root, 0, levels, offer, width, beamWidth);
    var f := FinalFrontier(root, 0, levels, offer, beamWidth);
    if 0 < levels {
      FinalFrontierSorted(root, 0, levels, offer, beamWidth);
    }
    assert Reached(f[0], levels, levels, offer);
    forall n | n in f ensures PathScore(n.path) <= PathScore(f[0].path) {
      assert Reached(n, levels, levels, offer);
      var j :| 0 <= j < |f| && f[j] == n;
      if 0 < levels {
        assert ScoredKey(f[0]) >= ScoredKey(f[j]);
      }
    }
  }

  // ---------------------------------------------------------------------------
  // Expanding a state in the tree

  function TreeOf(c: State): SearchTree { c.tree }

  /**
   * A node scored `score` whose children were `before` now has `children`:
   * one more child per page variation of `offered`, after the ones it had,
   * each labelled with its page variation and scored with the node's score
   * plus the page variation's.
   */
  predicate GrewBy(children: seq<SearchTree>, score: real, before: seq<SearchTree>, offered: seq<PageVariation>)
  {
    |children| == |before| + |offered| && before <= children &&
    forall k :: 0 <= k < |offered| ==>
      children[|before| + k].current == Some(offered[k]) &&
      children[|before| + k].totalScore == score + offered[k].Score()
  }

  /**
   * The inner loop of `__beam_search` for one state: a new tree node per
   * offered page variation, appended to the state's children, and the state
   * that continues from it.
   */
  method Expand(c: State, offered: seq<PageVariation>) returns (next: seq<State>)
    modifies c.tree
    ensures Map(next, ScoredOf) == ChildrenOf(ScoredOf(c), offered)
    ensures c.tree.children == old(c.tree.children) + Map(next, TreeOf)
    ensures GrewBy(c.tree.children, c.tree.totalScore, old(c.tree.children), offered)
    ensures forall k :: 0 <= k < |next| ==>
      fresh(next[k].tree) && next[k].tree.current == Some(offered[k]) && next[k].tree.children == []
  {
    next := [];
    for j := 0 to |offered|
      invariant |next| == j
      invariant forall k :: 0 <= k < j ==> ScoredOf(next[k]) == Child(ScoredOf(c), offered[k])
      invariant c.tree.children == old(c.tree.children) + Map(next, TreeOf)
      invariant forall k :: 0 <= k < j ==>
        fresh(next[k].tree) && next[k].tree.current == Some(offered[k]) && next[k].tree.children == []
    {
      var child := AddChild(c, offered[j]);
      MapAppend(next, [child], TreeOf);
      next := next + [child];
    }
    ChildrenGrew(c, old(c.tree.children), next, offered);
  }

  /** The nodes of the children of `c`, appended to `before`, extend it by `offered`. */
  lemma ChildrenGrew(c: State, before: seq<SearchTree>, next: seq<State>, offered: seq<PageVariation>)
    requires |next| == |offered|
    requires forall k :: 0 <= k < |next| ==> ScoredOf(next[k]) == Child(ScoredOf(c), offered[k]) && next[k].tree.current == Some(offered[k])
    ensures GrewBy(before + Map(next, TreeOf), c.tree.totalScore, before, offered)
  {
  }

  /** One turn of the inner loop: the child node for `pageVariation`, hung under the state's node. */
  method AddChild(c: State, pageVariation: PageVariation) returns (child: State)
    modifies c.tree
    ensures ScoredOf(child) == Child(ScoredOf(c), pageVariation)
    ensures c.tree.children == old(c.tree.children) + [child.tree]
    ensures fresh(child.tree) && child.tree.current == Some(pageVariation) && child.tree.children == []
  {
    var score := ComputeScore(pageVariation);
    var nextPage := new SearchTree(c.tree.totalScore + score, Some(pageVariation));
    c.tree.children := c.tree.children + [nextPage];
    child := State(nextPage, c.path + [pageVariation]);
  }
}
