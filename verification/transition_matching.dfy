/**
 * `TransitionMatchingStrategy.to_code`: the beam search over the locatable
 * pages of a test case, then the code of each codable page under the page
 * variation the search chose for it, wrapped into one test method.
 */
module TransitionMatching {
  import opened Wrappers
  import opened Seqs
  import opened Setting
  import opened Operation
  import opened TestCases
  import opened Variations
  import opened Ranking
  import opened PageVariations
  import opened SearchTrees
  import opened BeamSearch
  import opened PageSplit
  import opened ScriptWriters
  import L = Locators

  const Indent: string := "\n    "

  /** `__construct_method_string`: a test method taking the driver, one code line per indented line. */
  function MethodString(name: string, lines: seq<string>): string
  {
    "def " + name + "(driver):" + Indent + Join(lines, Indent) + "\n"
  }

  predicate AllCodablePages(pages: seq<seq<Step>>)
  {
    forall i :: 0 <= i < |pages| ==> AllCodable(pages[i])
  }

  /** The locatable pages hold locatable steps only. */
  lemma LocatablePages(steps: seq<Step>)
    ensures AllPagesLocatable(Pages(steps, LocatableClass))
  {
    PagesOfClass(steps, LocatableClass);
  }

  /** The codable pages hold codable steps only. */
  lemma CodablePages(steps: seq<Step>)
    ensures AllCodablePages(Pages(steps, CodableClass))
  {
    PagesOfClass(steps, CodableClass);
  }

  /**
   * The code lines and the paths handed to the locator writer for the first
   * `n` pages, each rendered under its page variation of `path`; the first
   * page that fails decides the error.
   */
  function PagesCode(path: seq<PageVariation>, pages: seq<seq<Step>>, n: nat): Result<(seq<string>, seq<L.Locator>)>
    requires AllCodablePages(pages) && n <= |path| && n <= |pages|
  {
    if n == 0 then Ok(([], []))
    else
      var prev := PagesCode(path, pages, n - 1);
      var c := CodeOf(path[n - 1], pages[n - 1]);
      if prev.Err? then prev
      else if c.Err? then c
      else Ok((prev.value.0 + c.value.0, prev.value.1 + c.value.1))
  }

  /**
   * What `to_code` gives for a test case: the test method and the paths
   * handed to the locator writer, or the exit with status 1 that any error
   * ends in. `browse` stands for the browser the search replays paths on.
   */
  function Generated(tc: TestCase, browse: seq<PageVariation> -> Page, cfg: Config): Result<(string, seq<L.Locator>)>
  {
    var locPages := Pages(tc.steps, LocatableClass);
    var codePages := Pages(tc.steps, CodableClass);
    LocatablePages(tc.steps);
    CodablePages(tc.steps);
    var best := BestPath([Scored(0.0, [])], 0, |locPages|, Offers(locPages, browse, cfg), cfg.beamWidth);
    if best.Err? then Err(SystemExit(1))
    else
      var n := if |best.value| < |codePages| then |best.value| else |codePages|;
      var code := PagesCode(best.value, codePages, n);
      if code.Err? then Err(SystemExit(1))
      else Ok((MethodString(tc.name, code.value.0), code.value.1))
  }

  /** Once the first pages fail, so do all of them. */
  lemma {:induction false} PagesCodeErrSticks(path: seq<PageVariation>, pages: seq<seq<Step>>, i: nat, n: nat)
    requires AllCodablePages(pages) && i <= n <= |path| && n <= |pages|
    requires PagesCode(path, pages, i).Err?
    ensures PagesCode(path, pages, n).Err?
    decreases n - i
  {
    if i < n {
      PagesCodeErrSticks(path, pages, i + 1, n);
    }
  }

  /** When every page renders, so do the first `n` together. */
  lemma {:induction false} PagesCodeOk(path: seq<PageVariation>, pages: seq<seq<Step>>, n: nat)
    requires AllCodablePages(pages) && n <= |path| && n <= |pages|
    requires forall d :: 0 <= d < n ==> CodeOf(path[d], pages[d]).Ok?
    ensures PagesCode(path, pages, n).Ok?
  {
    if n > 0 {
      PagesCodeOk(path, pages, n - 1);
    }
  }

  /**
   * `to_code`: splits the steps into locatable pages, searches from a fresh
   * root, then renders the codable pages zipped with the best path, handing
   * every path to the locator writer, and builds the method text.
   */
  method ToCode(tc: TestCase, browse: seq<PageVariation> -> Page, cfg: Config, writer: LocatorWriter) returns (r: Result<string>)
    modifies writer
    ensures r.Ok? <==> Generated(tc, browse, cfg).Ok?
    ensures r.Ok? ==> r.value == Generated(tc, browse, cfg).value.0
    ensures r.Ok? ==> writer.script == Appended(old(writer.script), Generated(tc, browse, cfg).value.1)
    ensures r.Err? ==> r == Err(SystemExit(1))
  {
    var locPages := FilterByTypeAndSplit(tc.steps, LocatableClass);
    LocatablePages(tc.steps);
    var root := new SearchTree(0.0, None);
    var candidates := [State(root, [])];
    assert Map(candidates, ScoredOf) == [Scored(0.0, [])];
    var best := Search(candidates, 0, locPages, browse, cfg);
    if best.Err? {
      return Err(SystemExit(1));
    }
    var path := best.value;
    var codePages := FilterByTypeAndSplit(tc.steps, CodableClass);
    CodablePages(tc.steps);
    var n := if |path| < |codePages| then |path| else |codePages|;
    var lines: seq<string> := [];
    var locs: seq<L.Locator> := [];
    ghost var start := writer.script;
    for i := 0 to n
      invariant PagesCode(path, codePages, i) == Ok((lines, locs))
      invariant writer.script == Appended(start, locs)
    {
      var c := Variations.ToCode(path[i], codePages[i]);
      if c.Err? {
        PagesCodeErrSticks(path, codePages, i + 1, n);
        return Err(SystemExit(1));
      }
      WriteLocators(writer, c.value.1);
      AppendedConcat(start, locs, c.value.1);
      lines := lines + c.value.0;
      locs := locs + c.value.1;
    }
    r := Ok(MethodString(tc.name, lines));
  }

  /** `LocatorWriter.append` for each path of one page, in order. */
  method WriteLocators(writer: LocatorWriter, locs: seq<L.Locator>)
    modifies writer
    ensures writer.script == Appended(old(writer.script), locs)
  {
    ghost var start := writer.script;
    for j := 0 to |locs|
      invariant writer.script == Appended(start, locs[..j])
    {
      assert locs[..j + 1][..j] == locs[..j];
      writer.Append(locs[j]);
    }
    assert locs[..|locs|] == locs;
  }

  /** A locatable kind counts the same steps in a page and in its locatable steps. */
  lemma {:induction false} KindCountOfClass(steps: seq<Step>, t: L.OperationType)
    requires t.IsLocatable()
    ensures KindCount(steps, t) == |OfKind(OfClass(steps, LocatableClass), t)|
  {
    if steps != [] {
      var init := steps[..|steps| - 1];
      var s := steps[|steps| - 1];
      KindCountOfClass(init, t);
      var o := OfClass(steps, LocatableClass);
      if s.IsLocatable() {
        assert o == OfClass(init, LocatableClass) + [s];
        assert o[..|o| - 1] == OfClass(init, LocatableClass);
        assert OfKind(o, t) == OfKind(OfClass(init, LocatableClass), t) + (if s.OperationType() == t then [s] else []);
      } else {
        assert o == OfClass(init, LocatableClass);
      }
    }
  }

  /** A variation offered for a kind has one element per step of that kind. */
  lemma OfferedKind(page: Page, locSteps: seq<Step>, t: L.OperationType, cfg: Config, v: Variation)
    requires AllLocatable(locSteps) && t.IsLocatable()
    requires Some(v) in KindVariations(page, locSteps, t, cfg)
    ensures |v.elems| == |OfKind(locSteps, t)|
  {
    var kv := KindVariations(page, locSteps, t, cfg);
    var k :| 0 <= k < |kv| && kv[k] == Some(v);
    assert Some(v) in VariationsOf(page, locSteps, t, cfg);
    VariationsOfChoices(page, locSteps, t, cfg, v);
  }

  /** Each kind of an offered page variation is among the variations offered for that kind. */
  lemma OfferedGet(page: Page, locSteps: seq<Step>, cfg: Config, pv: PageVariation, t: L.OperationType)
    requires AllLocatable(locSteps) && t.IsLocatable()
    requires pv in PageVariationsOf(page, locSteps, cfg)
    ensures pv.Get(t) in KindVariations(page, locSteps, t, cfg)
  {
    PageVariationsMember(page, locSteps, cfg, pv);
  }

  /**
   * A page variation offered for the locatable steps of a page has, for
   * every kind it places, one element per step of that kind on the page.
   */
  lemma ChosenFits(page: Page, codeSteps: seq<Step>, cfg: Config, pv: PageVariation)
    requires AllCodable(codeSteps) && AllLocatable(OfClass(codeSteps, LocatableClass))
    requires pv in PageVariationsOf(page, OfClass(codeSteps, LocatableClass), cfg)
    ensures Fits(pv, codeSteps)
  {
    var locSteps := OfClass(codeSteps, LocatableClass);
    forall t: L.OperationType | t.IsLocatable() && pv.Get(t).Some?
      ensures KindCount(codeSteps, t) <= |pv.Get(t).value.elems|
    {
      OfferedGet(page, locSteps, cfg, pv, t);
      OfferedKind(page, locSteps, t, cfg, pv.Get(t).value);
      KindCountOfClass(codeSteps, t);
    }
  }

  /**
   * Once every page the search visits has been extracted and given a
   * similarity, `to_code` does not fail in the search or in rendering: the
   * search from the root always finds a path with one page variation per
   * page, and every codable page renders under its page variation, since
   * each placed kind has exactly as many elements as the page has steps of
   * that kind. Failures while a page is extracted and its vectors computed
   * lie inside `browse`.
   */
  lemma ToCodeSucceeds(tc: TestCase, browse: seq<PageVariation> -> Page, cfg: Config)
    requires cfg.Valid()
    ensures Generated(tc, browse, cfg).Ok?
  {
    var locPages := Pages(tc.steps, LocatableClass);
    var codePages := Pages(tc.steps, CodableClass);
    LocatablePages(tc.steps);
    CodablePages(tc.steps);
    SearchFromRoot(locPages, browse, cfg);
    PagesLineUp(tc.steps);
    var p := BestPath([Scored(0.0, [])], 0, |locPages|, Offers(locPages, browse, cfg), cfg.beamWidth).value;
    forall d | 0 <= d < |p| ensures CodeOf(p[d], codePages[d]).Ok? {
      ChosenFits(browse(p[..d]), codePages[d], cfg, p[d]);
      CodeOkIffFits(p[d], codePages[d]);
    }
    PagesCodeOk(p, codePages, |p|);
  }
}
