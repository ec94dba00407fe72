/**
 * The element container of a page: the visible, describable nodes as
 * elements with their words, grouped by the kinds of step that can act on
 * them, and later given their vectors.
 */
module ElementContainers {
  import opened Wrappers
  import opened Seqs
  import opened WordUtil
  import opened Locators
  import opened Setting
  import opened Elements
  import opened PageTags
  import opened Calculator

  // ---------------------------------------------------------------------------
  // Words of a node

  /** `__is_invisible`: a hidden field, or a link without text (`and` binds tighter than `or`). */
  predicate IsInvisible(node: Node)
  {
    node.Get("type") == Some("hidden") || (node.name == Some("a") && node.text == "")
  }

  /** An attribute that yields words: not excluded and not empty. */
  predicate Contributes(attr: (string, string), cfg: Config)
  {
    attr.0 !in cfg.exceptAttrs && attr.1 != ""
  }

  /** The split words of the contributing attribute values, in attribute order. */
  function AttrValueWords(attrs: seq<(string, string)>, cfg: Config): seq<string>
  {
    if attrs == [] then []
    else
      var n := |attrs| - 1;
      AttrValueWords(attrs[..n], cfg) + (if Contributes(attrs[n], cfg) then Words(attrs[n].1) else [])
  }

  /** What `__extract_attr_words` returns: attribute words, then the words of the text, filtered. */
  function AttrWords(node: Node, cfg: Config): seq<string>
  {
    Filter(AttrValueWords(node.attrs, cfg) + Words(node.text), cfg.AllStopWords())
  }

  /** What `__extract_label` returns: the label texts of the id, when the id is present and non-empty. */
  function Labels(node: Node, labels: string -> seq<string>): seq<string>
  {
    match node.Get("id")
    case Some(v) => if v != "" then labels(v) else []
    case None => []
  }

  /** The split words of each label, in order. */
  function LabelWords(ls: seq<string>): seq<string>
  {
    if ls == [] then [] else LabelWords(ls[..|ls| - 1]) + Words(ls[|ls| - 1])
  }

  /** What `__extract_text_words` returns: label words, then the words of the text, filtered. */
  function TextWords(node: Node, labels: string -> seq<string>, cfg: Config): seq<string>
  {
    Filter(LabelWords(Labels(node, labels)) + Words(node.text), cfg.AllStopWords())
  }

  /** `__extract_attr_words`: extends the word list attribute by attribute, then by the text. */
  method ExtractAttrWords(node: Node, cfg: Config) returns (words: seq<string>)
    ensures words == AttrWords(node, cfg)
  {
    var attrs := node.attrs;
    words := [];
    for i := 0 to |attrs|
      invariant words == AttrValueWords(attrs[..i], cfg)
    {
      assert attrs[..i + 1][..i] == attrs[..i];
      if attrs[i].0 !in cfg.exceptAttrs && attrs[i].1 != "" {
        var split := Split(attrs[i].1);
        words := words + split;
      }
    }
    assert attrs[..|attrs|] == attrs;
    var split := Split(node.text);
    words := Filter(words + split, cfg.AllStopWords());
  }

  /** `__extract_text_words`: extends the word list label by label, then by the text. */
  method ExtractTextWords(node: Node, labels: string -> seq<string>, cfg: Config) returns (words: seq<string>)
    ensures words == TextWords(node, labels, cfg)
  {
    var ls: seq<string> := [];
    if node.Has("id") && node.Get("id").value != "" {
      ls := labels(node.Get("id").value);
    }
    words := [];
    for i := 0 to |ls|
      invariant words == LabelWords(ls[..i])
    {
      assert ls[..i + 1][..i] == ls[..i];
      var split := Split(ls[i]);
      words := words + split;
    }
    assert ls[..|ls|] == ls;
    var split := Split(node.text);
    words := Filter(words + split, cfg.AllStopWords());
  }

  lemma {:induction false} AttrValueWordsAppend(a: seq<(string, string)>, b: seq<(string, string)>, cfg: Config)
    ensures AttrValueWords(a + b, cfg) == AttrValueWords(a, cfg) + AttrValueWords(b, cfg)
    decreases |b|
  {
    if b == [] {
      assert a + b == a;
    } else {
      var n := |b| - 1;
      assert (a + b)[..|a + b| - 1] == a + b[..n];
      AttrValueWordsAppend(a, b[..n], cfg);
    }
  }

  /** An excluded or empty-valued attribute contributes nothing, wherever it stands. */
  lemma IgnoredAttribute(a: seq<(string, string)>, attr: (string, string), b: seq<(string, string)>, cfg: Config)
    requires attr.0 in cfg.exceptAttrs || attr.1 == ""
    ensures AttrValueWords(a + [attr] + b, cfg) == AttrValueWords(a + b, cfg)
  {
    AttrValueWordsAppend(a + [attr], b, cfg);
    AttrValueWordsAppend(a, [attr], cfg);
    AttrValueWordsAppend(a, b, cfg);
    assert [attr][..0] == [];
  }

  lemma AttrValueWordsParts(a: seq<(string, string)>, x: (string, string), y: (string, string), b: seq<(string, string)>, text: seq<string>, cfg: Config)
    ensures AttrValueWords(a + [x, y] + b, cfg) + text
         == AttrValueWords(a, cfg) + AttrValueWords([x], cfg) + AttrValueWords([y], cfg) + (AttrValueWords(b, cfg) + text)
  {
    assert a + [x, y] + b == a + [x] + [y] + b;
    AttrValueWordsAppend(a + [x] + [y], b, cfg);
    AttrValueWordsAppend(a + [x], [y], cfg);
    AttrValueWordsAppend(a, [x], cfg);
  }

  /**
   * The order of the attributes only orders the attribute words: swapping two
   * neighbouring attributes keeps the same words, each as often.
   */
  lemma SwappedAttributes(node: Node, a: seq<(string, string)>, x: (string, string), y: (string, string), b: seq<(string, string)>, cfg: Config)
    ensures multiset(AttrWords(node.(attrs := a + [y, x] + b), cfg)) == multiset(AttrWords(node.(attrs := a + [x, y] + b), cfg))
  {
    var text := Words(node.text);
    AttrValueWordsParts(a, x, y, b, text, cfg);
    AttrValueWordsParts(a, y, x, b, text, cfg);
    FilterSwap(AttrValueWords(a, cfg), AttrValueWords([x], cfg), AttrValueWords([y], cfg), AttrValueWords(b, cfg) + text, cfg.AllStopWords());
  }

  /** Attribute and text words are lower-case, at least two letters long and not stop words. */
  lemma WordsClean(node: Node, labels: string -> seq<string>, cfg: Config)
    ensures forall w :: w in AttrWords(node, cfg) ==> IsLowerWord(w) && |w| >= 2 && w !in cfg.AllStopWords()
    ensures forall w :: w in TextWords(node, labels, cfg) ==> IsLowerWord(w) && |w| >= 2 && w !in cfg.AllStopWords()
  {
    FilterKeeps(AttrValueWords(node.attrs, cfg) + Words(node.text), cfg.AllStopWords());
    FilterKeeps(LabelWords(Labels(node, labels)) + Words(node.text), cfg.AllStopWords());
  }

  /** Without a non-empty id no label is consulted: the text words are those of the text alone. */
  lemma TextWordsWithoutId(node: Node, labels: string -> seq<string>, cfg: Config)
    requires node.Get("id").None? || node.Get("id") == Some("")
    ensures TextWords(node, labels, cfg) == Filter(Words(node.text), cfg.AllStopWords())
  {
    assert LabelWords(Labels(node, labels)) + Words(node.text) == Words(node.text);
  }

  // ---------------------------------------------------------------------------
  // Extraction

  /** `extract_element` keeps a node when it is visible and has attribute words. */
  predicate Kept(node: Node, cfg: Config)
  {
    !IsInvisible(node) && AttrWords(node, cfg) != []
  }

  /** The element made from the node at index `i`. */
  function MakeElement(node: Node, i: nat, labels: string -> seq<string>, cfg: Config): Element
  {
    NewElement(node, i, AttrWords(node, cfg), TextWords(node, labels, cfg))
  }

  /** `Kept` as a function value. */
  function KeepFn(cfg: Config): Node -> bool
  {
    (n: Node) => Kept(n, cfg)
  }

  /** `MakeElement` as a function value. */
  function MakeFn(labels: string -> seq<string>, cfg: Config): (Node, nat) -> Element
  {
    (n: Node, i: nat) => MakeElement(n, i, labels, cfg)
  }

  /** The indices of the nodes `keep` accepts, in order. */
  function KeptIndices(nodes: seq<Node>, keep: Node -> bool): seq<nat>
  {
    if nodes == [] then []
    else
      var n := |nodes| - 1;
      KeptIndices(nodes[..n], keep) + (if keep(nodes[n]) then [n] else [])
  }

  /** The accepted nodes, each made into an element with its index. */
  function ExtractedBy(nodes: seq<Node>, keep: Node -> bool, make: (Node, nat) -> Element): seq<Element>
  {
    if nodes == [] then []
    else
      var n := |nodes| - 1;
      ExtractedBy(nodes[..n], keep, make) + (if keep(nodes[n]) then [make(nodes[n], n)] else [])
  }

  /** The elements `extract_element` builds from the page's nodes, in node order. */
  function Extracted(nodes: seq<Node>, labels: string -> seq<string>, cfg: Config): seq<Element>
  {
    ExtractedBy(nodes, KeepFn(cfg), MakeFn(labels, cfg))
  }

  /** The kept indices are in range, accepted, strictly increasing, and include every accepted index. */
  lemma KeptIndicesSpec(nodes: seq<Node>, keep: Node -> bool)
    ensures var idx := KeptIndices(nodes, keep);
      (forall k :: 0 <= k < |idx| ==> idx[k] < |nodes| && keep(nodes[idx[k]])) &&
      (forall j, k :: 0 <= j < k < |idx| ==> idx[j] < idx[k]) &&
      (forall i :: 0 <= i < |nodes| && keep(nodes[i]) ==> i in idx)
  {
    KeptIndicesAccepted(nodes, keep);
    KeptIndicesIncreasing(nodes, keep);
    KeptIndicesComplete(nodes, keep);
  }

  lemma {:induction false} KeptIndicesAccepted(nodes: seq<Node>, keep: Node -> bool)
    ensures forall k :: 0 <= k < |KeptIndices(nodes, keep)| ==>
      KeptIndices(nodes, keep)[k] < |nodes| && keep(nodes[KeptIndices(nodes, keep)[k]])
  {
    if nodes != [] {
      var n := |nodes| - 1;
      var prev := KeptIndices(nodes[..n], keep);
      KeptIndicesAccepted(nodes[..n], keep);
      var idx := KeptIndices(nodes, keep);
      assert idx == prev + (if keep(nodes[n]) then [n] else []);
      forall k | 0 <= k < |idx| ensures idx[k] < |nodes| && keep(nodes[idx[k]]) {
        if k < |prev| {
          assert idx[k] == prev[k];
          assert nodes[..n][prev[k]] == nodes[prev[k]];
        }
      }
    }
  }

  lemma {:induction false} KeptIndicesIncreasing(nodes: seq<Node>, keep: Node -> bool)
    ensures forall k :: 0 <= k < |KeptIndices(nodes, keep)| ==> KeptIndices(nodes, keep)[k] < |nodes|
    ensures forall j, k :: 0 <= j < k < |KeptIndices(nodes, keep)| ==> KeptIndices(nodes, keep)[j] < KeptIndices(nodes, keep)[k]
  {
    if nodes != [] {
      var n := |nodes| - 1;
      var prev := KeptIndices(nodes[..n], keep);
      KeptIndicesIncreasing(nodes[..n], keep);
      var idx := KeptIndices(nodes, keep);
      assert idx == prev + (if keep(nodes[n]) then [n] else []);
      assert forall k :: 0 <= k < |prev| ==> idx[k] == prev[k];
    }
  }

  lemma {:induction false} KeptIndicesComplete(nodes: seq<Node>, keep: Node -> bool)
    ensures forall i :: 0 <= i < |nodes| && keep(nodes[i]) ==> i in KeptIndices(nodes, keep)
  {
    if nodes != [] {
      var n := |nodes| - 1;
      var prev := KeptIndices(nodes[..n], keep);
      KeptIndicesComplete(nodes[..n], keep);
      var idx := KeptIndices(nodes, keep);
      assert idx == prev + (if keep(nodes[n]) then [n] else []);
      forall i | 0 <= i < |nodes| && keep(nodes[i]) ensures i in idx {
        if i < n {
          assert nodes[..n][i] == nodes[i];
          assert i in prev;
        }
      }
    }
  }

  /** The extracted elements are the kept indices, made into elements. */
  lemma {:induction false} ExtractedByIndices(nodes: seq<Node>, keep: Node -> bool, make: (Node, nat) -> Element)
    ensures var idx := KeptIndices(nodes, keep); var es := ExtractedBy(nodes, keep, make);
      |es| == |idx| && forall k :: 0 <= k < |idx| ==> idx[k] < |nodes| && es[k] == make(nodes[idx[k]], idx[k])
  {
    if nodes != [] {
      var n := |nodes| - 1;
      ExtractedByIndices(nodes[..n], keep, make);
      assert forall i :: 0 <= i < n ==> nodes[..n][i] == nodes[i];
    }
  }

  /**
   * Extraction skips invisible nodes and nodes without attribute words, keeps
   * node order, and gives each element its index among all nodes, so ids
   * strictly increase but may skip values.
   */
  lemma ExtractedSpec(nodes: seq<Node>, labels: string -> seq<string>, cfg: Config)
    ensures var es := Extracted(nodes, labels, cfg);
      (forall k :: 0 <= k < |es| ==>
        es[k].id < |nodes| && Kept(nodes[es[k].id], cfg) && es[k] == MakeElement(nodes[es[k].id], es[k].id, labels, cfg)) &&
      (forall j, k :: 0 <= j < k < |es| ==> es[j].id < es[k].id) &&
      (forall i :: 0 <= i < |nodes| && Kept(nodes[i], cfg) ==> exists k :: 0 <= k < |es| && es[k].id == i)
  {
    var idx := KeptIndices(nodes, KeepFn(cfg));
    var es := Extracted(nodes, labels, cfg);
    KeptIndicesSpec(nodes, KeepFn(cfg));
    ExtractedByIndices(nodes, KeepFn(cfg), MakeFn(labels, cfg));
    assert forall k :: 0 <= k < |es| ==> es[k].id == idx[k];
    forall i | 0 <= i < |nodes| && Kept(nodes[i], cfg) ensures exists k :: 0 <= k < |es| && es[k].id == i {
      assert KeepFn(cfg)(nodes[i]);
      var k :| 0 <= k < |idx| && idx[k] == i;
      assert es[k].id == i;
    }
  }

  // ---------------------------------------------------------------------------
  // Grouping by kind

  /** `input` types that make the element a click target. */
  const ClickTypes: set<string> := {"radio", "checkbox", "submit", "image", "button"}

  /** The kind an `input` goes to: CLICK for button-like types, ENTER otherwise, also without a type. */
  function InputKind(node: Node): (t: OperationType)
    ensures t == Click <==> node.Has("type") && node.Get("type").value in ClickTypes
    ensures t == Click || t == Enter
  {
    if node.Has("type") && node.Get("type").value in ClickTypes then Click else Enter
  }

  /** A step of kind `t` can act on `e`: by its tag, or as an input of that kind. */
  predicate Targets(e: Element, t: OperationType, cfg: Config)
    requires t.IsLocatable()
  {
    (e.name.Some? && e.name.value in TargetTags(t, cfg)) || (e.name == Some("input") && InputKind(e.node) == t)
  }

  /** The element, when its tag is one of the kind's tags. */
  function ByTag(e: Element, t: OperationType, cfg: Config): seq<Element>
    requires t.IsLocatable()
  {
    if e.name.Some? && e.name.value in TargetTags(t, cfg) then [e] else []
  }

  /** The element, when it is an input of the kind. */
  function AsInput(e: Element, t: OperationType): seq<Element>
  {
    if e.name == Some("input") && InputKind(e.node) == t then [e] else []
  }

  /** What one element adds to the list of kind `t`: once for its tag, once more as an input. */
  function Contribution(e: Element, t: OperationType, cfg: Config): seq<Element>
    requires t.IsLocatable()
  {
    ByTag(e, t, cfg) + AsInput(e, t)
  }

  /** The list `__create_elem_dict` builds for kind `t`. */
  function ElemsOf(elems: seq<Element>, t: OperationType, cfg: Config): seq<Element>
    requires t.IsLocatable()
  {
    if elems == [] then [] else ElemsOf(elems[..|elems| - 1], t, cfg) + Contribution(elems[|elems| - 1], t, cfg)
  }

  /** The list a `defaultdict` holds for `t`: the empty list when the key was never filled. */
  function ElemsIn(d: map<OperationType, seq<Element>>, t: OperationType): seq<Element>
  {
    if t in d then d[t] else []
  }

  /** An element is in the list of kind `t` exactly when it is one of the elements and `t` targets it. */
  lemma {:induction false} ElemsOfMember(elems: seq<Element>, t: OperationType, cfg: Config, x: Element)
    requires t.IsLocatable()
    ensures x in ElemsOf(elems, t, cfg) <==> x in elems && Targets(x, t, cfg)
  {
    if elems != [] {
      var n := |elems| - 1;
      ElemsOfMember(elems[..n], t, cfg, x);
      assert elems == elems[..n] + [elems[n]];
    }
  }

  /**
   * With disjoint tag sets each element is in the list of at most one kind,
   * and every element whose tag is one of all the tags is in some list.
   */
  lemma KindsPartition(elems: seq<Element>, cfg: Config, x: Element)
    requires TagsDisjoint(cfg)
    ensures forall t1: OperationType, t2: OperationType ::
      t1.IsLocatable() && t2.IsLocatable() && x in ElemsOf(elems, t1, cfg) && x in ElemsOf(elems, t2, cfg) ==> t1 == t2
    ensures x in elems && x.name.Some? && x.name.value in AllTags(cfg) ==>
      exists t: OperationType :: t.IsLocatable() && x in ElemsOf(elems, t, cfg)
  {
    TagsDisjointKinds(cfg);
    forall t: OperationType | t.IsLocatable() {
      ElemsOfMember(elems, t, cfg, x);
    }
    if x in elems && x.name.Some? && x.name.value in AllTags(cfg) {
      if x.name.value == "input" {
        assert x in ElemsOf(elems, InputKind(x.node), cfg);
      }
    }
  }

  // ---------------------------------------------------------------------------
  // Vectors

  /** The calculator can produce both vectors of `e`. */
  ghost predicate Weighable(vc: VectorCalculator, e: Element)
  {
    vc.model.Valid() && vc.CanWeigh(e.attrWords) && (e.textWords != [] ==> vc.CanWeigh(e.textWords))
  }

  /** The element after `append_vector` set its two vectors. */
  function WithVectors(e: Element, vc: VectorCalculator): (r: Element)
    requires Weighable(vc, e)
    ensures r.textVector.None? <==> r.textWords == []
    ensures r.(attrVector := e.attrVector, textVector := e.textVector) == e
  {
    e.(attrVector := vc.ElemVector(e), textVector := vc.TextVector(e))
  }

  function MapVectors(es: seq<Element>, vc: VectorCalculator): (r: seq<Element>)
    requires forall e :: e in es ==> Weighable(vc, e)
    ensures |r| == |es| && forall i :: 0 <= i < |es| ==> r[i] == WithVectors(es[i], vc)
  {
    seq(|es|, i requires 0 <= i < |es| => WithVectors(es[i], vc))
  }

  lemma MapVectorsAppend(a: seq<Element>, b: seq<Element>, vc: VectorCalculator)
    requires forall e :: e in a + b ==> Weighable(vc, e)
    ensures MapVectors(a + b, vc) == MapVectors(a, vc) + MapVectors(b, vc)
  {
  }

  /** Every element of a kind's list can be weighed when every element can. */
  lemma KindWeighable(elems: seq<Element>, t: OperationType, cfg: Config, vc: VectorCalculator)
    requires t.IsLocatable() && forall e :: e in elems ==> Weighable(vc, e)
    ensures forall e :: e in ElemsOf(elems, t, cfg) ==> Weighable(vc, e)
  {
    forall e | e in ElemsOf(elems, t, cfg) ensures Weighable(vc, e) {
      ElemsOfMember(elems, t, cfg, e);
    }
  }

  /** Setting the vectors changes neither the tag nor the attributes, so the element's share of each list is the same. */
  lemma ContributionWithVectors(e: Element, t: OperationType, cfg: Config, vc: VectorCalculator)
    requires t.IsLocatable() && Weighable(vc, e)
    ensures Contribution(WithVectors(e, vc), t, cfg) == MapVectors(Contribution(e, t, cfg), vc)
  {
  }

  /**
   * Setting the vectors commutes with grouping: the lists of the updated
   * elements are the updated lists, so updating the elements in place is the
   * same as updating the lists that share them.
   */
  lemma {:induction false} VectorsKeepKinds(elems: seq<Element>, t: OperationType, cfg: Config, vc: VectorCalculator)
    requires t.IsLocatable() && forall e :: e in elems ==> Weighable(vc, e)
    ensures forall e :: e in ElemsOf(elems, t, cfg) ==> Weighable(vc, e)
    ensures ElemsOf(MapVectors(elems, vc), t, cfg) == MapVectors(ElemsOf(elems, t, cfg), vc)
  {
    KindWeighable(elems, t, cfg, vc);
    if elems != [] {
      var n := |elems| - 1;
      VectorsKeepKinds(elems[..n], t, cfg, vc);
      VectorsKeepKindsStep(elems, t, cfg, vc);
    }
  }

  lemma VectorsKeepKindsStep(elems: seq<Element>, t: OperationType, cfg: Config, vc: VectorCalculator)
    requires elems != [] && t.IsLocatable() && forall e :: e in elems ==> Weighable(vc, e)
    requires forall e :: e in ElemsOf(elems[..|elems| - 1], t, cfg) ==> Weighable(vc, e)
    requires ElemsOf(MapVectors(elems[..|elems| - 1], vc), t, cfg) == MapVectors(ElemsOf(elems[..|elems| - 1], t, cfg), vc)
    requires forall e :: e in ElemsOf(elems, t, cfg) ==> Weighable(vc, e)
    ensures ElemsOf(MapVectors(elems, vc), t, cfg) == MapVectors(ElemsOf(elems, t, cfg), vc)
  {
    var n := |elems| - 1;
    var mapped := MapVectors(elems, vc);
    assert mapped[..n] == MapVectors(elems[..n], vc);
    ContributionWithVectors(elems[n], t, cfg, vc);
    MapVectorsAppend(ElemsOf(elems[..n], t, cfg), Contribution(elems[n], t, cfg), vc);
  }

  lemma ElemsOfSnoc(elems: seq<Element>, i: nat, t: OperationType, cfg: Config)
    requires i < |elems| && t.IsLocatable()
    ensures ElemsOf(elems[..i + 1], t, cfg) == ElemsOf(elems[..i], t, cfg) + ByTag(elems[i], t, cfg) + AsInput(elems[i], t)
  {
    assert elems[..i + 1][..i] == elems[..i];
  }

  /** `d` holds, for each locatable kind and nothing else, the list `__create_elem_dict` builds. */
  ghost predicate GroupsOf(d: map<OperationType, seq<Element>>, elems: seq<Element>, cfg: Config)
  {
    (forall t :: t in d ==> t.IsLocatable()) &&
    (forall t: OperationType :: t.IsLocatable() ==> ElemsIn(d, t) == ElemsOf(elems, t, cfg))
  }

  lemma ThreeLists(elems: seq<Element>, cfg: Config)
    ensures GroupsOf(map[Click := ElemsOf(elems, Click, cfg), Enter := ElemsOf(elems, Enter, cfg),
      Select := ElemsOf(elems, Select, cfg)], elems, cfg)
  {
  }

  /** One pass of the grouping loop: appends `e` to the list of each kind it belongs to. */
  method Distribute(e: Element, cfg: Config, clicks: seq<Element>, enters: seq<Element>, selects: seq<Element>)
    returns (clicks': seq<Element>, enters': seq<Element>, selects': seq<Element>)
    ensures clicks' == clicks + ByTag(e, Click, cfg) + AsInput(e, Click)
    ensures enters' == enters + ByTag(e, Enter, cfg) + AsInput(e, Enter)
    ensures selects' == selects + ByTag(e, Select, cfg) + AsInput(e, Select)
  {
    clicks', enters', selects' := clicks, enters, selects;
    if e.name.Some? && e.name.value in TargetTags(Click, cfg) {
      clicks' := clicks' + [e];
    }
    if e.name.Some? && e.name.value in TargetTags(Enter, cfg) {
      enters' := enters' + [e];
    }
    if e.name.Some? && e.name.value in TargetTags(Select, cfg) {
      selects' := selects' + [e];
    }
    assert clicks' == clicks + ByTag(e, Click, cfg);
    assert enters' == enters + ByTag(e, Enter, cfg);
    if e.name == Some("input") {
      if InputKind(e.node) == Click {
        clicks' := clicks' + [e];
      } else {
        enters' := enters' + [e];
      }
    }
  }

  class ElementContainer {
    var elems: seq<Element>
    var elemDict: map<OperationType, seq<Element>>

    /** The lists by kind are those `__create_elem_dict` builds from the current elements. */
    ghost predicate Grouped(cfg: Config)
      reads this
    {
      GroupsOf(elemDict, elems, cfg)
    }

    constructor ()
      ensures elems == [] && elemDict == map[]
    {
      elems := [];
      elemDict := map[];
    }

    /** `get_elems_of`: the list of the kind, empty when no element went to it. */
    function GetElemsOf(t: OperationType): (r: seq<Element>)
      reads this
      ensures forall cfg: Config :: Grouped(cfg) && t.IsLocatable() ==> r == ElemsOf(elems, t, cfg)
      ensures forall cfg: Config :: Grouped(cfg) && !t.IsLocatable() ==> r == []
    {
      ElemsIn(elemDict, t)
    }

    /**
     * `extract_element`: rebuilds the elements from the page's nodes, skipping
     * invisible ones and ones without attribute words, then regroups them.
     */
    method ExtractElement(nodes: seq<Node>, labels: string -> seq<string>, cfg: Config)
      modifies this
      ensures elems == Extracted(nodes, labels, cfg)
      ensures Grouped(cfg)
    {
      elems := [];
      for i := 0 to |nodes|
        invariant elems == Extracted(nodes[..i], labels, cfg)
      {
        assert nodes[..i + 1][..i] == nodes[..i];
        var node := nodes[i];
        if !(node.Get("type") == Some("hidden") || (node.name == Some("a") && node.text == "")) {
          var attrWords := ExtractAttrWords(node, cfg);
          if attrWords != [] {
            var textWords := ExtractTextWords(node, labels, cfg);
            elems := elems + [NewElement(node, i, attrWords, textWords)];
          }
        }
      }
      assert nodes[..|nodes|] == nodes;
      CreateElemDict(cfg);
    }

    /**
     * `__create_elem_dict`: appends each element to the lists of its kinds, in
     * element order. The three lists are kept apart while they are filled and
     * stored by kind at the end; a kind nobody went to reads as empty either way.
     */
    method CreateElemDict(cfg: Config)
      modifies this
      ensures elems == old(elems)
      ensures Grouped(cfg)
    {
      var es := elems;
      var clicks: seq<Element> := [];
      var enters: seq<Element> := [];
      var selects: seq<Element> := [];
      for i := 0 to |es|
        invariant elems == es
        invariant clicks == ElemsOf(es[..i], Click, cfg)
        invariant enters == ElemsOf(es[..i], Enter, cfg)
        invariant selects == ElemsOf(es[..i], Select, cfg)
      {
        clicks, enters, selects := Distribute(es[i], cfg, clicks, enters, selects);
        ElemsOfSnoc(es, i, Click, cfg);
        ElemsOfSnoc(es, i, Enter, cfg);
        ElemsOfSnoc(es, i, Select, cfg);
      }
      assert es[..|es|] == es;
      ThreeLists(es, cfg);
      elemDict := map[Click := clicks, Enter := enters, Select := selects];
    }

    /**
     * `append_vector`: gives every element its attribute and text vectors. The
     * lists by kind share the element objects, so they see the same update.
     */
    method AppendVector(vc: VectorCalculator)
      requires forall e :: e in elems ==> Weighable(vc, e)
      requires forall t, e :: t in elemDict && e in elemDict[t] ==> Weighable(vc, e)
      modifies this
      ensures elems == MapVectors(old(elems), vc)
      ensures elemDict.Keys == old(elemDict).Keys
      ensures forall t :: t in elemDict ==> elemDict[t] == MapVectors(old(elemDict)[t], vc)
      ensures forall e :: e in elems ==> (e.textVector.None? <==> e.textWords == [])
    {
      for i := 0 to |elems|
        invariant |elems| == |old(elems)|
        invariant forall k :: 0 <= k < i ==> elems[k] == WithVectors(old(elems)[k], vc)
        invariant forall k :: i <= k < |elems| ==> elems[k] == old(elems)[k]
        invariant elemDict == old(elemDict)
      {
        elems := elems[i := WithVectors(elems[i], vc)];
      }
      elemDict := map t | t in elemDict :: MapVectors(elemDict[t], vc);
    }
  }

  /** After regrouping, setting the vectors leaves the lists equal to the lists of the updated elements. */
  lemma AppendVectorKeepsGrouping(elems: seq<Element>, cfg: Config, vc: VectorCalculator)
    requires forall e :: e in elems ==> Weighable(vc, e)
    ensures forall t: OperationType :: t.IsLocatable() ==>
      (forall e :: e in ElemsOf(elems, t, cfg) ==> Weighable(vc, e)) &&
      ElemsOf(MapVectors(elems, vc), t, cfg) == MapVectors(ElemsOf(elems, t, cfg), vc)
  {
    forall t: OperationType | t.IsLocatable() {
      VectorsKeepKinds(elems, t, cfg, vc);
    }
  }
}
