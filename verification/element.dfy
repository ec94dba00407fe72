/**
 * A page element: the parsed HTML node it was made from, the index it had
 * among the page's nodes, its attribute and text words, the vectors the
 * calculator later attaches, and the locators it can be reached by.
 *
 * The HTML tree is not modelled; a `Node` carries what the element code reads
 * from it: tag name, attributes, text, and the chain of levels from the node
 * up to the document root (its own level first).
 */
module Elements {
  import opened Wrappers
  import opened Seqs
  import opened WordUtil
  import opened Locators

  /**
   * One step from a node up to its parent: the node's tag, how many children
   * of the parent carry that tag, and the node's 1-based position among them.
   */
  datatype Level = Level(tag: string, sameTagSiblings: nat, position: nat)

  /** A parsed HTML node; `name` is `None` for a text node. */
  datatype Node = Node(name: Option<string>, attrs: seq<(string, string)>, text: string, chain: seq<Level>)
  {
    /** `key in attrs` */
    predicate Has(key: string)
    {
      exists i :: 0 <= i < |attrs| && attrs[i].0 == key
    }

    /** `attrs[key]` when present. */
    function Get(key: string): (r: Option<string>)
      ensures r.Some? <==> Has(key)
    {
      Lookup(attrs, key)
    }

    /** The levels the path is built from: a text node starts from its parent. */
    function PathLevels(): seq<Level>
    {
      if name.Some? then chain else if chain == [] then [] else chain[1..]
    }
  }

  function Lookup(attrs: seq<(string, string)>, key: string): (r: Option<string>)
    ensures r.Some? <==> exists i :: 0 <= i < |attrs| && attrs[i].0 == key
    ensures r.Some? ==> (key, r.value) in attrs
  {
    if attrs == [] then None
    else if attrs[0].0 == key then Some(attrs[0].1)
    else
      var r := Lookup(attrs[1..], key);
      assert forall i :: 1 <= i < |attrs| ==> attrs[i] == attrs[1..][i - 1];
      assert forall i :: 0 <= i < |attrs| - 1 ==> attrs[1..][i] == attrs[i + 1];
      r
  }

  /** An element's attributes come from a dictionary: no key appears twice. */
  predicate DistinctKeys(attrs: seq<(string, string)>)
  {
    forall p, q :: 0 <= p < q < |attrs| ==> attrs[p].0 != attrs[q].0
  }

  /** With no key twice, looking up an attribute's key gives that attribute's value. */
  lemma {:induction false} LookupDistinct(attrs: seq<(string, string)>, i: nat)
    requires i < |attrs| && DistinctKeys(attrs)
    ensures Lookup(attrs, attrs[i].0) == Some(attrs[i].1)
  {
    if i > 0 {
      assert attrs[0].0 != attrs[i].0;
      assert attrs[1..][i - 1] == attrs[i];
      LookupDistinct(attrs[1..], i - 1);
    }
  }

  // ---------------------------------------------------------------------------
  // Decimal numbers

  function Digit(d: nat): char
    requires d < 10
  {
    ('0' as int + d) as char
  }

  predicate IsDigit(c: char) { '0' <= c <= '9' }

  /** `"%d" % n` */
  function Decimal(n: nat): (r: string)
    ensures |r| >= 1
    ensures forall i :: 0 <= i < |r| ==> IsDigit(r[i])
  {
    if n < 10 then [Digit(n)] else Decimal(n / 10) + [Digit(n % 10)]
  }

  /** The value of a string of decimal digits. */
  function DigitsValue(s: string): nat
  {
    if s == [] then 0
    else
      var c := s[|s| - 1];
      DigitsValue(s[..|s| - 1]) * 10 + (if IsDigit(c) then c as int - '0' as int else 0)
  }

  /** Reading the decimal form back gives the number. */
  lemma {:induction false} DecimalValue(n: nat)
    ensures DigitsValue(Decimal(n)) == n
  {
    if n >= 10 {
      DecimalValue(n / 10);
      var r := Decimal(n);
      assert r[..|r| - 1] == Decimal(n / 10);
    }
  }

  // ---------------------------------------------------------------------------
  // Positional paths

  /** The path component of one level: the bare tag, or `tag[k]` among same-tag siblings. */
  function Component(l: Level): string
  {
    if l.sameTagSiblings == 1 then l.tag else l.tag + "[" + Decimal(l.position) + "]"
  }

  /** The components leaf to root, as the loop collects them. */
  function Components(levels: seq<Level>): (r: seq<string>)
    ensures |r| == |levels|
    ensures forall i :: 0 <= i < |levels| ==> r[i] == Component(levels[i])
  {
    if levels == [] then [] else Components(levels[..|levels| - 1]) + [Component(levels[|levels| - 1])]
  }

  /** The absolute path of a node: its components root first, each after a `/`. */
  function XPathOf(node: Node): string
  {
    "/" + Join(Reverse(Components(node.PathLevels())), "/")
  }

  /** `__get_xpath`: walks up from the node collecting components, then reverses them. */
  method GetXPath(node: Node) returns (xpath: string)
    ensures xpath == XPathOf(node)
  {
    var levels := node.PathLevels();
    var components: seq<string> := [];
    for i := 0 to |levels|
      invariant components == Components(levels[..i])
    {
      assert levels[..i + 1][..i] == levels[..i];
      components := components + [Component(levels[i])];
    }
    assert levels[..|levels|] == levels;
    components := Reverse(components);
    xpath := "/" + Join(components, "/");
  }

  predicate IsSlash(c: char) { c == '/' }

  /** The index of the first `[` of `c`, or `|c|` when there is none. */
  function BracketAt(c: string): (k: nat)
    ensures k <= |c|
    ensures forall i :: 0 <= i < k ==> c[i] != '['
    ensures k < |c| ==> c[k] == '['
  {
    if c == [] then 0 else if c[0] == '[' then 0 else 1 + BracketAt(c[1..])
  }

  /** Reads a component back: its tag, and its position when it carries one. */
  function ParseComponent(c: string): (string, Option<nat>)
  {
    var k := BracketAt(c);
    if k + 2 <= |c| then (c[..k], Some(DigitsValue(c[k + 1..|c| - 1]))) else (c, None)
  }

  /** A tag that can be read back out of a path: no `/` and no `[`. */
  predicate PlainTag(tag: string)
  {
    forall i :: 0 <= i < |tag| ==> tag[i] != '/' && tag[i] != '['
  }

  /** The first `[` of `tag + "[" + rest` is the one after the tag. */
  lemma {:induction false} BracketAfterTag(tag: string, rest: string)
    requires PlainTag(tag)
    ensures BracketAt(tag + "[" + rest) == |tag|
  {
    if tag != [] {
      BracketAfterTag(tag[1..], rest);
      assert (tag + "[" + rest)[1..] == tag[1..] + "[" + rest;
    } else {
      assert (tag + "[" + rest)[0] == '[';
    }
  }

  /** A component is read back to the level's tag and, when siblings share it, its position. */
  lemma ComponentRoundTrip(l: Level)
    requires PlainTag(l.tag)
    ensures ParseComponent(Component(l)) == Decoded(l)
  {
    var c := Component(l);
    if l.sameTagSiblings == 1 {
      assert BracketAt(c) == |c|;
    } else {
      var d := Decimal(l.position);
      assert c == l.tag + "[" + (d + "]");
      BracketAfterTag(l.tag, d + "]");
      assert c[..|l.tag|] == l.tag;
      assert c[|l.tag| + 1..|c| - 1] == d;
      DecimalValue(l.position);
    }
  }

  /** No component contains a `/`. */
  lemma ComponentNoSlash(l: Level)
    requires PlainTag(l.tag)
    ensures NoSeparator(Component(l), IsSlash)
  {
    if l.sameTagSiblings != 1 {
      var d := Decimal(l.position);
      var c := l.tag + "[" + d + "]";
      assert forall i :: |l.tag| + 1 <= i < |c| - 1 ==> c[i] == d[i - |l.tag| - 1];
    }
  }

  /** What reading a component back should give for `l`. */
  function Decoded(l: Level): (string, Option<nat>)
  {
    (l.tag, if l.sameTagSiblings == 1 then None else Some(l.position))
  }

  /** The pieces are the levels' components read back, root first. */
  predicate ReadsBack(pieces: seq<string>, levels: seq<Level>)
  {
    |pieces| == |levels| &&
    forall i :: 0 <= i < |levels| ==> ParseComponent(pieces[i]) == Decoded(levels[|levels| - 1 - i])
  }

  /** The joined components, root first, cut at `/` and read back. */
  lemma PathReadsBack(levels: seq<Level>)
    requires levels != []
    requires forall l :: l in levels ==> PlainTag(l.tag)
    ensures ReadsBack(Pieces(Join(Reverse(Components(levels)), "/"), IsSlash), levels)
  {
    var parts := Reverse(Components(levels));
    forall i | 0 <= i < |parts| ensures NoSeparator(parts[i], IsSlash) {
      ComponentNoSlash(levels[|levels| - 1 - i]);
    }
    JoinPieces(parts, '/', IsSlash);
    forall i | 0 <= i < |levels| ensures ParseComponent(parts[i]) == Decoded(levels[|levels| - 1 - i]) {
      ComponentRoundTrip(levels[|levels| - 1 - i]);
    }
  }

  /**
   * The path starts with `/` and is just `/` for a node without levels;
   * otherwise cutting the rest at every `/` gives the levels' components from
   * the root down, each read back to its tag and position.
   */
  lemma XPathRoundTrip(node: Node)
    requires forall l :: l in node.PathLevels() ==> PlainTag(l.tag)
    ensures |XPathOf(node)| >= 1 && XPathOf(node)[0] == '/'
    ensures node.PathLevels() == [] ==> XPathOf(node) == "/"
    ensures node.PathLevels() != [] ==> ReadsBack(Pieces(XPathOf(node)[1..], IsSlash), node.PathLevels())
  {
    var levels := node.PathLevels();
    assert XPathOf(node)[1..] == Join(Reverse(Components(levels)), "/");
    if levels != [] {
      PathReadsBack(levels);
    }
  }

  // ---------------------------------------------------------------------------
  // Elements

  /**
   * An element of the page. `id` is the node's index among all nodes of the
   * page; `textVector` is `None` once the calculator found no text words.
   */
  datatype Element = Element(
    node: Node,
    id: nat,
    name: Option<string>,
    xpath: string,
    attrWords: seq<string>,
    textWords: seq<string>,
    attrVector: seq<real>,
    textVector: Option<seq<real>>)
  {
    /** The name and the path are those of the node, as the constructor computes them. */
    predicate Valid()
    {
      name == node.name && xpath == XPathOf(node)
    }

    /** `get_xpath`: the path as a locator. */
    function GetXPath(): (r: Locator)
      ensures Valid() ==> r == Locator(XPath, xpath)
    {
      Locator(XPath, XPathOf(node))
    }

    /**
     * `get_locator`: the id when there is one (even empty), else the name,
     * except for radio buttons, which share names and are reached by path.
     */
    function GetLocator(): (r: Locator)
      ensures r.locatorType != LinkText
      ensures r.locatorType == Id <==> node.Has("id")
      ensures r.locatorType == Id ==> r.value == node.Get("id").value
      ensures r.locatorType == Name <==> !node.Has("id") && node.Has("name") && node.Get("type") != Some("radio")
      ensures r.locatorType == Name ==> r.value == node.Get("name").value
      ensures r.locatorType == XPath ==> r == GetXPath()
    {
      if node.Has("id") then Locator(Id, node.Get("id").value)
      else if node.Has("name") then
        if node.Get("type") == Some("radio") then GetXPath() else Locator(Name, node.Get("name").value)
      else GetXPath()
    }
  }

  /** `Element(bs_elem, id_, attr_words, text_words)` */
  function NewElement(node: Node, id: nat, attrWords: seq<string>, textWords: seq<string>): (e: Element)
    ensures e.Valid()
    ensures e.node == node && e.id == id && e.attrWords == attrWords && e.textWords == textWords
    ensures e.attrVector == [] && e.textVector == Some([])
  {
    Element(node, id, node.name, XPathOf(node), attrWords, textWords, [], Some([]))
  }
}
