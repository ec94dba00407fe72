/**
 * The scoring maths: document-frequency weights of words over a page's
 * elements, word-vector averages, and the blend of attribute and text
 * cosines. The embedding, the logarithm and the cosine are parameters; the
 * averages are written out over `real`.
 */
module Calculator {
  import opened Wrappers
  import opened Seqs
  import opened Elements

  // ---------------------------------------------------------------------------
  // Document frequency

  /** The words an element contributes to the frequency count: attribute words, then text words. */
  function WordsOf(e: Element): seq<string>
  {
    e.attrWords + e.textWords
  }

  /** The number of elements whose words include `w`. */
  function DocCount(elems: seq<Element>, w: string): nat
  {
    if elems == [] then 0
    else DocCount(elems[..|elems| - 1], w) + (if w in WordsOf(elems[|elems| - 1]) then 1 else 0)
  }

  /** The words that occur in some element. */
  function AllWords(elems: seq<Element>): (r: set<string>)
    ensures forall w :: w in r <==> exists k :: 0 <= k < |elems| && w in WordsOf(elems[k])
  {
    if elems == [] then {}
    else
      var n := |elems| - 1;
      var r := AllWords(elems[..n]) + (set w | w in WordsOf(elems[n]));
      assert forall k :: 0 <= k < n ==> elems[..n][k] == elems[k];
      r
  }

  /** The weight of a word seen in `df` of `n` elements, given the logarithm to the weight's base. */
  function IdfWeight(n: nat, df: nat, logw: real -> real): real
    requires df >= 1
  {
    logw(n as real / df as real)
  }

  lemma {:induction false} DocCountZero(elems: seq<Element>, w: string)
    requires w !in AllWords(elems)
    ensures DocCount(elems, w) == 0
  {
    if elems != [] {
      var n := |elems| - 1;
      assert forall k :: 0 <= k < n ==> elems[..n][k] == elems[k];
      DocCountZero(elems[..n], w);
    }
  }

  /** A word counts once per element holding it, so its frequency lies between 1 and the number of elements. */
  lemma {:induction false} DocCountBounds(elems: seq<Element>, w: string)
    ensures DocCount(elems, w) <= |elems|
    ensures w in AllWords(elems) <==> DocCount(elems, w) >= 1
  {
    if elems != [] {
      var n := |elems| - 1;
      DocCountBounds(elems[..n], w);
      assert forall k :: 0 <= k < n ==> elems[..n][k] == elems[k];
    }
  }

  /** A word that every element holds has frequency equal to the number of elements. */
  lemma {:induction false} DocCountEverywhere(elems: seq<Element>, w: string)
    requires forall k :: 0 <= k < |elems| ==> w in WordsOf(elems[k])
    ensures DocCount(elems, w) == |elems|
  {
    if elems != [] {
      var n := |elems| - 1;
      assert forall k :: 0 <= k < n ==> elems[..n][k] == elems[k];
      DocCountEverywhere(elems[..n], w);
    }
  }

  /** Adding one element to the counted prefix. */
  lemma DocCountStep(elems: seq<Element>, i: nat, w: string)
    requires i < |elems|
    ensures DocCount(elems[..i + 1], w) == DocCount(elems[..i], w) + (if w in WordsOf(elems[i]) then 1 else 0)
    ensures AllWords(elems[..i + 1]) == AllWords(elems[..i]) + (set x | x in WordsOf(elems[i]))
  {
    assert elems[..i + 1][..i] == elems[..i];
  }

  /**
   * The inner loop of `IdfCalculator.calc`: adds one to the count of each
   * distinct word of one element, using `occur` to skip repeats.
   */
  method CountOnce(wordCnt: map<string, nat>, ws: seq<string>) returns (counted: map<string, nat>)
    ensures counted.Keys == wordCnt.Keys + (set x | x in ws)
    ensures forall w :: w in counted ==>
      counted[w] == (if w in wordCnt then wordCnt[w] else 0) + (if w in ws then 1 else 0)
  {
    counted := wordCnt;
    var occur: set<string> := {};
    for j := 0 to |ws|
      invariant occur == set x | x in ws[..j]
      invariant counted.Keys == wordCnt.Keys + occur
      invariant forall w :: w in counted ==>
        counted[w] == (if w in wordCnt then wordCnt[w] else 0) + (if w in occur then 1 else 0)
    {
      assert ws[..j + 1] == ws[..j] + [ws[j]];
      var word := ws[j];
      if word !in occur {
        var before := if word in counted then counted[word] else 0;
        counted := counted[word := before + 1];
        occur := occur + {word};
      }
    }
    assert ws[..|ws|] == ws;
  }

  /** The counting loops of `IdfCalculator.calc`: the document frequency of every word that occurs. */
  method CountDocuments(elems: seq<Element>) returns (wordCnt: map<string, nat>)
    ensures wordCnt.Keys == AllWords(elems)
    ensures forall w :: w in wordCnt ==> wordCnt[w] == DocCount(elems, w)
  {
    wordCnt := map[];
    for i := 0 to |elems|
      invariant wordCnt.Keys == AllWords(elems[..i])
      invariant forall w :: w in wordCnt ==> wordCnt[w] == DocCount(elems[..i], w)
    {
      var next := CountOnce(wordCnt, WordsOf(elems[i]));
      forall w | w in next ensures next[w] == DocCount(elems[..i + 1], w) {
        DocCountStep(elems, i, w);
        if w !in wordCnt {
          DocCountZero(elems[..i], w);
        }
      }
      DocCountStep(elems, i, "");
      wordCnt := next;
    }
    assert elems[..|elems|] == elems;
  }

  /**
   * `IdfCalculator.calc`: counts, per element, each distinct word once, then
   * weighs every counted word by the log of elements over frequency.
   */
  method CalcIdf(elems: seq<Element>, logw: real -> real) returns (idf: map<string, real>)
    ensures idf.Keys == AllWords(elems)
    ensures forall w :: w in idf ==>
      DocCount(elems, w) >= 1 && idf[w] == IdfWeight(|elems|, DocCount(elems, w), logw)
  {
    var wordCnt := CountDocuments(elems);
    idf := map[];
    var remaining := wordCnt.Keys;
    while remaining != {}
      invariant remaining <= wordCnt.Keys
      invariant idf.Keys == wordCnt.Keys - remaining
      invariant forall w :: w in idf ==> DocCount(elems, w) >= 1 && idf[w] == IdfWeight(|elems|, DocCount(elems, w), logw)
      decreases |remaining|
    {
      var word :| word in remaining;
      DocCountBounds(elems, word);
      idf := idf[word := IdfWeight(|elems|, wordCnt[word], logw)];
      remaining := remaining - {word};
    }
  }

  /** A word held by every element weighs log 1, which is 0 for a logarithm. */
  lemma IdfEverywhereZero(elems: seq<Element>, w: string, logw: real -> real)
    requires elems != [] && logw(1.0) == 0.0
    requires forall k :: 0 <= k < |elems| ==> w in WordsOf(elems[k])
    ensures DocCount(elems, w) >= 1 && IdfWeight(|elems|, DocCount(elems, w), logw) == 0.0
  {
    DocCountEverywhere(elems, w);
    assert |elems| as real / |elems| as real == 1.0;
  }

  /** For an increasing logarithm (base above 1) a more frequent word never weighs more. */
  lemma IdfNonIncreasing(n: nat, df1: nat, df2: nat, logw: real -> real)
    requires 1 <= df1 <= df2
    requires forall x: real, y: real :: 0.0 <= x <= y ==> logw(x) <= logw(y)
    ensures IdfWeight(n, df2, logw) <= IdfWeight(n, df1, logw)
  {
    var a := n as real / df2 as real;
    var b := n as real / df1 as real;
    assert b - a == (n as real) * ((df2 - df1) as real) / (df1 as real * df2 as real);
    assert (n as real) * ((df2 - df1) as real) >= 0.0;
  }

  // ---------------------------------------------------------------------------
  // Word vectors

  /**
   * The word-embedding model: whether it is a FastText model (which has a
   * vector for every word), its vocabulary, its vectors and their dimension.
   */
  datatype Embedding = Embedding(isFastText: bool, inVocab: string -> bool, vectorOf: string -> seq<real>, dim: nat)
  {
    /** Every vector the model hands out has the model's dimension. */
    ghost predicate Valid()
    {
      forall w :: (isFastText || inVocab(w)) ==> |vectorOf(w)| == dim
    }
  }

  /** `[x] * n` */
  function Fill(n: nat, x: real): (r: seq<real>)
    ensures |r| == n && forall i :: 0 <= i < n ==> r[i] == x
  {
    seq(n, _ => x)
  }

  /**
   * The vector a word stands for: outside the vocabulary of a non-FastText
   * model, a vector of 0.5s of the model's dimension; otherwise the model's own.
   */
  function WordVector(m: Embedding, w: string): (r: seq<real>)
    ensures m.Valid() ==> |r| == m.dim
    ensures !m.isFastText && !m.inVocab(w) ==> r == Fill(m.dim, 0.5)
    ensures m.isFastText || m.inVocab(w) ==> r == m.vectorOf(w)
  {
    if !m.isFastText && !m.inVocab(w) then Fill(m.dim, 0.5) else m.vectorOf(w)
  }

  function WordVectors(m: Embedding, words: seq<string>): (r: seq<seq<real>>)
    ensures |r| == |words| && forall i :: 0 <= i < |words| ==> r[i] == WordVector(m, words[i])
  {
    seq(|words|, i requires 0 <= i < |words| => WordVector(m, words[i]))
  }

  /** The weights `idf[word]`, one per word. */
  function Weights(idf: map<string, real>, words: seq<string>): (r: seq<real>)
    requires forall w :: w in words ==> w in idf
    ensures |r| == |words| && forall i :: 0 <= i < |words| ==> r[i] == idf[words[i]]
  {
    seq(|words|, i requires 0 <= i < |words| => idf[words[i]])
  }

  /** All vectors have dimension `dim`. */
  predicate OfDim(vs: seq<seq<real>>, dim: nat)
  {
    forall i :: 0 <= i < |vs| ==> |vs[i]| == dim
  }

  /** The weighted sum of component `j`. */
  function WeightedColumn(vs: seq<seq<real>>, ws: seq<real>, j: nat): real
    requires |vs| == |ws| && forall i :: 0 <= i < |vs| ==> j < |vs[i]|
  {
    if vs == [] then 0.0
    else
      var n := |vs| - 1;
      WeightedColumn(vs[..n], ws[..n], j) + ws[n] * vs[n][j]
  }

  /** The plain sum of component `j`. */
  function Column(vs: seq<seq<real>>, j: nat): real
    requires forall i :: 0 <= i < |vs| ==> j < |vs[i]|
  {
    if vs == [] then 0.0 else Column(vs[..|vs| - 1], j) + vs[|vs| - 1][j]
  }

  /** `numpy.average(vs, axis=0, weights=ws)` */
  function WeightedAverage(vs: seq<seq<real>>, ws: seq<real>, dim: nat): (r: seq<real>)
    requires |vs| == |ws| && OfDim(vs, dim) && Sum(ws) != 0.0
    ensures |r| == dim
  {
    seq(dim, j requires 0 <= j < dim => WeightedColumn(vs, ws, j) / Sum(ws))
  }

  /** `numpy.average(vs, axis=0)` */
  function Average(vs: seq<seq<real>>, dim: nat): (r: seq<real>)
    requires |vs| >= 1 && OfDim(vs, dim)
    ensures |r| == dim
  {
    seq(dim, j requires 0 <= j < dim => Column(vs, j) / |vs| as real)
  }

  lemma {:induction false} WeightedColumnOnes(vs: seq<seq<real>>, j: nat)
    requires forall i :: 0 <= i < |vs| ==> j < |vs[i]|
    ensures WeightedColumn(vs, Fill(|vs|, 1.0), j) == Column(vs, j)
  {
    if vs != [] {
      var n := |vs| - 1;
      assert Fill(|vs|, 1.0)[..n] == Fill(n, 1.0);
      WeightedColumnOnes(vs[..n], j);
    }
  }

  lemma {:induction false} SumOnes(n: nat)
    ensures Sum(Fill(n, 1.0)) == n as real
  {
    if n > 0 {
      assert Fill(n, 1.0)[..n - 1] == Fill(n - 1, 1.0);
      SumOnes(n - 1);
    }
  }

  /** The plain average is the weighted one with every weight 1. */
  lemma AverageIsUnitWeighted(vs: seq<seq<real>>, dim: nat)
    requires |vs| >= 1 && OfDim(vs, dim)
    ensures Sum(Fill(|vs|, 1.0)) == |vs| as real
    ensures Average(vs, dim) == WeightedAverage(vs, Fill(|vs|, 1.0), dim)
  {
    forall j | 0 <= j < dim ensures WeightedColumn(vs, Fill(|vs|, 1.0), j) == Column(vs, j) {
      WeightedColumnOnes(vs, j);
    }
    SumOnes(|vs|);
  }

  lemma {:induction false} WeightedColumnSame(vs: seq<seq<real>>, ws: seq<real>, v: seq<real>, j: nat)
    requires |vs| == |ws| && j < |v| && forall i :: 0 <= i < |vs| ==> vs[i] == v
    ensures WeightedColumn(vs, ws, j) == Sum(ws) * v[j]
  {
    if vs != [] {
      var n := |vs| - 1;
      WeightedColumnSame(vs[..n], ws[..n], v, j);
    }
  }

  /** Averaging copies of one vector gives that vector, whatever the weights; e.g. all unknown words give the 0.5 vector. */
  lemma AverageOfSame(vs: seq<seq<real>>, ws: seq<real>, v: seq<real>)
    requires |vs| == |ws| && Sum(ws) != 0.0
    requires forall i :: 0 <= i < |vs| ==> vs[i] == v
    ensures OfDim(vs, |v|) && WeightedAverage(vs, ws, |v|) == v
  {
    forall j | 0 <= j < |v| ensures WeightedColumn(vs, ws, j) / Sum(ws) == v[j] {
      WeightedColumnSame(vs, ws, v, j);
      DivCancel(Sum(ws), v[j]);
    }
  }

  lemma DivCancel(a: real, b: real)
    requires a != 0.0
    ensures a * b / a == b
  {
  }

  /** The page-wide weights and the model the vectors come from. */
  datatype VectorCalculator = VectorCalculator(model: Embedding, idf: map<string, real>)
  {
    /** Every word has a weight and the weights do not cancel out. */
    predicate CanWeigh(words: seq<string>)
    {
      (forall w :: w in words ==> w in idf) && Sum(Weights(idf, words)) != 0.0
    }

    /** The idf-weighted average of the words' vectors. */
    function WeightedWordsVector(words: seq<string>): (r: seq<real>)
      requires model.Valid() && CanWeigh(words)
      ensures |r| == model.dim
    {
      WeightedAverage(WordVectors(model, words), Weights(idf, words), model.dim)
    }

    /** The unweighted average of the words' vectors (the query side). */
    function WordsVector(words: seq<string>): (r: seq<real>)
      requires model.Valid() && |words| >= 1
      ensures |r| == model.dim
    {
      Average(WordVectors(model, words), model.dim)
    }

    /** `get_elem_vector` */
    function ElemVector(e: Element): (r: seq<real>)
      requires model.Valid() && CanWeigh(e.attrWords)
      ensures |r| == model.dim
    {
      WeightedWordsVector(e.attrWords)
    }

    /** `get_text_vector`: nothing exactly when the element has no text words. */
    function TextVector(e: Element): (r: Option<seq<real>>)
      requires model.Valid() && (e.textWords != [] ==> CanWeigh(e.textWords))
      ensures r.None? <==> e.textWords == []
      ensures r.Some? ==> |r.value| == model.dim
    {
      if |e.textWords| != 0 then Some(WeightedWordsVector(e.textWords)) else None
    }

    /**
     * `__get_words_vector_weighted`: collects one vector (the 0.5 vector for
     * unknown words) and one weight per word, then averages.
     */
    method GetWordsVectorWeighted(words: seq<string>) returns (v: seq<real>)
      requires model.Valid() && CanWeigh(words)
      ensures v == WeightedWordsVector(words)
    {
      var vectors: seq<seq<real>> := [];
      var weights: seq<real> := [];
      for i := 0 to |words|
        invariant |vectors| == i && forall k :: 0 <= k < i ==> vectors[k] == WordVector(model, words[k])
        invariant |weights| == i && forall k :: 0 <= k < i ==> weights[k] == idf[words[k]]
      {
        if !model.isFastText && !model.inVocab(words[i]) {
          vectors := vectors + [Fill(model.dim, 0.5)];
        } else {
          vectors := vectors + [model.vectorOf(words[i])];
        }
        weights := weights + [idf[words[i]]];
      }
      assert vectors == WordVectors(model, words);
      assert weights == Weights(idf, words);
      v := WeightedAverage(vectors, weights, model.dim);
    }

    /** `__get_words_vector`: the same collection without weights. */
    method GetWordsVector(words: seq<string>) returns (v: seq<real>)
      requires model.Valid() && |words| >= 1
      ensures v == WordsVector(words)
    {
      var vectors: seq<seq<real>> := [];
      for i := 0 to |words|
        invariant |vectors| == i && forall k :: 0 <= k < i ==> vectors[k] == WordVector(model, words[k])
      {
        if !model.isFastText && !model.inVocab(words[i]) {
          vectors := vectors + [Fill(model.dim, 0.5)];
        } else {
          vectors := vectors + [model.vectorOf(words[i])];
        }
      }
      assert vectors == WordVectors(model, words);
      v := Average(vectors, model.dim);
    }

    /**
     * `get_similarity`: the cosine of the query with the attribute vector,
     * blended with the cosine with the text vector when there are text words.
     */
    function Similarity(query: seq<string>, e: Element, textWeight: real, cos: (seq<real>, seq<real>) -> real): (r: real)
      requires model.Valid() && |query| >= 1 && textWeight >= 0.0
      requires e.textWords != [] ==> e.textVector.Some?
      ensures var a := cos(WordsVector(query), e.attrVector);
        e.textWords == [] ==> r == a
      ensures var a := cos(WordsVector(query), e.attrVector);
        e.textWords != [] ==> Between(r, a, cos(WordsVector(query), e.textVector.value))
    {
      var q := WordsVector(query);
      var a := cos(q, e.attrVector);
      if |e.textWords| != 0 then
        var t := cos(q, e.textVector.value);
        BlendBetween(a, t, textWeight);
        (a + textWeight * t) / (1.0 + textWeight)
      else a
    }
  }

  /** `x` lies between `a` and `b`, in either order. */
  predicate Between(x: real, a: real, b: real)
  {
    (a <= x <= b) || (b <= x <= a)
  }

  /** A weighted mean of two values with a non-negative weight lies between them. */
  lemma BlendBetween(a: real, t: real, w: real)
    requires w >= 0.0
    ensures Between((a + w * t) / (1.0 + w), a, t)
  {
    var x := (a + w * t) / (1.0 + w);
    assert x * (1.0 + w) == a + w * t;
    assert x - a == w * (t - a) / (1.0 + w);
    assert t - x == (t - a) / (1.0 + w);
    if a <= t {
      assert w * (t - a) >= 0.0;
    } else {
      assert w * (a - t) >= 0.0;
    }
  }
}
