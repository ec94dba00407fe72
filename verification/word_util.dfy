/**
 * Text normalisation: `WordUtil.split` cuts a string at punctuation and
 * white space and then at camel-case boundaries; `WordUtil.filter` lowers the
 * words and drops the short ones and the stop words.
 */
module WordUtil {
  import opened Seqs

  predicate IsAsciiUpper(c: char) { 'A' <= c <= 'Z' }

  predicate IsAsciiLower(c: char) { 'a' <= c <= 'z' }

  /** Python's white space (`str.isspace`, and `\s` in a str pattern). */
  predicate IsSpace(c: char)
  {
    var n := c as int;
    (9 <= n <= 13) || (28 <= n <= 32) || n == 0x85 || n == 0xA0 || n == 0x1680
    || (0x2000 <= n <= 0x200A) || n == 0x2028 || n == 0x2029 || n == 0x202F
    || n == 0x205F || n == 0x3000
  }

  /** The character class that `split` cuts at: ASCII punctuation, `Â`, `¥` and white space. */
  predicate IsSeparator(c: char)
  {
    ('!' <= c <= '/') || (':' <= c <= '@') || c == '\U{00C2}' || c == '\U{00A5}'
    || ('[' <= c <= '`') || ('{' <= c <= '~') || IsSpace(c)
  }

  // ---------------------------------------------------------------------------
  // Cutting at separators

  /** `re.split` with a one-character class: the runs between separators, empty runs included. */
  function Pieces(s: string, sep: char -> bool): (r: seq<string>)
    ensures |r| >= 1
  {
    if s == [] then [""]
    else if sep(s[0]) then [""] + Pieces(s[1..], sep)
    else
      var rest := Pieces(s[1..], sep);
      [[s[0]] + rest[0]] + rest[1..]
  }

  /** `[w for w in ws if w != ""]` */
  function NonEmpty(ws: seq<string>): (r: seq<string>)
    ensures forall i :: 0 <= i < |r| ==> r[i] != ""
    ensures forall w :: w in r ==> w in ws
  {
    if ws == [] then []
    else (if ws[0] != "" then [ws[0]] else []) + NonEmpty(ws[1..])
  }

  /** The non-empty runs of non-separators of `s`; with `IsSpace` this is Python's `s.split()`. */
  function Fragments(s: string, sep: char -> bool): seq<string>
  {
    NonEmpty(Pieces(s, sep))
  }

  /** `s` with its separators taken out. */
  function Strip(s: string, sep: char -> bool): (r: string)
  {
    if s == [] then [] else (if sep(s[0]) then [] else [s[0]]) + Strip(s[1..], sep)
  }

  lemma FlattenCons<T>(x: seq<T>, rest: seq<seq<T>>)
    ensures Flatten([x] + rest) == x + Flatten(rest)
  {
    FlattenAppend([x], rest);
    assert Flatten([x]) == Flatten([]) + x;
  }

  lemma {:induction false} PiecesFlatten(s: string, sep: char -> bool)
    ensures Flatten(Pieces(s, sep)) == Strip(s, sep)
  {
    if s != [] {
      var rest := Pieces(s[1..], sep);
      PiecesFlatten(s[1..], sep);
      if sep(s[0]) {
        FlattenCons("", rest);
      } else {
        assert rest == [rest[0]] + rest[1..];
        FlattenCons(rest[0], rest[1..]);
        FlattenCons([s[0]] + rest[0], rest[1..]);
      }
    }
  }

  /** No character of `w` is a separator. */
  predicate NoSeparator(w: string, sep: char -> bool)
  {
    forall k :: 0 <= k < |w| ==> !sep(w[k])
  }

  lemma {:induction false} PiecesNoSeparator(s: string, sep: char -> bool)
    ensures forall i :: 0 <= i < |Pieces(s, sep)| ==> NoSeparator(Pieces(s, sep)[i], sep)
  {
    if s != [] {
      var rest := Pieces(s[1..], sep);
      PiecesNoSeparator(s[1..], sep);
      if !sep(s[0]) {
        var p := Pieces(s, sep);
        forall i | 0 <= i < |p| ensures NoSeparator(p[i], sep) {
          if i == 0 {
            assert p[0] == [s[0]] + rest[0];
            assert forall k :: 1 <= k < |p[0]| ==> p[0][k] == rest[0][k - 1];
          } else {
            assert p[i] == rest[i];
          }
        }
      }
    }
  }

  /** Cutting at a separator that follows a separator-free prefix. */
  lemma PiecesAfter(a: string, c: char, b: string, sep: char -> bool)
    requires NoSeparator(a, sep) && sep(c)
    ensures Pieces(a + [c] + b, sep) == [a] + Pieces(b, sep)
  {
    PiecesConcat(a, c, b, sep);
    PiecesWhole(a, sep);
  }

  /** A separator-free string is a single piece. */
  lemma {:induction false} PiecesWhole(a: string, sep: char -> bool)
    requires NoSeparator(a, sep)
    ensures Pieces(a, sep) == [a]
  {
    if a != [] {
      PiecesWhole(a[1..], sep);
      assert [a[0]] + a[1..] == a;
    }
  }

  /** Cutting at a separator splits the two sides independently. */
  lemma {:induction false} PiecesConcat(a: string, c: char, b: string, sep: char -> bool)
    requires sep(c)
    ensures Pieces(a + [c] + b, sep) == Pieces(a, sep) + Pieces(b, sep)
  {
    if a == [] {
      assert a + [c] + b == [c] + b;
      PiecesConsSep(c, b, sep);
      assert Pieces(a, sep) == [""];
    } else {
      var tail := a[1..];
      PiecesConcat(tail, c, b, sep);
      assert a == [a[0]] + tail;
      PiecesConcatCons(a[0], tail, c, b, sep);
    }
  }

  lemma PiecesConcatCons(x: char, tail: string, c: char, b: string, sep: char -> bool)
    requires Pieces(tail + [c] + b, sep) == Pieces(tail, sep) + Pieces(b, sep)
    ensures Pieces([x] + tail + [c] + b, sep) == Pieces([x] + tail, sep) + Pieces(b, sep)
  {
    assert [x] + tail + [c] + b == [x] + (tail + [c] + b);
    if sep(x) {
      PiecesConsSep(x, tail + [c] + b, sep);
      PiecesConsSep(x, tail, sep);
      AppendAssoc([""], Pieces(tail, sep), Pieces(b, sep));
    } else {
      PiecesConsJoin(x, tail + [c] + b, sep);
      PiecesConsJoin(x, tail, sep);
      JoinFirstAppend(x, Pieces(tail, sep), Pieces(b, sep));
    }
  }

  lemma AppendAssoc<T>(a: seq<T>, b: seq<T>, c: seq<T>)
    ensures a + (b + c) == (a + b) + c
  {
  }

  /** Joining `x` to the first piece commutes with appending more pieces. */
  lemma JoinFirstAppend(x: char, ra: seq<string>, rb: seq<string>)
    requires |ra| >= 1
    ensures var r := ra + rb; [[x] + r[0]] + r[1..] == ([[x] + ra[0]] + ra[1..]) + rb
  {
    var r := ra + rb;
    assert r[0] == ra[0];
    assert r[1..] == ra[1..] + rb;
  }

  lemma PiecesConsSep(x: char, s: string, sep: char -> bool)
    requires sep(x)
    ensures Pieces([x] + s, sep) == [""] + Pieces(s, sep)
  {
    assert ([x] + s)[0] == x && ([x] + s)[1..] == s;
  }

  lemma PiecesConsJoin(x: char, s: string, sep: char -> bool)
    requires !sep(x)
    ensures Pieces([x] + s, sep) == [[x] + Pieces(s, sep)[0]] + Pieces(s, sep)[1..]
  {
    assert ([x] + s)[0] == x && ([x] + s)[1..] == s;
  }

  /** `sep.join` with a separator character that no part holds is undone by cutting at it. */
  lemma {:induction false} JoinPieces(parts: seq<string>, c: char, sep: char -> bool)
    requires |parts| >= 1 && sep(c)
    requires forall i :: 0 <= i < |parts| ==> NoSeparator(parts[i], sep)
    ensures Pieces(Join(parts, [c]), sep) == parts
  {
    var n := |parts| - 1;
    if n == 0 {
      PiecesWhole(parts[0], sep);
    } else {
      JoinPieces(parts[..n], c, sep);
      PiecesConcat(Join(parts[..n], [c]), c, parts[n], sep);
      PiecesWhole(parts[n], sep);
      assert parts == parts[..n] + [parts[n]];
    }
  }

  lemma {:induction false} NonEmptyFlatten(ws: seq<string>)
    ensures Flatten(NonEmpty(ws)) == Flatten(ws)
  {
    if ws != [] {
      NonEmptyFlatten(ws[1..]);
      assert ws == [ws[0]] + ws[1..];
      FlattenCons(ws[0], ws[1..]);
      if ws[0] != "" {
        FlattenCons(ws[0], NonEmpty(ws[1..]));
      } else {
        assert [] + NonEmpty(ws[1..]) == NonEmpty(ws[1..]);
      }
    }
  }

  /**
   * The fragments are non-empty, hold no separator, and together they are
   * `s` with exactly its separators removed.
   */
  lemma FragmentsSpec(s: string, sep: char -> bool)
    ensures forall w :: w in Fragments(s, sep) ==> w != "" && NoSeparator(w, sep)
    ensures Flatten(Fragments(s, sep)) == Strip(s, sep)
  {
    PiecesFlatten(s, sep);
    PiecesNoSeparator(s, sep);
    NonEmptyFlatten(Pieces(s, sep));
    forall w | w in Fragments(s, sep) ensures w != "" && NoSeparator(w, sep) {
      var i :| 0 <= i < |Fragments(s, sep)| && Fragments(s, sep)[i] == w;
      assert w in Pieces(s, sep);
    }
  }

  // ---------------------------------------------------------------------------
  // Camel case

  /**
   * The pattern `.+?(?:(?<=[a-z])(?=[A-Z])|(?<=[A-Z])(?=[A-Z][a-z])|$)` lets a
   * piece of `w` end just before position `q`: at the end, between a lower-case
   * and an upper-case letter, or between two upper-case letters when a
   * lower-case one follows.
   */
  predicate CamelBoundary(w: string, q: int)
    requires 0 < q <= |w|
  {
    q == |w|
    || (IsAsciiLower(w[q - 1]) && IsAsciiUpper(w[q]))
    || (IsAsciiUpper(w[q - 1]) && IsAsciiUpper(w[q]) && q + 1 < |w| && IsAsciiLower(w[q + 1]))
  }

  /** Where the lazy `.+?` stops: the first boundary at or after `q`. */
  function NextBoundary(w: string, q: nat): (r: nat)
    requires 0 < q <= |w|
    ensures q <= r <= |w| && CamelBoundary(w, r)
    ensures forall k :: q <= k < r ==> !CamelBoundary(w, k)
    decreases |w| - q
  {
    if CamelBoundary(w, q) then q else NextBoundary(w, q + 1)
  }

  /** `__camel_case_split`: the successive matches of the pattern in `w`. */
  function CamelCaseSplit(w: string): seq<string>
    decreases |w|
  {
    if w == [] then []
    else
      var q := NextBoundary(w, 1);
      [w[..q]] + CamelCaseSplit(w[q..])
  }

  /** The pieces are non-empty and concatenate back to the fragment. */
  lemma {:induction false} CamelCaseSplitPartitions(w: string)
    ensures Flatten(CamelCaseSplit(w)) == w
    ensures forall p :: p in CamelCaseSplit(w) ==> p != ""
    decreases |w|
  {
    if w != [] {
      var q := NextBoundary(w, 1);
      CamelCaseSplitPartitions(w[q..]);
      FlattenCons(w[..q], CamelCaseSplit(w[q..]));
      assert w[..q] + w[q..] == w;
    }
  }

  /** A piece other than the first starts with an upper-case letter: no boundary falls before a digit or a lower-case letter. */
  lemma {:induction false} CamelCaseSplitStarts(w: string)
    ensures forall i :: 0 < i < |CamelCaseSplit(w)| ==>
              CamelCaseSplit(w)[i] != "" && IsAsciiUpper(CamelCaseSplit(w)[i][0])
    decreases |w|
  {
    if w != [] {
      var q := NextBoundary(w, 1);
      CamelCaseSplitStarts(w[q..]);
      CamelCaseSplitPartitions(w[q..]);
      var r := CamelCaseSplit(w);
      forall i | 0 < i < |r| ensures r[i] != "" && IsAsciiUpper(r[i][0]) {
        if i == 1 {
          var rest := CamelCaseSplit(w[q..]);
          assert r[1] == rest[0];
          assert rest != [] && rest[0] != "";
          assert q < |w|;
          assert w[q..] != [] && NextBoundary(w[q..], 1) <= |w[q..]|;
          assert rest[0] == w[q..][..NextBoundary(w[q..], 1)];
          assert rest[0][0] == w[q];
        } else {
          assert r[i] == CamelCaseSplit(w[q..])[i - 1];
        }
      }
    }
  }

  /** A fragment with no upper-case letter after its first character is not cut. */
  lemma CamelCaseSplitNoUpper(w: string)
    requires w != []
    requires forall k :: 1 <= k < |w| ==> !IsAsciiUpper(w[k])
    ensures CamelCaseSplit(w) == [w]
  {
    NextBoundaryNoUpper(w, 1);
    assert w[..|w|] == w;
    assert w[|w|..] == [];
    assert CamelCaseSplit(w) == [w[..|w|]] + CamelCaseSplit(w[|w|..]);
  }

  lemma {:induction false} NextBoundaryNoUpper(w: string, q: nat)
    requires 0 < q <= |w|
    requires forall k :: q <= k < |w| ==> !IsAsciiUpper(w[k])
    ensures NextBoundary(w, q) == |w|
    decreases |w| - q
  {
    if q < |w| {
      NextBoundaryNoUpper(w, q + 1);
    }
  }

  /** Camel-case pieces of a separator-free fragment are non-empty and separator-free. */
  lemma {:induction false} CamelCaseSplitClean(w: string)
    requires NoSeparator(w, IsSeparator)
    ensures forall p :: p in CamelCaseSplit(w) ==> p != "" && NoSeparator(p, IsSeparator)
    decreases |w|
  {
    if w != [] {
      var q := NextBoundary(w, 1);
      assert NoSeparator(w[q..], IsSeparator) by {
        assert forall k :: 0 <= k < |w[q..]| ==> w[q..][k] == w[q + k];
      }
      CamelCaseSplitClean(w[q..]);
      assert forall k :: 0 <= k < |w[..q]| ==> w[..q][k] == w[k];
    }
  }

  // ---------------------------------------------------------------------------
  // split

  /** Each fragment cut at its camel-case boundaries. */
  function CamelEach(frags: seq<string>): (m: seq<seq<string>>)
    ensures |m| == |frags|
    ensures forall k :: 0 <= k < |frags| ==> m[k] == CamelCaseSplit(frags[k])
  {
    if frags == [] then [] else CamelEach(frags[..|frags| - 1]) + [CamelCaseSplit(frags[|frags| - 1])]
  }

  /** What `split(s)` returns: each fragment, cut at camel-case boundaries, in order. */
  function Words(s: string): seq<string>
  {
    Flatten(CamelEach(Fragments(s, IsSeparator)))
  }

  /** `WordUtil.split`: extends `words` fragment by fragment. */
  method Split(s: string) returns (words: seq<string>)
    ensures words == Words(s)
  {
    var frags := Fragments(s, IsSeparator);
    words := [];
    for i := 0 to |frags|
      invariant words == Flatten(CamelEach(frags[..i]))
    {
      assert frags[..i + 1][..i] == frags[..i];
      FlattenSnoc(CamelEach(frags[..i]), CamelCaseSplit(frags[i]));
      words := words + CamelCaseSplit(frags[i]);
    }
    assert frags[..|frags|] == frags;
  }

  lemma {:induction false} FlattenMapCamel(frags: seq<string>)
    ensures Flatten(Flatten(CamelEach(frags))) == Flatten(frags)
  {
    if frags != [] {
      var n := |frags| - 1;
      var init := frags[..n];
      FlattenMapCamel(init);
      var mi := CamelEach(init);
      FlattenSnoc(mi, CamelCaseSplit(frags[n]));
      FlattenAppend(Flatten(mi), CamelCaseSplit(frags[n]));
      CamelCaseSplitPartitions(frags[n]);
      assert frags == init + [frags[n]];
      FlattenSnoc(init, frags[n]);
    }
  }

  /**
   * `split` drops empty fragments, no word holds a separator, and the words
   * concatenate to the input with exactly its separators removed.
   */
  lemma SplitSpec(s: string)
    ensures forall w :: w in Words(s) ==> w != "" && NoSeparator(w, IsSeparator)
    ensures Flatten(Words(s)) == Strip(s, IsSeparator)
  {
    var frags := Fragments(s, IsSeparator);
    FragmentsSpec(s, IsSeparator);
    FlattenMapCamel(frags);
    var m := CamelEach(frags);
    forall w | w in Words(s) ensures w != "" && NoSeparator(w, IsSeparator) {
      FlattenMember(m, w);
      var i :| 0 <= i < |m| && w in m[i];
      CamelCaseSplitClean(frags[i]);
    }
  }

  // ---------------------------------------------------------------------------
  // filter

  /** `str.lower` on ASCII letters. */
  function Lower(w: string): (r: string)
    ensures |r| == |w|
    ensures forall i :: 0 <= i < |w| ==> !IsAsciiUpper(r[i])
    ensures forall i :: 0 <= i < |w| ==> !IsAsciiUpper(w[i]) ==> r[i] == w[i]
  {
    seq(|w|, i requires 0 <= i < |w| => if IsAsciiUpper(w[i]) then (w[i] as int + 32) as char else w[i])
  }

  predicate IsLowerWord(w: string)
  {
    forall i :: 0 <= i < |w| ==> !IsAsciiUpper(w[i])
  }

  /** `__to_lower` */
  function ToLower(words: seq<string>): (r: seq<string>)
    ensures |r| == |words|
    ensures forall i :: 0 <= i < |words| ==> r[i] == Lower(words[i])
  {
    seq(|words|, i requires 0 <= i < |words| => Lower(words[i]))
  }

  /** The test `filter` keeps a lowered word by. */
  predicate Keeps(w: string, stop: set<string>)
  {
    |w| >= 2 && w !in stop
  }

  /** `filter`: the lowered words that are at least two characters long and not stop words. */
  function Filter(words: seq<string>, stop: set<string>): seq<string>
  {
    if words == [] then []
    else
      var w := Lower(words[0]);
      (if Keeps(w, stop) then [w] else []) + Filter(words[1..], stop)
  }

  /** `a` is `b` with some items left out. */
  predicate IsSubsequence<T(==)>(a: seq<T>, b: seq<T>)
    decreases |b|
  {
    if b == [] then a == []
    else (a != [] && a[0] == b[0] && IsSubsequence(a[1..], b[1..])) || IsSubsequence(a, b[1..])
  }

  /** Every kept word is lower-case, at least two characters long and not a stop word. */
  lemma {:induction false} FilterKeeps(words: seq<string>, stop: set<string>)
    ensures forall w :: w in Filter(words, stop) ==> IsLowerWord(w) && |w| >= 2 && w !in stop
  {
    if words != [] {
      FilterKeeps(words[1..], stop);
    }
  }

  /** `filter` keeps order and duplicates: it only leaves lowered words out. */
  lemma {:induction false} FilterSubsequence(words: seq<string>, stop: set<string>)
    ensures IsSubsequence(Filter(words, stop), ToLower(words))
  {
    if words != [] {
      FilterSubsequence(words[1..], stop);
      var w := Lower(words[0]);
      assert ToLower(words)[1..] == ToLower(words[1..]);
      if Keeps(w, stop) {
        var f := Filter(words, stop);
        assert f == [w] + Filter(words[1..], stop);
        assert f[0] == ToLower(words)[0] && f[1..] == Filter(words[1..], stop);
      } else {
        assert Filter(words, stop) == Filter(words[1..], stop);
      }
    }
  }

  /** `filter` works word by word: filtering a concatenation filters each part. */
  lemma {:induction false} FilterAppend(a: seq<string>, b: seq<string>, stop: set<string>)
    ensures Filter(a + b, stop) == Filter(a, stop) + Filter(b, stop)
  {
    if a != [] {
      assert (a + b)[0] == a[0] && (a + b)[1..] == a[1..] + b;
      FilterAppend(a[1..], b, stop);
    } else {
      assert a + b == b;
    }
  }

  /** Swapping two runs of words swaps what `filter` keeps of them. */
  lemma FilterSwap(p: seq<string>, q: seq<string>, r: seq<string>, t: seq<string>, stop: set<string>)
    ensures multiset(Filter(p + q + r + t, stop)) == multiset(Filter(p + r + q + t, stop))
  {
    FilterAppend(p + q + r, t, stop);
    FilterAppend(p + q, r, stop);
    FilterAppend(p, q, stop);
    FilterAppend(p + r + q, t, stop);
    FilterAppend(p + r, q, stop);
    FilterAppend(p, r, stop);
  }

  lemma LowerOfLower(w: string)
    requires IsLowerWord(w)
    ensures Lower(w) == w
  {
  }

  /** Filtering twice filters nothing more. */
  lemma {:induction false} FilterIdempotent(words: seq<string>, stop: set<string>)
    ensures Filter(Filter(words, stop), stop) == Filter(words, stop)
  {
    if words != [] {
      FilterIdempotent(words[1..], stop);
      var w := Lower(words[0]);
      if Keeps(w, stop) {
        LowerOfLower(w);
        var f := Filter(words, stop);
        assert f == [w] + Filter(words[1..], stop);
        assert f[0] == w && f[1..] == Filter(words[1..], stop);
        assert Filter(f, stop) == [w] + Filter(f[1..], stop);
      } else {
        assert Filter(words, stop) == Filter(words[1..], stop);
      }
    }
  }

  predicate IsAlnum(c: char)
  {
    'a' <= c <= 'z' || 'A' <= c <= 'Z' || '0' <= c <= '9'
  }

  /** Every character is a letter or a digit. */
  predicate AllAlnum(w: string)
  {
    w == [] || (IsAlnum(w[0]) && AllAlnum(w[1..]))
  }

  /** Letters and digits are never separators. */
  lemma {:induction false} AlnumNoSeparator(w: string)
    requires AllAlnum(w)
    ensures NoSeparator(w, IsSeparator)
  {
    if w != [] {
      AlnumNoSeparator(w[1..]);
      assert forall k :: 1 <= k < |w| ==> w[k] == w[1..][k - 1];
    }
  }

  /** Two separators between three separator-free words cut them apart. */
  lemma PiecesThree(a: string, c1: char, b: string, c2: char, d: string, sep: char -> bool)
    requires NoSeparator(a, sep) && NoSeparator(b, sep) && NoSeparator(d, sep)
    requires sep(c1) && sep(c2)
    ensures Pieces(a + [c1] + b + [c2] + d, sep) == [a, b, d]
  {
    PiecesWhole(d, sep);
    PiecesAfter(b, c2, d, sep);
    assert a + [c1] + b + [c2] + d == a + [c1] + (b + [c2] + d);
    PiecesAfter(a, c1, b + [c2] + d, sep);
  }

  lemma {:induction false} PiecesExample(s: string)
    requires s == "myButton-Submit_1"
    ensures Pieces(s, IsSeparator) == ["myButton", "Submit", "1"]
  {
    ExampleWordsClean();
    ExampleParts(s);
    PiecesThree("myButton", '-', "Submit", '_', "1", IsSeparator);
  }

  lemma ExampleWordsClean()
    ensures NoSeparator("myButton", IsSeparator) && NoSeparator("Submit", IsSeparator) && NoSeparator("1", IsSeparator)
  {
    AlnumNoSeparator("myButton");
    AlnumNoSeparator("Submit");
    AlnumNoSeparator("1");
  }

  lemma ExampleParts(s: string)
    requires s == "myButton-Submit_1"
    ensures s == "myButton" + ['-'] + "Submit" + ['_'] + "1"
  {
  }

  lemma {:induction false} FragmentsExample(s: string)
    requires s == "myButton-Submit_1"
    ensures Fragments(s, IsSeparator) == ["myButton", "Submit", "1"]
  {
    PiecesExample(s);
    var p := ["myButton", "Submit", "1"];
    assert NonEmpty(p[2..]) == ["1"];
    assert NonEmpty(p[1..]) == ["Submit", "1"];
  }

  /** `Words` through the camel-case pieces of each fragment. */
  lemma {:induction false} WordsThrough(s: string, m: seq<seq<string>>)
    requires |m| == |Fragments(s, IsSeparator)|
    requires forall k :: 0 <= k < |m| ==> m[k] == CamelCaseSplit(Fragments(s, IsSeparator)[k])
    ensures Words(s) == Flatten(m)
  {
    var frags := Fragments(s, IsSeparator);
    assert CamelEach(frags) == m;
  }

  /** `split("myButton-Submit_1")` is `["my", "Button", "Submit", "1"]`. */
  lemma {:induction false} SplitExample(s: string)
    requires s == "myButton-Submit_1"
    ensures Words(s) == ["my", "Button", "Submit", "1"]
  {
    FragmentsExample(s);
    CamelButton();
    CamelCaseSplitNoUpper("Submit");
    CamelCaseSplitNoUpper("1");
    var m: seq<seq<string>> := [["my", "Button"], ["Submit"], ["1"]];
    WordsThrough(s, m);
    assert Flatten(m) == Flatten(m[..2]) + ["1"];
    assert Flatten(m[..2]) == Flatten(m[..1]) + ["Submit"];
    assert Flatten(m[..1]) == Flatten([]) + ["my", "Button"];
  }

  lemma CamelButton()
    ensures CamelCaseSplit("myButton") == ["my", "Button"]
  {
    var w := "myButton";
    assert CamelBoundary(w, 2);
    assert NextBoundary(w, 1) == 2;
    assert w[..2] == "my" && w[2..] == "Button";
    CamelCaseSplitNoUpper("Button");
  }

  /** With the shipped stop words, `filter` keeps `my` and `submit` of those: `button` is a stop word and `1` is too short. */
  lemma {:induction false} FilterExample(s: string, stop: set<string>)
    requires s == "myButton-Submit_1"
    requires stop == {"for", "the", "do", "did", "does", "this", "to", "of", "with", "and", "or",
                      "have", "has", "as", "is", "button", "btn", "link", "form", "svg", "www",
                      "https", "http", "com", "js", "css", "true", "false", "checked"}
    ensures Filter(Words(s), stop) == ["my", "submit"]
  {
    SplitExample(s);
    FilterExampleWords(stop);
  }

  lemma FilterExampleWords(stop: set<string>)
    requires "button" in stop && "my" !in stop && "submit" !in stop
    ensures Filter(["my", "Button", "Submit", "1"], stop) == ["my", "submit"]
  {
    assert Lower("Button") == "button";
    assert Lower("Submit") == "submit";
    assert Lower("my") == "my";
    assert Lower("1") == "1";
    var ws := ["my", "Button", "Submit", "1"];
    assert Filter(ws[3..], stop) == [];
    assert Filter(ws[2..], stop) == ["submit"];
    assert Filter(ws[1..], stop) == ["submit"];
  }

  /** `HTMLParser` is cut between the acronym and the word that follows it. */
  lemma CamelExample()
    ensures CamelCaseSplit("HTMLParser") == ["HTML", "Parser"]
  {
    var w := "HTMLParser";
    assert !CamelBoundary(w, 1) && !CamelBoundary(w, 2) && !CamelBoundary(w, 3);
    assert CamelBoundary(w, 4);
    assert NextBoundary(w, 4) == 4;
    assert NextBoundary(w, 3) == 4;
    assert NextBoundary(w, 2) == 4;
    assert NextBoundary(w, 1) == 4;
    assert w[..4] == "HTML";
    assert w[4..] == "Parser";
    CamelCaseSplitNoUpper("Parser");
  }
}
