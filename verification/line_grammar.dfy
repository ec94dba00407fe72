/**
 * The instruction-line grammar of scenario files: patterns made of literal
 * words and double-quoted fields, the lines they describe, the regular
 * expression match that recovers the fields, and what shlex reads from them.
 */
module LineGrammar {
  import opened Wrappers
  import Shlex

  /**
   * An instruction pattern is a space-separated sequence of literal words and
   * fields, a field being written `"[^"]+"`. Since a field stops at its first
   * `"`, matching a whole line against a pattern is deterministic.
   */
  datatype Piece = Word(w: string) | Field


  function FieldCount(p: seq<Piece>): nat
  {
    if p == [] then 0 else (if p[0].Field? then 1 else 0) + FieldCount(p[1..])
  }

  predicate QuoteFree(f: string)
  {
    forall i :: 0 <= i < |f| ==> f[i] != '"'
  }

  /** What `[^"]+` accepts. */
  predicate FieldText(f: string)
  {
    f != "" && QuoteFree(f)
  }

  /** A word shlex reads back as itself. */
  predicate PlainWord(w: string)
  {
    w != "" && forall j :: 0 <= j < |w| ==> Shlex.IsPlain(w[j])
  }

  /** The literal words of a pattern read back from shlex as themselves. */
  predicate PlainWords(p: seq<Piece>)
  {
    forall i :: 0 <= i < |p| && p[i].Word? ==> PlainWord(p[i].w)
  }

  /** The line that matches `p` with the given field texts. */
  function Render(p: seq<Piece>, fields: seq<string>): string
    requires |fields| == FieldCount(p)
    decreases |p|
  {
    if p == [] then ""
    else
      var sep := if |p| == 1 then "" else " ";
      match p[0]
      case Word(w) => w + sep + Render(p[1..], fields)
      case Field => "\"" + fields[0] + "\"" + sep + Render(p[1..], fields[1..])
  }

  /** Length of the longest prefix of `s` without `"`. */
  function QuoteFreeRun(s: string): (n: nat)
    ensures n <= |s| && QuoteFree(s[..n])
    ensures n < |s| ==> s[n] == '"'
  {
    if s == [] || s[0] == '"' then 0
    else
      var n := 1 + QuoteFreeRun(s[1..]);
      assert s[..n] == [s[0]] + s[1..][..n - 1];
      n
  }

  /** The rest of `s` after the prefix `pre`, if `s` starts with it. */
  function StripPrefix(pre: string, s: string): (r: Option<string>)
    ensures r.Some? <==> |pre| <= |s| && s[..|pre|] == pre
    ensures r.Some? ==> s == pre + r.value
  {
    if |pre| <= |s| && s[..|pre|] == pre then
      assert s == s[..|pre|] + s[|pre|..];
      Some(s[|pre|..])
    else None
  }

  /**
   * `re.fullmatch` of a pattern against a line: the field texts when the
   * whole line matches.
   */
  function MatchPieces(p: seq<Piece>, line: string): (r: Option<seq<string>>)
    ensures r.Some? ==> |r.value| == FieldCount(p) && line == Render(p, r.value)
                        && forall i :: 0 <= i < |r.value| ==> FieldText(r.value[i])
    decreases |p|
  {
    if p == [] then (if line == "" then Some([]) else None)
    else
      var sep := if |p| == 1 then "" else " ";
      match p[0]
      case Word(w) =>
        (match StripPrefix(w + sep, line)
         case None => None
         case Some(rest) =>
           var r := MatchPieces(p[1..], rest);
           if r.None? then None
           else
             RenderWord(p, w, r.value);
             r)
      case Field =>
        match FieldSplit(line, sep)
        case None => None
        case Some((f, rest)) =>
          match MatchPieces(p[1..], rest)
          case None => None
          case Some(fs) =>
            RenderField(p, f, fs);
            FieldsCons(f, fs);
            Some([f] + fs)
  }

  /**
   * The `"[^"]+"` at the start of `line` followed by `sep`: the field text and
   * what follows.
   */
  function FieldSplit(line: string, sep: string): (r: Option<(string, string)>)
    ensures r.Some? ==> FieldText(r.value.0) && line == "\"" + r.value.0 + ("\"" + sep) + r.value.1
  {
    match StripPrefix("\"", line)
    case None => None
    case Some(body) =>
      var n := QuoteFreeRun(body);
      match StripPrefix("\"" + sep, body[n..])
      case None => None
      case Some(rest) =>
        if n == 0 then None
        else
          assert body == body[..n] + body[n..];
          Some((body[..n], rest))
  }

  /** The split finds the field of a rendered field. */
  lemma FieldSplitOf(f: string, sep: string, tail: string)
    requires FieldText(f)
    ensures FieldSplit("\"" + f + ("\"" + sep) + tail, sep) == Some((f, tail))
  {
    var body := f + ("\"" + sep) + tail;
    assert "\"" + f + ("\"" + sep) + tail == "\"" + body;
    StripPrefixOf("\"", body);
    assert body == f + ("\"" + (sep + tail));
    QuoteFreeRunOf(f, sep + tail);
    assert body[..|f|] == f;
    assert body[|f|..] == ("\"" + sep) + tail;
    StripPrefixOf("\"" + sep, tail);
  }

  lemma RenderWord(p: seq<Piece>, w: string, fs: seq<string>)
    requires p != [] && p[0] == Word(w) && |fs| == FieldCount(p[1..])
    ensures |fs| == FieldCount(p)
    ensures Render(p, fs) == w + (if |p| == 1 then "" else " ") + Render(p[1..], fs)
  {
  }

  lemma RenderField(p: seq<Piece>, f: string, fs: seq<string>)
    requires p != [] && p[0] == Field && |fs| == FieldCount(p[1..])
    ensures |[f] + fs| == FieldCount(p)
    ensures Render(p, [f] + fs) == "\"" + f + ("\"" + (if |p| == 1 then "" else " ")) + Render(p[1..], fs)
  {
    assert ([f] + fs)[0] == f && ([f] + fs)[1..] == fs;
  }

  lemma FieldsCons(f: string, fs: seq<string>)
    requires FieldText(f) && forall i :: 0 <= i < |fs| ==> FieldText(fs[i])
    ensures ([f] + fs)[0] == f && ([f] + fs)[1..] == fs
    ensures forall i :: 0 <= i < |[f] + fs| ==> FieldText(([f] + fs)[i])
  {
    assert forall i :: 1 <= i < |[f] + fs| ==> ([f] + fs)[i] == fs[i - 1];
  }

  lemma StripPrefixOf(pre: string, rest: string)
    ensures StripPrefix(pre, pre + rest) == Some(rest)
  {
    assert (pre + rest)[..|pre|] == pre;
    assert (pre + rest)[|pre|..] == rest;
  }

  lemma {:induction false} QuoteFreeRunOf(f: string, rest: string)
    requires QuoteFree(f)
    ensures QuoteFreeRun(f + ("\"" + rest)) == |f|
  {
    var s := f + ("\"" + rest);
    if f == [] {
      assert s[0] == '"';
    } else {
      assert s[0] == f[0];
      assert s[1..] == f[1..] + ("\"" + rest);
      assert forall i :: 0 <= i < |f[1..]| ==> f[1..][i] == f[i + 1];
      QuoteFreeRunOf(f[1..], rest);
    }
  }

  /** Every line written from a pattern with `[^"]+` fields matches it, with those fields. */
  lemma {:induction false} MatchRender(p: seq<Piece>, fields: seq<string>)
    requires |fields| == FieldCount(p)
    requires forall i :: 0 <= i < |fields| ==> FieldText(fields[i])
    ensures MatchPieces(p, Render(p, fields)) == Some(fields)
    decreases |p|
  {
    if p != [] {
      match p[0]
      case Word(w) =>
        RenderWord(p, w, fields);
        MatchRender(p[1..], fields);
        MatchRenderWord(p, w, fields);
      case Field =>
        var fs := fields[1..];
        assert forall i :: 0 <= i < |fs| ==> fs[i] == fields[i + 1];
        RenderField(p, fields[0], fs);
        MatchRender(p[1..], fs);
        MatchRenderField(p, fields[0], fs);
        assert fields == [fields[0]] + fs;
    }
  }

  lemma MatchRenderWord(p: seq<Piece>, w: string, fields: seq<string>)
    requires p != [] && p[0] == Word(w) && |fields| == FieldCount(p[1..])
    requires MatchPieces(p[1..], Render(p[1..], fields)) == Some(fields)
    ensures |fields| == FieldCount(p)
    ensures MatchPieces(p, Render(p, fields)) == Some(fields)
  {
    var sep := if |p| == 1 then "" else " ";
    RenderWord(p, w, fields);
    StripPrefixOf(w + sep, Render(p[1..], fields));
  }

  lemma MatchRenderField(p: seq<Piece>, f: string, fs: seq<string>)
    requires p != [] && p[0] == Field && |fs| == FieldCount(p[1..])
    requires FieldText(f)
    requires MatchPieces(p[1..], Render(p[1..], fs)) == Some(fs)
    ensures |[f] + fs| == FieldCount(p)
    ensures MatchPieces(p, Render(p, [f] + fs)) == Some([f] + fs)
  {
    var sep := if |p| == 1 then "" else " ";
    RenderField(p, f, fs);
    FieldSplitOf(f, sep, Render(p[1..], fs));
  }

  /** The tokens shlex reads from a rendered line whose fields have no backslash. */
  function Tokens(p: seq<Piece>, fields: seq<string>): seq<string>
    requires |fields| == FieldCount(p)
    decreases |p|
  {
    if p == [] then []
    else match p[0]
      case Word(w) => [w] + Tokens(p[1..], fields)
      case Field => [fields[0]] + Tokens(p[1..], fields[1..])
  }

  predicate NoBackslash(s: string)
  {
    forall i :: 0 <= i < |s| ==> s[i] != '\\'
  }

  lemma {:induction false} LexRender(p: seq<Piece>, fields: seq<string>, acc: seq<string>)
    requires |fields| == FieldCount(p) && PlainWords(p)
    requires forall i :: 0 <= i < |fields| ==> QuoteFree(fields[i]) && NoBackslash(fields[i])
    ensures Shlex.Lex(Render(p, fields), Shlex.Between, "", acc) == Ok(acc + Tokens(p, fields))
    decreases |p|
  {
    if p == [] {
      assert acc + Tokens(p, fields) == acc;
    } else {
      assert PlainWords(p[1..]) by {
        forall i | 0 <= i < |p[1..]| && p[1..][i].Word?
          ensures PlainWord(p[1..][i].w)
        {
          assert p[1..][i] == p[i + 1];
        }
      }
      match p[0]
      case Word(w) =>
        assert PlainWord(w) by { assert p[0].Word?; }
        if |p| == 1 {
          LexLastWord(p, w, fields, acc);
        } else {
          LexRender(p[1..], fields, acc + [w]);
          Shlex.LexWordSpace(w, Render(p[1..], fields), acc);
          LexWordThen(p, w, fields, acc);
        }
      case Field =>
        var fs := fields[1..];
        assert forall i :: 0 <= i < |fs| ==> fs[i] == fields[i + 1];
        assert fields == [fields[0]] + fs;
        if |p| == 1 {
          LexLastField(p, fields[0], fs, acc);
        } else {
          LexRender(p[1..], fs, acc + [fields[0]]);
          LexFieldThen(p, fields[0], fs, acc);
        }
    }
  }

  lemma LexLastWord(p: seq<Piece>, w: string, fields: seq<string>, acc: seq<string>)
    requires |p| == 1 && p[0] == Word(w) && PlainWord(w) && |fields| == FieldCount(p)
    ensures Shlex.Lex(Render(p, fields), Shlex.Between, "", acc) == Ok(acc + Tokens(p, fields))
  {
    assert p[1..] == [];
    assert Render(p, fields) == w by {
      RenderWord(p, w, fields);
      assert w + "" + "" == w;
    }
    assert Tokens(p, fields) == [w];
    assert Shlex.Lex(w, Shlex.Between, "", acc) == Ok(acc + [w]) by {
      Shlex.LexWord(w, "", acc);
      assert w + "" == w;
    }
  }

  lemma LexWordThen(p: seq<Piece>, w: string, fields: seq<string>, acc: seq<string>)
    requires |p| > 1 && p[0] == Word(w) && |fields| == FieldCount(p)
    requires Shlex.Lex(w + (" " + Render(p[1..], fields)), Shlex.Between, "", acc)
          == Shlex.Lex(Render(p[1..], fields), Shlex.Between, "", acc + [w])
    requires Shlex.Lex(Render(p[1..], fields), Shlex.Between, "", acc + [w]) == Ok(acc + [w] + Tokens(p[1..], fields))
    ensures Shlex.Lex(Render(p, fields), Shlex.Between, "", acc) == Ok(acc + Tokens(p, fields))
  {
    RenderWordSpace(p, w, fields);
    TokensWord(p, w, fields, acc);
  }

  lemma RenderWordSpace(p: seq<Piece>, w: string, fields: seq<string>)
    requires |p| > 1 && p[0] == Word(w) && |fields| == FieldCount(p)
    ensures Render(p, fields) == w + (" " + Render(p[1..], fields))
  {
    RenderWord(p, w, fields);
  }

  lemma TokensWord(p: seq<Piece>, w: string, fields: seq<string>, acc: seq<string>)
    requires p != [] && p[0] == Word(w) && |fields| == FieldCount(p)
    ensures acc + [w] + Tokens(p[1..], fields) == acc + Tokens(p, fields)
  {
    assert Tokens(p, fields) == [w] + Tokens(p[1..], fields);
  }

  lemma LexLastField(p: seq<Piece>, f: string, fs: seq<string>, acc: seq<string>)
    requires |p| == 1 && p[0] == Field && QuoteFree(f) && NoBackslash(f) && |[f] + fs| == FieldCount(p)
    ensures Shlex.Lex(Render(p, [f] + fs), Shlex.Between, "", acc) == Ok(acc + Tokens(p, [f] + fs))
  {
    assert p[1..] == [];
    var line := "\"" + f + "\"";
    assert Render(p, [f] + fs) == line by {
      RenderField(p, f, fs);
      assert line + "" + "" == line;
    }
    assert Tokens(p, [f] + fs) == [f] by {
      assert ([f] + fs)[0] == f;
    }
    assert Shlex.Lex(line, Shlex.Between, "", acc) == Ok(acc + [f]) by {
      Shlex.LexQuotedField(f, "", acc);
      assert line + "" == line;
    }
  }

  lemma LexFieldThen(p: seq<Piece>, f: string, fs: seq<string>, acc: seq<string>)
    requires |p| > 1 && p[0] == Field && QuoteFree(f) && NoBackslash(f) && |fs| == FieldCount(p[1..])
    requires Shlex.Lex(Render(p[1..], fs), Shlex.Between, "", acc + [f]) == Ok(acc + [f] + Tokens(p[1..], fs))
    ensures |[f] + fs| == FieldCount(p)
    ensures Shlex.Lex(Render(p, [f] + fs), Shlex.Between, "", acc) == Ok(acc + Tokens(p, [f] + fs))
  {
    var tail := Render(p[1..], fs);
    RenderFieldSpace(p, f, fs);
    Shlex.LexQuotedField(f, " " + tail, acc);
    Shlex.LexSpace(tail, f, acc);
    TokensField(p, f, fs);
    assert acc + [f] + Tokens(p[1..], fs) == acc + ([f] + Tokens(p[1..], fs));
    TokensField(p, f, fs);
  }

  lemma RenderFieldSpace(p: seq<Piece>, f: string, fs: seq<string>)
    requires |p| > 1 && p[0] == Field && |fs| == FieldCount(p[1..])
    ensures |[f] + fs| == FieldCount(p)
    ensures Render(p, [f] + fs) == "\"" + f + "\"" + (" " + Render(p[1..], fs))
  {
    RenderField(p, f, fs);
  }

  lemma TokensField(p: seq<Piece>, f: string, fs: seq<string>)
    requires p != [] && p[0] == Field && |fs| == FieldCount(p[1..])
    ensures |[f] + fs| == FieldCount(p)
    ensures Tokens(p, [f] + fs) == [f] + Tokens(p[1..], fs)
  {
    assert ([f] + fs)[0] == f && ([f] + fs)[1..] == fs;
  }

  /** A field of a rendered line is part of that line. */
  lemma {:induction false} BackslashFreeField(p: seq<Piece>, fs: seq<string>, i: nat)
    requires |fs| == FieldCount(p) && i < |fs|
    requires NoBackslash(Render(p, fs))
    ensures NoBackslash(fs[i])
    decreases |p|
  {
    var sep := if |p| == 1 then "" else " ";
    match p[0]
    case Word(w) =>
      var tail := Render(p[1..], fs);
      assert Render(p, fs) == (w + sep) + tail;
      assert forall k :: 0 <= k < |tail| ==> tail[k] == Render(p, fs)[|w + sep| + k];
      BackslashFreeField(p[1..], fs, i);
    case Field =>
      var tail := Render(p[1..], fs[1..]);
      assert Render(p, fs) == "\"" + fs[0] + ("\"" + sep + tail);
      if i == 0 {
        assert forall k :: 0 <= k < |fs[0]| ==> fs[0][k] == Render(p, fs)[1 + k];
      } else {
        assert Render(p, fs) == ("\"" + fs[0] + "\"" + sep) + tail;
        assert forall k :: 0 <= k < |tail| ==> tail[k] == Render(p, fs)[|"\"" + fs[0] + "\"" + sep| + k];
        BackslashFreeField(p[1..], fs[1..], i - 1);
      }
  }


  /** A rendered line starts with the pattern's first word. */
  lemma RenderFirst(p: seq<Piece>, fs: seq<string>)
    requires p != [] && p[0].Word? && p[0].w != "" && |fs| == FieldCount(p)
    ensures |Render(p, fs)| > 0 && Render(p, fs)[0] == p[0].w[0]
  {
    RenderWord(p, p[0].w, fs);
  }

  /** A line whose first character differs from the pattern's first word does not match. */
  lemma NoMatchFirst(q: seq<Piece>, line: string)
    requires q != [] && q[0].Word? && q[0].w != ""
    requires line != [] && line[0] != q[0].w[0]
    ensures MatchPieces(q, line).None?
  {
    var sep := if |q| == 1 then "" else " ";
    assert (q[0].w + sep)[0] == q[0].w[0];
    assert StripPrefix(q[0].w + sep, line).None?;
  }

  /** Matching a leading word consumes it and its space. */
  lemma MatchWordStep(q: seq<Piece>, w: string, rest: string)
    requires |q| > 1 && q[0] == Word(w)
    ensures MatchPieces(q, w + " " + rest) == MatchPieces(q[1..], rest)
  {
    StripPrefixOf(w + " ", rest);
  }

  /** Without backslashes, shlex reads a matched line as the pattern's words and fields. */
  lemma MatchTokens(p: seq<Piece>, line: string)
    requires PlainWords(p) && NoBackslash(line) && MatchPieces(p, line).Some?
    ensures forall i :: 0 <= i < |MatchPieces(p, line).value| ==> NoBackslash(MatchPieces(p, line).value[i])
    ensures Shlex.Split(line) == Ok(Tokens(p, MatchPieces(p, line).value))
  {
    var fs := MatchPieces(p, line).value;
    forall i | 0 <= i < |fs| ensures NoBackslash(fs[i]) {
      BackslashFreeField(p, fs, i);
    }
    LexRender(p, fs, []);
    assert [] + Tokens(p, fs) == Tokens(p, fs);
  }
}
