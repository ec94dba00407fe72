/**
 * `shlex.split(s)` of the Python standard library in its default POSIX mode
 * (whitespace splitting, no comment characters): the tokenizer the scenario
 * parser runs on every line before matching it.
 */
module Shlex {
  import opened Wrappers

  /** shlex's whitespace set: space, tab, carriage return, line feed. */
  predicate IsShlexSpace(c: char)
  {
    c == ' ' || c == '\t' || c == '\r' || c == '\n'
  }

  /** A character that shlex treats as part of a bare word. */
  predicate IsPlain(c: char)
  {
    !IsShlexSpace(c) && c != '"' && c != '\'' && c != '\\'
  }

  datatype LexState = Between | InWord | Quoted(q: char) | Escaped(resume: LexState)

  /**
   * The token reader: `acc` holds the finished tokens and `token` the one
   * being read. A backslash escapes the next character outside quotes and
   * only `\` and `"` inside double quotes; nothing escapes inside single quotes.
   */
  function Lex(s: string, st: LexState, token: string, acc: seq<string>): Result<seq<string>>
    decreases |s|
  {
    if s == [] then
      match st
      case Between => Ok(acc)
      case InWord => Ok(acc + [token])
      case Quoted(_) => Err(ValueError("No closing quotation"))
      case Escaped(_) => Err(ValueError("No escaped character"))
    else
      var c := s[0];
      var rest := s[1..];
      match st
      case Between =>
        if IsShlexSpace(c) then Lex(rest, Between, token, acc)
        else if c == '\\' then Lex(rest, Escaped(InWord), token, acc)
        else if c == '"' || c == '\'' then Lex(rest, Quoted(c), token, acc)
        else Lex(rest, InWord, token + [c], acc)
      case InWord =>
        if IsShlexSpace(c) then Lex(rest, Between, "", acc + [token])
        else if c == '\\' then Lex(rest, Escaped(InWord), token, acc)
        else if c == '"' || c == '\'' then Lex(rest, Quoted(c), token, acc)
        else Lex(rest, InWord, token + [c], acc)
      case Quoted(q) =>
        if c == q then Lex(rest, InWord, token, acc)
        else if q == '"' && c == '\\' then Lex(rest, Escaped(Quoted(q)), token, acc)
        else Lex(rest, Quoted(q), token + [c], acc)
      case Escaped(resume) =>
        var kept := if resume.Quoted? && c != '\\' && c != resume.q then token + ['\\'] else token;
        Lex(rest, resume, kept + [c], acc)
  }

  /** `shlex.split(s)` */
  function Split(s: string): Result<seq<string>>
  {
    Lex(s, Between, "", [])
  }

  /** A run of plain characters extends the word being read. */
  lemma {:induction false} LexPlainRun(w: string, rest: string, token: string, acc: seq<string>)
    requires forall i :: 0 <= i < |w| ==> IsPlain(w[i])
    ensures Lex(w + rest, InWord, token, acc) == Lex(rest, InWord, token + w, acc)
    decreases |w|
  {
    if w == [] {
      assert w + rest == rest && token + w == token;
    } else {
      assert (w + rest)[0] == w[0] && IsPlain(w[0]);
      assert (w + rest)[1..] == w[1..] + rest;
      assert Lex(w + rest, InWord, token, acc) == Lex(w[1..] + rest, InWord, token + [w[0]], acc);
      LexPlainRun(w[1..], rest, token + [w[0]], acc);
      assert token + [w[0]] + w[1..] == token + w;
    }
  }

  /** A run free of `"` and `\` is copied verbatim inside double quotes. */
  lemma {:induction false} LexQuotedRun(f: string, rest: string, token: string, acc: seq<string>)
    requires forall i :: 0 <= i < |f| ==> f[i] != '"' && f[i] != '\\'
    ensures Lex(f + rest, Quoted('"'), token, acc) == Lex(rest, Quoted('"'), token + f, acc)
    decreases |f|
  {
    if f == [] {
      assert f + rest == rest && token + f == token;
    } else {
      assert (f + rest)[0] == f[0];
      assert (f + rest)[1..] == f[1..] + rest;
      assert Lex(f + rest, Quoted('"'), token, acc) == Lex(f[1..] + rest, Quoted('"'), token + [f[0]], acc);
      LexQuotedRun(f[1..], rest, token + [f[0]], acc);
      assert token + [f[0]] + f[1..] == token + f;
    }
  }

  /** A bare non-empty word read from between tokens. */
  lemma LexWord(w: string, rest: string, acc: seq<string>)
    requires w != [] && forall i :: 0 <= i < |w| ==> IsPlain(w[i])
    ensures Lex(w + rest, Between, "", acc) == Lex(rest, InWord, w, acc)
  {
    assert (w + rest)[0] == w[0] && IsPlain(w[0]);
    assert (w + rest)[1..] == w[1..] + rest;
    assert Lex(w + rest, Between, "", acc) == Lex(w[1..] + rest, InWord, "" + [w[0]], acc);
    assert "" + [w[0]] == [w[0]];
    LexPlainRun(w[1..], rest, [w[0]], acc);
    assert [w[0]] + w[1..] == w;
  }

  /** A bare word followed by a space is one token. */
  lemma LexWordSpace(w: string, rest: string, acc: seq<string>)
    requires w != [] && forall i :: 0 <= i < |w| ==> IsPlain(w[i])
    ensures Lex(w + (" " + rest), Between, "", acc) == Lex(rest, Between, "", acc + [w])
  {
    LexWord(w, " " + rest, acc);
    LexSpace(rest, w, acc);
  }

  /** A space ends the word being read. */
  lemma LexSpace(rest: string, token: string, acc: seq<string>)
    ensures Lex(" " + rest, InWord, token, acc) == Lex(rest, Between, "", acc + [token])
  {
    assert (" " + rest)[0] == ' ' && (" " + rest)[1..] == rest;
  }

  /** A double-quoted field read from between tokens loses its quotes. */
  lemma LexQuotedField(f: string, rest: string, acc: seq<string>)
    requires forall i :: 0 <= i < |f| ==> f[i] != '"' && f[i] != '\\'
    ensures Lex("\"" + f + "\"" + rest, Between, "", acc) == Lex(rest, InWord, f, acc)
  {
    var s := "\"" + f + "\"" + rest;
    assert s[0] == '"' && s[1..] == f + ("\"" + rest);
    LexQuotedRun(f, "\"" + rest, "", acc);
    assert "" + f == f;
    assert ("\"" + rest)[0] == '"' && ("\"" + rest)[1..] == rest;
  }
}
