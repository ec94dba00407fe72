/**
 * Scenario files: one named list of instruction lines per test case. Each
 * line is tokenised with shlex and matched, in a fixed order, against the
 * instruction grammar; the first match decides the step class and which
 * tokens become its fields.
 */
module TestCases {
  import opened Wrappers
  import opened Seqs
  import opened Operation
  import opened LineGrammar
  import Shlex
  import Setting

  // The instruction patterns, in the order the parser tries them

  const OpenPattern: seq<Piece> := [Word("open"), Field]
  const EnterPattern: seq<Piece> := [Word("enter"), Field, Word("in"), Field]
  const SelectPattern: seq<Piece> := [Word("select"), Field, Word("from"), Field]
  const ClickPattern: seq<Piece> := [Word("click"), Field]
  const AssertStringPattern: seq<Piece> := [Word("assert"), Word("string"), Field, Word("exist")]
  const AssertTitlePattern: seq<Piece> := [Word("assert"), Word("title"), Word("is"), Field]
  const TransitionLine := "---"

  // ---------------------------------------------------------------------------
  // Parsing one line

  /** The token at index `i`, or the `IndexError` Python raises. */
  function TokenAt(tokens: seq<string>, i: nat): Result<string>
  {
    if i < |tokens| then Ok(tokens[i]) else Err(IndexError)
  }

  /**
   * The body of `TestCaseParser.load_file` for one line: shlex first (whose
   * errors propagate), then the patterns in order, then the transition marker.
   */
  function ParseStep(line: string): Result<Step>
  {
    match Shlex.Split(line)
    case Err(e) => Err(e)
    case Ok(tokens) =>
      if MatchPieces(OpenPattern, line).Some? then
        match TokenAt(tokens, 1)
        case Err(e) => Err(e)
        case Ok(v) => Ok(Open(line, v))
      else if MatchPieces(EnterPattern, line).Some? then
        match TokenAt(tokens, 3)
        case Err(e) => Err(e)
        case Ok(t) => Ok(Enter(line, t, tokens[1], false))
      else if MatchPieces(SelectPattern, line).Some? then
        match TokenAt(tokens, 3)
        case Err(e) => Err(e)
        case Ok(t) => Ok(Select(line, t, tokens[1], false))
      else if MatchPieces(ClickPattern, line).Some? then
        match TokenAt(tokens, 1)
        case Err(e) => Err(e)
        case Ok(t) => Ok(Click(line, t, false))
      else if MatchPieces(AssertStringPattern, line).Some? then
        match TokenAt(tokens, 2)
        case Err(e) => Err(e)
        case Ok(v) => Ok(AssertString(line, v))
      else if MatchPieces(AssertTitlePattern, line).Some? then
        match TokenAt(tokens, 3)
        case Err(e) => Err(e)
        case Ok(v) => Ok(AssertTitle(line, v))
      else if line == TransitionLine then Ok(PageTransition(line))
      else Err(ValueError("test case is invalid: " + line))
  }

  /** The pattern of a step class and its fields in writing order. */
  function PatternOf(s: Step): seq<Piece>
  {
    match s
    case Open(_, _) => OpenPattern
    case Enter(_, _, _, _) => EnterPattern
    case Select(_, _, _, _) => SelectPattern
    case Click(_, _, _) => ClickPattern
    case AssertString(_, _) => AssertStringPattern
    case AssertTitle(_, _) => AssertTitlePattern
    case PageTransition(_) => [Word(TransitionLine)]
  }

  function FieldsOf(s: Step): (r: seq<string>)
    ensures |r| == FieldCount(PatternOf(s))
  {
    match s
    case Open(_, v) => [v]
    case Enter(_, t, v, _) => [v, t]
    case Select(_, t, v, _) => [v, t]
    case Click(_, t, _) => [t]
    case AssertString(_, v) => [v]
    case AssertTitle(_, v) => [v]
    case PageTransition(_) => []
  }

  /** The scenario line that describes a step. */
  function LineOf(s: Step): string
  {
    Render(PatternOf(s), FieldsOf(s))
  }

  /** The fields a scenario can write: `[^"]+` and without backslash. */
  predicate WritableStep(s: Step)
  {
    forall i :: 0 <= i < |FieldsOf(s)| ==> FieldText(FieldsOf(s)[i]) && NoBackslash(FieldsOf(s)[i])
  }

  /** A step as the parser builds it from `line`: raw text kept, `once` off. */
  predicate ParsedFrom(s: Step, line: string)
  {
    s.rawString == line && (s.IsLocatable() ==> !s.once)
  }

  predicate IsPattern(q: seq<Piece>)
  {
    q == OpenPattern || q == EnterPattern || q == SelectPattern || q == ClickPattern
    || q == AssertStringPattern || q == AssertTitlePattern
  }

  lemma PlainKeywords()
    ensures PlainWord("open") && PlainWord("enter") && PlainWord("in") && PlainWord("select")
    ensures PlainWord("from") && PlainWord("click") && PlainWord("assert") && PlainWord("string")
    ensures PlainWord("exist") && PlainWord("title") && PlainWord("is") && PlainWord(TransitionLine)
  {
  }

  /** The number of fields of each instruction pattern. */
  lemma PatternFieldCounts()
    ensures FieldCount(OpenPattern) == 1 && FieldCount(ClickPattern) == 1
    ensures FieldCount(EnterPattern) == 2 && FieldCount(SelectPattern) == 2
    ensures FieldCount(AssertStringPattern) == 1 && FieldCount(AssertTitlePattern) == 1
  {
    assert OpenPattern[1..][1..] == [] && ClickPattern[1..][1..] == [];
    assert EnterPattern[1..][1..][1..][1..] == [] && SelectPattern[1..][1..][1..][1..] == [];
    assert AssertStringPattern[1..][1..][1..][1..] == [] && AssertTitlePattern[1..][1..][1..][1..] == [];
  }

  lemma PlainPatterns(s: Step)
    ensures PlainWords(PatternOf(s))
  {
    PlainKeywords();
  }

  /** The literal words of every instruction pattern read back from shlex as themselves. */
  lemma PatternPlain(p: seq<Piece>)
    requires IsPattern(p)
    ensures PlainWords(p)
  {
    PlainKeywords();
  }

  /** A line of one step class does not match the pattern of another. */
  lemma NoMatchOther(s: Step, q: seq<Piece>)
    requires IsPattern(q) && q != PatternOf(s)
    ensures MatchPieces(q, LineOf(s)).None?
  {
    var p := PatternOf(s);
    var fs := FieldsOf(s);
    var line := LineOf(s);
    RenderFirst(p, fs);
    if line[0] != q[0].w[0] {
      NoMatchFirst(q, line);
    } else {
      assert p[0] == Word("assert") && q[0] == Word("assert");
      RenderWord(p, "assert", fs);
      MatchWordStep(q, "assert", Render(p[1..], fs));
      RenderFirst(p[1..], fs);
      NoMatchFirst(q[1..], Render(p[1..], fs));
    }
  }

  // What the parser builds from a line, by the first pattern the line matches.

  lemma ParseAsOpen(line: string, tokens: seq<string>)
    requires Shlex.Split(line) == Ok(tokens) && |tokens| > 1
    requires MatchPieces(OpenPattern, line).Some?
    ensures ParseStep(line) == Ok(Open(line, tokens[1]))
  {
  }

  lemma ParseAsEnter(line: string, tokens: seq<string>)
    requires Shlex.Split(line) == Ok(tokens) && |tokens| > 3
    requires MatchPieces(OpenPattern, line).None? && MatchPieces(EnterPattern, line).Some?
    ensures ParseStep(line) == Ok(Enter(line, tokens[3], tokens[1], false))
  {
  }

  lemma ParseAsSelect(line: string, tokens: seq<string>)
    requires Shlex.Split(line) == Ok(tokens) && |tokens| > 3
    requires MatchPieces(OpenPattern, line).None? && MatchPieces(EnterPattern, line).None?
    requires MatchPieces(SelectPattern, line).Some?
    ensures ParseStep(line) == Ok(Select(line, tokens[3], tokens[1], false))
  {
  }

  lemma ParseAsClick(line: string, tokens: seq<string>)
    requires Shlex.Split(line) == Ok(tokens) && |tokens| > 1
    requires MatchPieces(OpenPattern, line).None? && MatchPieces(EnterPattern, line).None?
    requires MatchPieces(SelectPattern, line).None? && MatchPieces(ClickPattern, line).Some?
    ensures ParseStep(line) == Ok(Click(line, tokens[1], false))
  {
  }

  lemma ParseAsAssertString(line: string, tokens: seq<string>)
    requires Shlex.Split(line) == Ok(tokens) && |tokens| > 2
    requires MatchPieces(OpenPattern, line).None? && MatchPieces(EnterPattern, line).None?
    requires MatchPieces(SelectPattern, line).None? && MatchPieces(ClickPattern, line).None?
    requires MatchPieces(AssertStringPattern, line).Some?
    ensures ParseStep(line) == Ok(AssertString(line, tokens[2]))
  {
  }

  lemma ParseAsAssertTitle(line: string, tokens: seq<string>)
    requires Shlex.Split(line) == Ok(tokens) && |tokens| > 3
    requires MatchPieces(OpenPattern, line).None? && MatchPieces(EnterPattern, line).None?
    requires MatchPieces(SelectPattern, line).None? && MatchPieces(ClickPattern, line).None?
    requires MatchPieces(AssertStringPattern, line).None? && MatchPieces(AssertTitlePattern, line).Some?
    ensures ParseStep(line) == Ok(AssertTitle(line, tokens[3]))
  {
  }

  lemma ParseAsTransition(line: string, tokens: seq<string>)
    requires Shlex.Split(line) == Ok(tokens) && line == TransitionLine
    requires forall q :: IsPattern(q) ==> MatchPieces(q, line).None?
    ensures ParseStep(line) == Ok(PageTransition(line))
  {
    assert IsPattern(OpenPattern) && IsPattern(EnterPattern) && IsPattern(SelectPattern);
    assert IsPattern(ClickPattern) && IsPattern(AssertStringPattern) && IsPattern(AssertTitlePattern);
  }

  /** `line` matches the pattern of the class of `s` and no other. */
  predicate MatchesExactly(s: Step, line: string)
  {
    && (MatchPieces(OpenPattern, line).Some? <==> s.Open?)
    && (MatchPieces(EnterPattern, line).Some? <==> s.Enter?)
    && (MatchPieces(SelectPattern, line).Some? <==> s.Select?)
    && (MatchPieces(ClickPattern, line).Some? <==> s.Click?)
    && (MatchPieces(AssertStringPattern, line).Some? <==> s.AssertString?)
    && (MatchPieces(AssertTitlePattern, line).Some? <==> s.AssertTitle?)
    && (line == TransitionLine <==> s.PageTransition?)
  }

  /** The line of a writable step matches its own pattern and no other. */
  lemma LineOfMatchesExactly(s: Step)
    requires WritableStep(s)
    ensures MatchesExactly(s, LineOf(s))
  {
    MatchesOwnOnly(s, OpenPattern);
    MatchesOwnOnly(s, EnterPattern);
    MatchesOwnOnly(s, SelectPattern);
    MatchesOwnOnly(s, ClickPattern);
    MatchesOwnOnly(s, AssertStringPattern);
    MatchesOwnOnly(s, AssertTitlePattern);
    TransitionLineOnly(s);
  }

  /** Of the instruction patterns, the line of a writable step matches its own. */
  lemma MatchesOwnOnly(s: Step, q: seq<Piece>)
    requires WritableStep(s) && IsPattern(q)
    ensures MatchPieces(q, LineOf(s)).Some? <==> q == PatternOf(s)
  {
    if q == PatternOf(s) {
      MatchRender(PatternOf(s), FieldsOf(s));
    } else {
      NoMatchOther(s, q);
    }
  }

  /** Only a page transition is written as the transition marker. */
  lemma TransitionLineOnly(s: Step)
    ensures LineOf(s) == TransitionLine <==> s.PageTransition?
  {
    if !s.PageTransition? {
      RenderFirst(PatternOf(s), FieldsOf(s));
      assert PatternOf(s)[0].w[0] != TransitionLine[0];
    } else {
      var p := PatternOf(s);
      assert p == [Word(TransitionLine)] && FieldsOf(s) == [];
      assert p[1..] == [];
      assert Render(p[1..], []) == "";
      assert Render(p, []) == TransitionLine + "" + Render(p[1..], []);
    }
  }

  /** How the parser reads the line of a step that matches only its own pattern. */
  lemma ParseMatched(line: string, s: Step)
    requires ParsedFrom(s, line) && MatchesExactly(s, line)
    requires Shlex.Split(line) == Ok(Tokens(PatternOf(s), FieldsOf(s)))
    ensures ParseStep(line) == Ok(s)
  {
    if s.Open? { ParseOwnOpen(line, s); }
    else if s.Enter? { ParseOwnEnter(line, s); }
    else if s.Select? { ParseOwnSelect(line, s); }
    else if s.Click? { ParseOwnClick(line, s); }
    else if s.AssertString? { ParseOwnAssertString(line, s); }
    else if s.AssertTitle? { ParseOwnAssertTitle(line, s); }
    else { ParseOwnTransition(line, s); }
  }

  lemma ParseOwnOpen(line: string, s: Step)
    requires s.Open? && ParsedFrom(s, line) && MatchesExactly(s, line)
    requires Shlex.Split(line) == Ok(Tokens(PatternOf(s), FieldsOf(s)))
    ensures ParseStep(line) == Ok(s)
  {
    ParseAsOpen(line, Tokens(PatternOf(s), FieldsOf(s)));
  }

  lemma ParseOwnEnter(line: string, s: Step)
    requires s.Enter? && ParsedFrom(s, line) && MatchesExactly(s, line)
    requires Shlex.Split(line) == Ok(Tokens(PatternOf(s), FieldsOf(s)))
    ensures ParseStep(line) == Ok(s)
  {
    ParseAsEnter(line, Tokens(PatternOf(s), FieldsOf(s)));
  }

  lemma ParseOwnSelect(line: string, s: Step)
    requires s.Select? && ParsedFrom(s, line) && MatchesExactly(s, line)
    requires Shlex.Split(line) == Ok(Tokens(PatternOf(s), FieldsOf(s)))
    ensures ParseStep(line) == Ok(s)
  {
    ParseAsSelect(line, Tokens(PatternOf(s), FieldsOf(s)));
  }

  lemma ParseOwnClick(line: string, s: Step)
    requires s.Click? && ParsedFrom(s, line) && MatchesExactly(s, line)
    requires Shlex.Split(line) == Ok(Tokens(PatternOf(s), FieldsOf(s)))
    ensures ParseStep(line) == Ok(s)
  {
    ParseAsClick(line, Tokens(PatternOf(s), FieldsOf(s)));
  }

  lemma ParseOwnAssertString(line: string, s: Step)
    requires s.AssertString? && ParsedFrom(s, line) && MatchesExactly(s, line)
    requires Shlex.Split(line) == Ok(Tokens(PatternOf(s), FieldsOf(s)))
    ensures ParseStep(line) == Ok(s)
  {
    ParseAsAssertString(line, Tokens(PatternOf(s), FieldsOf(s)));
  }

  lemma ParseOwnAssertTitle(line: string, s: Step)
    requires s.AssertTitle? && ParsedFrom(s, line) && MatchesExactly(s, line)
    requires Shlex.Split(line) == Ok(Tokens(PatternOf(s), FieldsOf(s)))
    ensures ParseStep(line) == Ok(s)
  {
    TitleTokens(s);
    ParseAsAssertTitle(line, ["assert", "title", "is", s.value]);
  }

  lemma TitleTokens(s: Step)
    requires s.AssertTitle?
    ensures Tokens(PatternOf(s), FieldsOf(s)) == ["assert", "title", "is", s.value]
  {
    var p := PatternOf(s);
    assert p[1..][1..][1..] == [Field];
  }

  lemma ParseOwnTransition(line: string, s: Step)
    requires s.PageTransition? && ParsedFrom(s, line) && MatchesExactly(s, line)
    requires Shlex.Split(line) == Ok(Tokens(PatternOf(s), FieldsOf(s)))
    ensures ParseStep(line) == Ok(s)
  {
    forall q | IsPattern(q) ensures MatchPieces(q, line).None? {}
    ParseAsTransition(line, Tokens(PatternOf(s), FieldsOf(s)));
  }

  /** Parsing the line of a writable step gives that step back. */
  lemma ParseLineOf(s: Step)
    requires WritableStep(s) && ParsedFrom(s, LineOf(s))
    ensures ParseStep(LineOf(s)) == Ok(s)
  {
    var line := LineOf(s);
    PlainPatterns(s);
    MatchRender(PatternOf(s), FieldsOf(s));
    LexRender(PatternOf(s), FieldsOf(s), []);
    assert [] + Tokens(PatternOf(s), FieldsOf(s)) == Tokens(PatternOf(s), FieldsOf(s));
    LineOfMatchesExactly(s);
    ParseMatched(line, s);
  }

  /**
   * Whatever the parser accepts is a step of the line's own class built from
   * that line; without backslashes the line is exactly that step's line.
   */
  lemma ParseStepSound(line: string, s: Step)
    requires ParseStep(line) == Ok(s)
    ensures ParsedFrom(s, line)
    ensures NoBackslash(line) ==> WritableStep(s) && LineOf(s) == line
  {
    ParseStepRaw(line, s);
    if NoBackslash(line) {
      var p: seq<Piece>;
      if MatchPieces(OpenPattern, line).Some? { p := OpenPattern; }
      else if MatchPieces(EnterPattern, line).Some? { p := EnterPattern; }
      else if MatchPieces(SelectPattern, line).Some? { p := SelectPattern; }
      else if MatchPieces(ClickPattern, line).Some? { p := ClickPattern; }
      else if MatchPieces(AssertStringPattern, line).Some? { p := AssertStringPattern; }
      else if MatchPieces(AssertTitlePattern, line).Some? { p := AssertTitlePattern; }
      else {
        assert line == TransitionLine;
        return;
      }
      SoundMatched(line, s, p);
    }
  }

  /** Every step the parser builds keeps the line it came from and starts with `once` off. */
  lemma ParseStepRaw(line: string, s: Step)
    requires ParseStep(line) == Ok(s)
    ensures ParsedFrom(s, line)
  {
    if MatchPieces(OpenPattern, line).Some? || MatchPieces(EnterPattern, line).Some?
      || MatchPieces(SelectPattern, line).Some? {
      RawOpenEnterSelect(line, s);
    } else {
      RawOthers(line, s);
    }
  }

  lemma RawOpenEnterSelect(line: string, s: Step)
    requires ParseStep(line) == Ok(s)
    requires MatchPieces(OpenPattern, line).Some? || MatchPieces(EnterPattern, line).Some?
      || MatchPieces(SelectPattern, line).Some?
    ensures ParsedFrom(s, line)
  {
  }

  lemma RawOthers(line: string, s: Step)
    requires ParseStep(line) == Ok(s)
    requires MatchPieces(OpenPattern, line).None? && MatchPieces(EnterPattern, line).None?
    requires MatchPieces(SelectPattern, line).None?
    ensures ParsedFrom(s, line)
  {
    if MatchPieces(ClickPattern, line).Some? || MatchPieces(AssertStringPattern, line).Some? {
      RawClickString(line, s);
    } else {
      RawTitleTransition(line, s);
    }
  }

  lemma RawClickString(line: string, s: Step)
    requires ParseStep(line) == Ok(s)
    requires MatchPieces(OpenPattern, line).None? && MatchPieces(EnterPattern, line).None?
    requires MatchPieces(SelectPattern, line).None?
    requires MatchPieces(ClickPattern, line).Some? || MatchPieces(AssertStringPattern, line).Some?
    ensures ParsedFrom(s, line)
  {
  }

  lemma RawTitleTransition(line: string, s: Step)
    requires ParseStep(line) == Ok(s)
    requires MatchPieces(OpenPattern, line).None? && MatchPieces(EnterPattern, line).None?
    requires MatchPieces(SelectPattern, line).None? && MatchPieces(ClickPattern, line).None?
    requires MatchPieces(AssertStringPattern, line).None?
    ensures ParsedFrom(s, line)
  {
  }

  lemma SoundMatched(line: string, s: Step, p: seq<Piece>)
    requires ParseStep(line) == Ok(s) && NoBackslash(line)
    requires IsPattern(p) && MatchPieces(p, line).Some?
    requires p == OpenPattern || MatchPieces(OpenPattern, line).None?
    requires p in {OpenPattern, EnterPattern} || MatchPieces(EnterPattern, line).None?
    requires p in {OpenPattern, EnterPattern, SelectPattern} || MatchPieces(SelectPattern, line).None?
    requires p in {AssertStringPattern, AssertTitlePattern} ==> MatchPieces(ClickPattern, line).None?
    requires p == AssertTitlePattern ==> MatchPieces(AssertStringPattern, line).None?
    ensures WritableStep(s) && LineOf(s) == line
  {
    if p == OpenPattern { SoundOpen(line, s); }
    else if p == EnterPattern { SoundEnter(line, s); }
    else if p == SelectPattern { SoundSelect(line, s); }
    else if p == ClickPattern { SoundClick(line, s); }
    else if p == AssertStringPattern { SoundAssertString(line, s); }
    else { SoundAssertTitle(line, s); }
  }

  /** A step whose pattern matched the line with the step's own fields is that line's step. */
  lemma MatchedStep(line: string, s: Step, fs: seq<string>)
    requires NoBackslash(line) && PlainWords(PatternOf(s))
    requires MatchPieces(PatternOf(s), line) == Some(fs) && FieldsOf(s) == fs
    ensures WritableStep(s) && LineOf(s) == line
  {
    MatchTokens(PatternOf(s), line);
  }

  lemma SoundOpen(line: string, s: Step)
    requires ParseStep(line) == Ok(s) && NoBackslash(line)
    requires MatchPieces(OpenPattern, line).Some?
    ensures WritableStep(s) && LineOf(s) == line
  {
    var fs := MatchPieces(OpenPattern, line).value;
    OpenSplit(line, fs);
    OpenWritten(line, fs);
    ParseAsOpen(line, ["open", fs[0]]);
  }

  /** shlex reads a line matching the open pattern as its keywords and fields. */
  lemma OpenSplit(line: string, fs: seq<string>)
    requires NoBackslash(line) && MatchPieces(OpenPattern, line) == Some(fs)
    ensures |fs| == 1
    ensures Shlex.Split(line) == Ok(["open", fs[0]])
  {
    PatternFieldCounts();
    PatternPlain(OpenPattern);
    MatchTokens(OpenPattern, line);
    OpenTokens(fs);
  }

  /** The step built from the fields of a matching line is written as that line. */
  lemma OpenWritten(line: string, fs: seq<string>)
    requires NoBackslash(line) && MatchPieces(OpenPattern, line) == Some(fs) && |fs| == 1
    ensures WritableStep(Open(line, fs[0])) && LineOf(Open(line, fs[0])) == line
  {
    PlainPatterns(Open(line, fs[0]));
    MatchedStep(line, Open(line, fs[0]), fs);
  }

  lemma OpenTokens(fs: seq<string>)
    requires |fs| == 1
    ensures Tokens(OpenPattern, fs) == ["open", fs[0]]
  {
    var p := OpenPattern;
    assert p[1..][1..] == [];
  }

  lemma SoundEnter(line: string, s: Step)
    requires ParseStep(line) == Ok(s) && NoBackslash(line)
    requires MatchPieces(OpenPattern, line).None?
    requires MatchPieces(EnterPattern, line).Some?
    ensures WritableStep(s) && LineOf(s) == line
  {
    var fs := MatchPieces(EnterPattern, line).value;
    EnterSplit(line, fs);
    EnterWritten(line, fs);
    ParseAsEnter(line, ["enter", fs[0], "in", fs[1]]);
  }

  /** shlex reads a line matching the enter pattern as its keywords and fields. */
  lemma EnterSplit(line: string, fs: seq<string>)
    requires NoBackslash(line) && MatchPieces(EnterPattern, line) == Some(fs)
    ensures |fs| == 2
    ensures Shlex.Split(line) == Ok(["enter", fs[0], "in", fs[1]])
  {
    PatternFieldCounts();
    PatternPlain(EnterPattern);
    MatchTokens(EnterPattern, line);
    EnterTokens(fs);
  }

  /** The step built from the fields of a matching line is written as that line. */
  lemma EnterWritten(line: string, fs: seq<string>)
    requires NoBackslash(line) && MatchPieces(EnterPattern, line) == Some(fs) && |fs| == 2
    ensures WritableStep(Enter(line, fs[1], fs[0], false)) && LineOf(Enter(line, fs[1], fs[0], false)) == line
  {
    PlainPatterns(Enter(line, fs[1], fs[0], false));
    MatchedStep(line, Enter(line, fs[1], fs[0], false), fs);
  }

  lemma EnterTokens(fs: seq<string>)
    requires |fs| == 2
    ensures Tokens(EnterPattern, fs) == ["enter", fs[0], "in", fs[1]]
  {
    var p := EnterPattern;
    assert p[1..][1..][1..][1..] == [];
  }

  lemma SoundSelect(line: string, s: Step)
    requires ParseStep(line) == Ok(s) && NoBackslash(line)
    requires MatchPieces(OpenPattern, line).None? && MatchPieces(EnterPattern, line).None?
    requires MatchPieces(SelectPattern, line).Some?
    ensures WritableStep(s) && LineOf(s) == line
  {
    var fs := MatchPieces(SelectPattern, line).value;
    SelectSplit(line, fs);
    SelectWritten(line, fs);
    ParseAsSelect(line, ["select", fs[0], "from", fs[1]]);
  }

  /** shlex reads a line matching the select pattern as its keywords and fields. */
  lemma SelectSplit(line: string, fs: seq<string>)
    requires NoBackslash(line) && MatchPieces(SelectPattern, line) == Some(fs)
    ensures |fs| == 2
    ensures Shlex.Split(line) == Ok(["select", fs[0], "from", fs[1]])
  {
    PatternFieldCounts();
    PatternPlain(SelectPattern);
    MatchTokens(SelectPattern, line);
    SelectTokens(fs);
  }

  /** The step built from the fields of a matching line is written as that line. */
  lemma SelectWritten(line: string, fs: seq<string>)
    requires NoBackslash(line) && MatchPieces(SelectPattern, line) == Some(fs) && |fs| == 2
    ensures WritableStep(Select(line, fs[1], fs[0], false)) && LineOf(Select(line, fs[1], fs[0], false)) == line
  {
    PlainPatterns(Select(line, fs[1], fs[0], false));
    MatchedStep(line, Select(line, fs[1], fs[0], false), fs);
  }

  lemma SelectTokens(fs: seq<string>)
    requires |fs| == 2
    ensures Tokens(SelectPattern, fs) == ["select", fs[0], "from", fs[1]]
  {
    var p := SelectPattern;
    assert p[1..][1..][1..][1..] == [];
  }

  lemma SoundClick(line: string, s: Step)
    requires ParseStep(line) == Ok(s) && NoBackslash(line)
    requires MatchPieces(OpenPattern, line).None? && MatchPieces(EnterPattern, line).None?
    requires MatchPieces(SelectPattern, line).None?
    requires MatchPieces(ClickPattern, line).Some?
    ensures WritableStep(s) && LineOf(s) == line
  {
    var fs := MatchPieces(ClickPattern, line).value;
    ClickSplit(line, fs);
    ClickWritten(line, fs);
    ParseAsClick(line, ["click", fs[0]]);
  }

  /** shlex reads a line matching the click pattern as its keywords and fields. */
  lemma ClickSplit(line: string, fs: seq<string>)
    requires NoBackslash(line) && MatchPieces(ClickPattern, line) == Some(fs)
    ensures |fs| == 1
    ensures Shlex.Split(line) == Ok(["click", fs[0]])
  {
    PatternFieldCounts();
    PatternPlain(ClickPattern);
    MatchTokens(ClickPattern, line);
    ClickTokens(fs);
  }

  /** The step built from the fields of a matching line is written as that line. */
  lemma ClickWritten(line: string, fs: seq<string>)
    requires NoBackslash(line) && MatchPieces(ClickPattern, line) == Some(fs) && |fs| == 1
    ensures WritableStep(Click(line, fs[0], false)) && LineOf(Click(line, fs[0], false)) == line
  {
    PlainPatterns(Click(line, fs[0], false));
    MatchedStep(line, Click(line, fs[0], false), fs);
  }

  lemma ClickTokens(fs: seq<string>)
    requires |fs| == 1
    ensures Tokens(ClickPattern, fs) == ["click", fs[0]]
  {
    var p := ClickPattern;
    assert p[1..][1..] == [];
  }

  lemma SoundAssertString(line: string, s: Step)
    requires ParseStep(line) == Ok(s) && NoBackslash(line)
    requires MatchPieces(OpenPattern, line).None? && MatchPieces(EnterPattern, line).None?
    requires MatchPieces(SelectPattern, line).None? && MatchPieces(ClickPattern, line).None?
    requires MatchPieces(AssertStringPattern, line).Some?
    ensures WritableStep(s) && LineOf(s) == line
  {
    var fs := MatchPieces(AssertStringPattern, line).value;
    AssertStringSplit(line, fs);
    AssertStringWritten(line, fs);
    ParseAsAssertString(line, ["assert", "string", fs[0], "exist"]);
  }

  /** shlex reads a line matching the assert-string pattern as its keywords and fields. */
  lemma AssertStringSplit(line: string, fs: seq<string>)
    requires NoBackslash(line) && MatchPieces(AssertStringPattern, line) == Some(fs)
    ensures |fs| == 1
    ensures Shlex.Split(line) == Ok(["assert", "string", fs[0], "exist"])
  {
    PatternFieldCounts();
    PatternPlain(AssertStringPattern);
    MatchTokens(AssertStringPattern, line);
    AssertStringTokens(fs);
  }

  /** The step built from the fields of a matching line is written as that line. */
  lemma AssertStringWritten(line: string, fs: seq<string>)
    requires NoBackslash(line) && MatchPieces(AssertStringPattern, line) == Some(fs) && |fs| == 1
    ensures WritableStep(AssertString(line, fs[0])) && LineOf(AssertString(line, fs[0])) == line
  {
    PlainPatterns(AssertString(line, fs[0]));
    MatchedStep(line, AssertString(line, fs[0]), fs);
  }

  lemma AssertStringTokens(fs: seq<string>)
    requires |fs| == 1
    ensures Tokens(AssertStringPattern, fs) == ["assert", "string", fs[0], "exist"]
  {
    var p := AssertStringPattern;
    assert p[1..][1..][1..][1..] == [];
  }

  lemma SoundAssertTitle(line: string, s: Step)
    requires ParseStep(line) == Ok(s) && NoBackslash(line)
    requires MatchPieces(OpenPattern, line).None? && MatchPieces(EnterPattern, line).None?
    requires MatchPieces(SelectPattern, line).None? && MatchPieces(ClickPattern, line).None?
    requires MatchPieces(AssertStringPattern, line).None?
    requires MatchPieces(AssertTitlePattern, line).Some?
    ensures WritableStep(s) && LineOf(s) == line
  {
    var fs := MatchPieces(AssertTitlePattern, line).value;
    AssertTitleSplit(line, fs);
    AssertTitleWritten(line, fs);
    ParseAsAssertTitle(line, ["assert", "title", "is", fs[0]]);
  }

  /** shlex reads a line matching the assert-title pattern as its keywords and fields. */
  lemma AssertTitleSplit(line: string, fs: seq<string>)
    requires NoBackslash(line) && MatchPieces(AssertTitlePattern, line) == Some(fs)
    ensures |fs| == 1
    ensures Shlex.Split(line) == Ok(["assert", "title", "is", fs[0]])
  {
    PatternFieldCounts();
    PatternPlain(AssertTitlePattern);
    MatchTokens(AssertTitlePattern, line);
    AssertTitleTokens(fs);
  }

  /** The step built from the fields of a matching line is written as that line. */
  lemma AssertTitleWritten(line: string, fs: seq<string>)
    requires NoBackslash(line) && MatchPieces(AssertTitlePattern, line) == Some(fs) && |fs| == 1
    ensures WritableStep(AssertTitle(line, fs[0])) && LineOf(AssertTitle(line, fs[0])) == line
  {
    PlainPatterns(AssertTitle(line, fs[0]));
    MatchedStep(line, AssertTitle(line, fs[0]), fs);
  }

  lemma AssertTitleTokens(fs: seq<string>)
    requires |fs| == 1
    ensures Tokens(AssertTitlePattern, fs) == ["assert", "title", "is", fs[0]]
  {
    var p := AssertTitlePattern;
    assert p[1..][1..][1..][1..] == [];
  }

  // ---------------------------------------------------------------------------
  // Test cases and suites

  datatype TestCase = TestCase(name: string, steps: seq<Step>, open: Step)

  /**
   * The `TestCase` constructor: it reads `steps[0]` (an `IndexError` on no
   * steps) and exits with status 1 unless that step is an `Open`.
   */
  function NewTestCase(name: string, steps: seq<Step>): (r: Result<TestCase>)
    ensures r.Ok? <==> steps != [] && steps[0].Open?
    ensures r.Ok? ==> r.value.name == name && r.value.steps == steps && r.value.open == steps[0]
    ensures steps == [] ==> r == Err(IndexError)
    ensures steps != [] && !steps[0].Open? ==> r == Err(SystemExit(1))
  {
    if steps == [] then Err(IndexError)
    else if steps[0].Open? then Ok(TestCase(name, steps, steps[0]))
    else Err(SystemExit(1))
  }

  /** The steps of a list of lines, or the error of the first bad line. */
  function ParseSteps(lines: seq<string>): Result<seq<Step>>
  {
    if lines == [] then Ok([])
    else match ParseSteps(lines[..|lines| - 1])
      case Err(e) => Err(e)
      case Ok(steps) =>
        match ParseStep(lines[|lines| - 1])
        case Err(e) => Err(e)
        case Ok(s) => Ok(steps + [s])
  }

  /** The `if not ALL_TESTCASE and name not in TESTCASES: continue` filter. */
  predicate Selected(name: string, cfg: Setting.Config)
  {
    cfg.allTestcase || name in cfg.testcases
  }

  function BuildTestCase(name: string, lines: seq<string>): Result<TestCase>
  {
    match ParseSteps(lines)
    case Err(e) => Err(e)
    case Ok(steps) => NewTestCase(name, steps)
  }

  /** The test cases of a suite (its entries in file order), or the first error. */
  function LoadSuite(suite: seq<(string, seq<string>)>, cfg: Setting.Config): Result<seq<TestCase>>
  {
    if suite == [] then Ok([])
    else
      var (name, lines) := suite[|suite| - 1];
      match LoadSuite(suite[..|suite| - 1], cfg)
      case Err(e) => Err(e)
      case Ok(tcs) =>
        if !Selected(name, cfg) then Ok(tcs)
        else match BuildTestCase(name, lines)
          case Err(e) => Err(e)
          case Ok(tc) => Ok(tcs + [tc])
  }

  /** Once a prefix of the lines fails, the whole list fails with the same error. */
  lemma {:induction false} ParseStepsStopsAtError(lines: seq<string>, k: nat)
    requires k <= |lines| && ParseSteps(lines[..k]).Err?
    ensures ParseSteps(lines) == ParseSteps(lines[..k])
    decreases |lines| - k
  {
    if k < |lines| {
      assert lines[..k + 1][..k] == lines[..k];
      ParseStepsStopsAtError(lines, k + 1);
    } else {
      assert lines[..k] == lines;
    }
  }

  /** Once a prefix of the suite fails, the whole suite fails with the same error. */
  lemma {:induction false} LoadSuiteStopsAtError(suite: seq<(string, seq<string>)>, cfg: Setting.Config, k: nat)
    requires k <= |suite| && LoadSuite(suite[..k], cfg).Err?
    ensures LoadSuite(suite, cfg) == LoadSuite(suite[..k], cfg)
    decreases |suite| - k
  {
    if k < |suite| {
      assert suite[..k + 1][..k] == suite[..k];
      LoadSuiteStopsAtError(suite, cfg, k + 1);
    } else {
      assert suite[..k] == suite;
    }
  }

  /** `TestCaseParser.load_file` after the YAML mapping has been read. */
  method LoadFile(suite: seq<(string, seq<string>)>, cfg: Setting.Config) returns (r: Result<seq<TestCase>>)
    ensures r == LoadSuite(suite, cfg)
  {
    var testCases: seq<TestCase> := [];
    for i := 0 to |suite|
      invariant LoadSuite(suite[..i], cfg) == Ok(testCases)
    {
      assert suite[..i + 1][..i] == suite[..i];
      var (name, rawSteps) := suite[i];
      if !Selected(name, cfg) {
        continue;
      }
      var steps: seq<Step> := [];
      for j := 0 to |rawSteps|
        invariant ParseSteps(rawSteps[..j]) == Ok(steps)
      {
        assert rawSteps[..j + 1][..j] == rawSteps[..j];
        var step := ParseStep(rawSteps[j]);
        if step.Err? {
          assert ParseSteps(rawSteps[..j + 1]) == Err(step.error);
          ParseStepsStopsAtError(rawSteps, j + 1);
          assert rawSteps[..|rawSteps|] == rawSteps;
          assert LoadSuite(suite[..i + 1], cfg) == Err(step.error);
          LoadSuiteStopsAtError(suite, cfg, i + 1);
          r := Err(step.error);
          return;
        }
        steps := steps + [step.value];
      }
      assert rawSteps[..|rawSteps|] == rawSteps;
      var tc := NewTestCase(name, steps);
      if tc.Err? {
        assert LoadSuite(suite[..i + 1], cfg) == Err(tc.error);
        LoadSuiteStopsAtError(suite, cfg, i + 1);
        r := Err(tc.error);
        return;
      }
      testCases := testCases + [tc.value];
    }
    assert suite[..|suite|] == suite;
    r := Ok(testCases);
  }

  /** The selected suite entries, in file order. */
  function SelectedNames(suite: seq<(string, seq<string>)>, cfg: Setting.Config): seq<string>
  {
    if suite == [] then []
    else SelectedNames(suite[..|suite| - 1], cfg)
         + (if Selected(suite[|suite| - 1].0, cfg) then [suite[|suite| - 1].0] else [])
  }

  /**
   * A loaded suite holds one test case per selected entry, in file order, each
   * starting with its `Open` step.
   */
  lemma {:induction false} LoadSuiteSelected(suite: seq<(string, seq<string>)>, cfg: Setting.Config, tcs: seq<TestCase>)
    requires LoadSuite(suite, cfg) == Ok(tcs)
    ensures |tcs| == |SelectedNames(suite, cfg)|
    ensures forall k :: 0 <= k < |tcs| ==> tcs[k].name == SelectedNames(suite, cfg)[k]
    ensures forall k :: 0 <= k < |tcs| ==> tcs[k].steps != [] && tcs[k].steps[0].Open? && tcs[k].open == tcs[k].steps[0]
  {
    if suite != [] {
      var (name, lines) := suite[|suite| - 1];
      var prev := LoadSuite(suite[..|suite| - 1], cfg);
      LoadSuiteSelected(suite[..|suite| - 1], cfg, prev.value);
    }
  }

  /** With every test case selected and every entry well-formed, the suite loads one test case per entry. */
  lemma {:induction false} LoadSuiteAllSelected(suite: seq<(string, seq<string>)>, cfg: Setting.Config)
    requires cfg.allTestcase
    requires forall k :: 0 <= k < |suite| ==> BuildTestCase(suite[k].0, suite[k].1).Ok?
    ensures LoadSuite(suite, cfg).Ok?
    ensures |LoadSuite(suite, cfg).value| == |suite|
  {
    if suite != [] {
      LoadSuiteAllSelected(suite[..|suite| - 1], cfg);
    }
  }
}
