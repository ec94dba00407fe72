/**
 * `LocatorWriter`: one line of element paths per test case, the paths of a
 * test case separated by ", ". `append` adds a path and the separator;
 * `end_testcase` takes the trailing separator back off and ends the line.
 */
module ScriptWriters {
  import opened Seqs
  import L = Locators

  const Separator: string := ", "

  /** The values of `locs`, in order. */
  function Values(locs: seq<L.Locator>): (r: seq<string>)
    ensures |r| == |locs|
    ensures forall i :: 0 <= i < |locs| ==> r[i] == locs[i].value
  {
    if locs == [] then [] else Values(locs[..|locs| - 1]) + [locs[|locs| - 1].value]
  }

  /** The accumulator after `append` was called on each of `locs`, starting from `s`. */
  function Appended(s: string, locs: seq<L.Locator>): string
  {
    if locs == [] then s else Appended(s, locs[..|locs| - 1]) + locs[|locs| - 1].value + Separator
  }

  /** The line a test case should leave: its paths joined by the separator, then a newline. */
  function Line(locs: seq<L.Locator>): string
  {
    Join(Values(locs), Separator) + "\n"
  }

  /** The lines of several test cases, one after the other. */
  function Lines(cases: seq<seq<L.Locator>>): string
  {
    if cases == [] then "" else Lines(cases[..|cases| - 1]) + Line(cases[|cases| - 1])
  }

  /** The accumulator is between test cases: empty, or its last line ended. */
  predicate Closed(s: string)
  {
    s == "" || s[|s| - 1] == '\n'
  }

  predicate EndsWithSeparator(s: string)
  {
    |s| >= 2 && s[|s| - 2..] == Separator
  }

  /** `end_testcase` as written: the last two characters go, whatever they are. */
  function EndAsWritten(s: string): string
  {
    DropLastTwo(s) + "\n"
  }

  /** `end_testcase` taking off only a separator `append` left behind. */
  function End(s: string): (r: string)
    ensures Closed(r)
  {
    (if EndsWithSeparator(s) then s[..|s| - 2] else s) + "\n"
  }

  /** The accumulator after a run of test cases, each ended by `end_testcase` as written. */
  function RunAsWritten(cases: seq<seq<L.Locator>>): string
  {
    if cases == [] then "" else EndAsWritten(Appended(RunAsWritten(cases[..|cases| - 1]), cases[|cases| - 1]))
  }

  /** The accumulator after a run of test cases, each ended by the corrected `End`. */
  function Run(cases: seq<seq<L.Locator>>): string
  {
    if cases == [] then "" else End(Appended(Run(cases[..|cases| - 1]), cases[|cases| - 1]))
  }

  /** After at least one `append`, the accumulator holds the joined paths and one trailing separator. */
  lemma {:induction false} AppendedJoin(s: string, locs: seq<L.Locator>)
    requires |locs| >= 1
    ensures Appended(s, locs) == s + Join(Values(locs), Separator) + Separator
  {
    var n := |locs| - 1;
    var parts := Values(locs);
    assert parts[..n] == Values(locs[..n]);
    if n > 0 {
      AppendedJoin(s, locs[..n]);
      assert Join(parts, Separator) == Join(Values(locs[..n]), Separator) + Separator + locs[n].value;
    } else {
      assert locs[..n] == [];
      assert Join(parts, Separator) == locs[0].value;
    }
  }

  /**
   * From any accumulator `s`, appending the paths of a test case that has at
   * least one and then ending it adds exactly that test case's line, with
   * `end_testcase` as written and with the corrected one.
   */
  lemma TestcaseLine(s: string, locs: seq<L.Locator>)
    requires |locs| >= 1
    ensures EndAsWritten(Appended(s, locs)) == s + Line(locs)
    ensures End(Appended(s, locs)) == s + Line(locs)
  {
    AppendedJoin(s, locs);
    DropSeparator(s + Join(Values(locs), Separator));
  }

  /** Both ends take back exactly the separator an `append` left. */
  lemma DropSeparator(t: string)
    ensures EndsWithSeparator(t + Separator)
    ensures (t + Separator)[..|t|] == t
    ensures DropLastTwo(t + Separator) == t
  {
    assert (t + Separator)[|t|..] == Separator;
  }

  /** Ending a test case that appended nothing adds an empty line and keeps every earlier one. */
  lemma EndEmptyTestcase(s: string)
    requires Closed(s)
    ensures End(Appended(s, [])) == s + Line([])
  {
  }

  /** Appending two runs of paths one after the other is appending them together. */
  lemma {:induction false} AppendedConcat(s: string, a: seq<L.Locator>, b: seq<L.Locator>)
    ensures Appended(s, a + b) == Appended(Appended(s, a), b)
  {
    if b == [] {
      assert a + b == a;
    } else {
      var n := |b| - 1;
      assert (a + b)[..|a + b| - 1] == a + b[..n];
      AppendedConcat(s, a, b[..n]);
    }
  }

  /** The lines are empty or end with a newline. */
  lemma LinesClosed(cases: seq<seq<L.Locator>>)
    ensures Closed(Lines(cases))
  {
  }

  /** With the corrected `End`, the accumulator holds one line per test case, whatever the test cases. */
  lemma {:induction false} RunLines(cases: seq<seq<L.Locator>>)
    ensures Run(cases) == Lines(cases)
  {
    if cases != [] {
      var init := cases[..|cases| - 1];
      var last := cases[|cases| - 1];
      RunLines(init);
      LinesClosed(init);
      if last == [] {
        EndEmptyTestcase(Lines(init));
      } else {
        TestcaseLine(Lines(init), last);
      }
    }
  }

  /** As written, the accumulator holds one line per test case as long as every test case appended a path. */
  lemma {:induction false} RunAsWrittenLines(cases: seq<seq<L.Locator>>)
    requires forall i :: 0 <= i < |cases| ==> |cases[i]| >= 1
    ensures RunAsWritten(cases) == Lines(cases)
  {
    if cases != [] {
      var init := cases[..|cases| - 1];
      RunAsWrittenLines(init);
      TestcaseLine(Lines(init), cases[|cases| - 1]);
    }
  }

  /**
   * A test case that appends nothing after one that did: as written,
   * `end_testcase` cuts the last path of the previous line short and merges
   * the two lines, where one line per test case was meant.
   */
  lemma EmptyTestcaseCutsPreviousLine()
    ensures var cases := [[L.Locator(L.LocatorType.XPath, "/a")], []];
      RunAsWritten(cases) == "/\n" && Lines(cases) == "/a\n\n"
  {
    var loc := L.Locator(L.LocatorType.XPath, "/a");
    var cases := [[loc], []];
    assert cases[..1] == [[loc]];
    assert [[loc]][..0] == [];
    assert [loc][..0] == [];
    assert Values([loc]) == ["/a"];
    assert Line([loc]) == "/a\n";
    TestcaseLine("", [loc]);
    assert RunAsWritten([[loc]]) == "/a\n";
    assert Lines([[loc]]) == "/a\n";
    assert DropLastTwo("/a\n") == "/";
  }

  /**
   * The accumulator. `__script` is a class attribute in the source, so one
   * object of this class stands for all of them.
   */
  class LocatorWriter {
    var script: string

    constructor()
      ensures script == ""
    {
      script := "";
    }

    /** `append`: the path's value and the separator, and nothing else changes. */
    method Append(loc: L.Locator)
      modifies this
      ensures script == old(script) + loc.value + Separator
    {
      script := script + loc.value + Separator;
    }

    /** `end_testcase` as written: drops two characters and ends the line. */
    method EndTestcaseAsWritten()
      modifies this
      ensures script == EndAsWritten(old(script))
      ensures |old(script)| >= 2 ==> script == old(script)[..|old(script)| - 2] + "\n"
    {
      script := DropLastTwo(script);
      script := script + "\n";
    }

    /** `end_testcase`, corrected: drops the separator `append` left, if there is one, and ends the line. */
    method EndTestcase()
      modifies this
      ensures script == End(old(script))
      ensures Closed(script)
    {
      if EndsWithSeparator(script) {
        script := script[..|script| - 2];
      }
      script := script + "\n";
    }

    /**
     * What one test case does to the writer as the generator runs it:
     * `to_code` appends the path of each placed step, then `end_testcase`, as
     * written, drops the last two characters. When at least one step was
     * placed, the accumulator gains exactly that test case's line.
     */
    method WriteTestcaseAsWritten(locs: seq<L.Locator>)
      modifies this
      ensures script == EndAsWritten(Appended(old(script), locs))
      ensures locs != [] ==> script == old(script) + Line(locs)
    {
      ghost var start := script;
      for i := 0 to |locs|
        invariant script == Appended(start, locs[..i])
      {
        assert locs[..i + 1][..i] == locs[..i];
        Append(locs[i]);
      }
      assert locs[..|locs|] == locs;
      if locs != [] {
        TestcaseLine(start, locs);
      }
      EndTestcaseAsWritten();
    }

    /**
     * The same test case with the corrected `end_testcase`: the accumulator
     * gains exactly that test case's line, with or without placed steps.
     */
    method WriteTestcase(locs: seq<L.Locator>)
      requires Closed(script)
      modifies this
      ensures script == old(script) + Line(locs)
    {
      ghost var start := script;
      for i := 0 to |locs|
        invariant script == Appended(start, locs[..i])
      {
        assert locs[..i + 1][..i] == locs[..i];
        Append(locs[i]);
      }
      assert locs[..|locs|] == locs;
      if locs == [] {
        EndEmptyTestcase(start);
      } else {
        TestcaseLine(start, locs);
      }
      EndTestcase();
    }
  }
}
