/**
 * The step vocabulary of a scenario. The Python class hierarchy
 * (Step > CodableOperation > ExecutableOperation > LocatableOperation, with
 * one concrete class per instruction) becomes one datatype whose constructors
 * are the concrete classes and whose predicates are the abstract ones.
 */
module Operation {
  import opened Wrappers
  import L = Locators

  datatype Step =
    | Open(rawString: string, value: string)
    | Enter(rawString: string, target: string, value: string, once: bool)
    | Select(rawString: string, target: string, value: string, once: bool)
    | Click(rawString: string, target: string, once: bool)
    | AssertTitle(rawString: string, value: string)
    | AssertString(rawString: string, value: string)
    | PageTransition(rawString: string)
  {
    /** An instance of `CodableOperation`: everything but the page-transition marker. */
    predicate IsCodable()
    {
      !PageTransition?
    }

    /** An instance of `ExecutableOperation`. */
    predicate IsExecutable()
    {
      Open? || Enter? || Select? || Click?
    }

    /** An instance of `LocatableOperation`: the steps that act on a page element. */
    predicate IsLocatable()
    {
      Enter? || Select? || Click?
    }

    /** The `operation_type` property of each class. */
    function OperationType(): L.OperationType
    {
      match this
      case Open(_, _) => L.OperationType.Open
      case Enter(_, _, _, _) => L.OperationType.Enter
      case Select(_, _, _, _) => L.OperationType.Select
      case Click(_, _, _) => L.OperationType.Click
      case AssertTitle(_, _) => L.OperationType.AssertTitle
      case AssertString(_, _) => L.OperationType.AssertString
      case PageTransition(_) => L.OperationType.PageTransition
    }

    /**
     * `LocatableOperation.get_locator`: an explicit locator hint in the target,
     * `None` for free text, and the `IndexError` of `target[0]` on an empty target.
     */
    function GetLocator(): (r: Result<Option<L.Locator>>)
      requires IsLocatable()
      ensures r.Err? <==> target == ""
      ensures r.Ok? && r.value.Some? ==> HintOf(r.value.value) == target
      ensures r == Ok(None) <==> target != "" && !HasHintPrefix(target)
    {
      if target == "" then Err(IndexError)
      else if target[0] == '#' then Ok(Some(L.Locator(L.Id, target[1..])))
      else if |target| >= 6 && target[..6] == "xpath:" then Ok(Some(L.Locator(L.XPath, target[6..])))
      else if |target| >= 5 && target[..5] == "link:" then Ok(Some(L.Locator(L.LinkText, target[5..])))
      else Ok(None)
    }
  }

  /** The target text that names a locator explicitly. */
  function HintOf(loc: L.Locator): string
  {
    match loc.locatorType
    case Id => "#" + loc.value
    case XPath => "xpath:" + loc.value
    case LinkText => "link:" + loc.value
    case Name => loc.value
  }

  predicate HasHintPrefix(t: string)
  {
    (|t| >= 1 && t[0] == '#') || (|t| >= 6 && t[..6] == "xpath:") || (|t| >= 5 && t[..5] == "link:")
  }

  /** Writing a locator as a hint and reading it back gives the locator; `#` wins over the other prefixes. */
  lemma HintRoundTrip(step: Step, loc: L.Locator)
    requires step.IsLocatable() && loc.locatorType != L.Name
    requires step.target == HintOf(loc)
    ensures step.GetLocator() == Ok(Some(loc))
  {
    var t := step.target;
    match loc.locatorType
    case Id =>
    case XPath =>
      assert t[0] == 'x' && t[..6] == "xpath:" && t[6..] == loc.value;
    case LinkText =>
      assert t[0] == 'l' && t[..5] == "link:" && t[5..] == loc.value;
  }

  /** The kind tag tells the step classes apart, and the locatable classes have the locatable kinds. */
  lemma OperationTypeIdentifiesClass(a: Step, b: Step)
    ensures a.OperationType() == b.OperationType() <==>
            (a.Open? && b.Open?) || (a.Enter? && b.Enter?) || (a.Select? && b.Select?)
            || (a.Click? && b.Click?) || (a.AssertTitle? && b.AssertTitle?)
            || (a.AssertString? && b.AssertString?) || (a.PageTransition? && b.PageTransition?)
    ensures a.IsLocatable() <==> a.OperationType().IsLocatable()
    ensures a.IsLocatable() ==> a.IsExecutable() && a.IsCodable()
    ensures a.IsExecutable() ==> a.IsCodable()
    ensures a.OperationType() != L.OperationType.AssertElement
  {
  }

  // ---------------------------------------------------------------------------
  // Rendering

  /** `driver.find_element_by_<type>('<value>')` */
  function Finder(loc: L.Locator): string
  {
    "driver.find_element_by_" + loc.locatorType.Value() + "('" + loc.value + "')"
  }

  /** `to_code(locator)` of the locatable classes. */
  function LocatableCode(step: Step, loc: L.Locator): string
    requires step.IsLocatable()
  {
    match step
    case Enter(_, _, value, _) =>
      Finder(loc) + ".clear()" + "\n    " + Finder(loc) + ".send_keys('" + value + "')"
    case Select(_, _, value, _) =>
      "Select(" + Finder(loc) + ").select_by_visible_text('" + value + "')"
    case Click(_, _, _) =>
      Finder(loc) + ".click()"
  }

  /** `to_code()` of the codable classes that need no locator. */
  function PlainCode(step: Step): string
    requires step.IsCodable() && !step.IsLocatable()
  {
    match step
    case Open(_, value) => "driver.get('" + value + "')"
    case AssertTitle(_, value) =>
      "assert '" + value + "' == driver.title, 'expected title: \"" + value
      + "\", but actual: \"{}\"'.format(driver.title)"
    case AssertString(_, value) =>
      "assert '" + value + "' in driver.page_source, 'string \"" + value + "\" is not exist'"
  }

  function Newlines(s: string): nat
  {
    if s == [] then 0 else Newlines(s[..|s| - 1]) + (if s[|s| - 1] == '\n' then 1 else 0)
  }

  lemma {:induction false} NewlinesAppend(a: string, b: string)
    ensures Newlines(a + b) == Newlines(a) + Newlines(b)
    decreases |b|
  {
    if b == [] {
      assert a + b == a;
    } else {
      assert (a + b)[..|a + b| - 1] == a + b[..|b| - 1];
      NewlinesAppend(a, b[..|b| - 1]);
    }
  }

  lemma {:induction false} NewlinesNone(s: string)
    requires forall i :: 0 <= i < |s| ==> s[i] != '\n'
    ensures Newlines(s) == 0
    decreases |s|
  {
    if s != [] { NewlinesNone(s[..|s| - 1]); }
  }

  /**
   * Only `Enter` renders two statements, one per line: with no line break in
   * the locator value or the step value, its code breaks once and every other
   * class's code stays on one line.
   */
  lemma {:induction false} LocatableCodeLines(step: Step, loc: L.Locator)
    requires step.IsLocatable()
    requires forall i :: 0 <= i < |loc.value| ==> loc.value[i] != '\n'
    requires !step.Click? ==> forall i :: 0 <= i < |step.value| ==> step.value[i] != '\n'
    ensures Newlines(LocatableCode(step, loc)) == if step.Enter? then 1 else 0
  {
    FinderOneLine(loc);
    match step
    case Enter(_, _, value, _) => EnterCodeLines(Finder(loc), value);
    case Select(_, _, value, _) => SelectCodeLines(Finder(loc), value);
    case Click(_, _, _) =>
      NewlinesNone(".click()");
      NewlinesAppend(Finder(loc), ".click()");
  }

  lemma FinderOneLine(loc: L.Locator)
    requires forall i :: 0 <= i < |loc.value| ==> loc.value[i] != '\n'
    ensures Newlines(Finder(loc)) == 0
  {
    NewlinesNone(loc.value);
    NewlinesNone(loc.locatorType.Value());
    NewlinesNone("driver.find_element_by_");
    NewlinesNone("('");
    NewlinesNone("')");
    NewlinesAppend("driver.find_element_by_", loc.locatorType.Value());
    NewlinesAppend("driver.find_element_by_" + loc.locatorType.Value(), "('");
    NewlinesAppend("driver.find_element_by_" + loc.locatorType.Value() + "('", loc.value);
    NewlinesAppend("driver.find_element_by_" + loc.locatorType.Value() + "('" + loc.value, "')");
  }

  lemma EnterCodeLines(f: string, value: string)
    requires Newlines(f) == 0
    requires forall i :: 0 <= i < |value| ==> value[i] != '\n'
    ensures Newlines(f + ".clear()" + "\n    " + f + ".send_keys('" + value + "')") == 1
  {
    NewlinesNone(value);
    NewlinesNone(".clear()");
    NewlinesNone(".send_keys('");
    IndentBreak();
    NewlinesAppend(f, ".clear()");
    NewlinesAppend(f + ".clear()", "\n    ");
    NewlinesAppend(f + ".clear()" + "\n    ", f);
    NewlinesAppend(f + ".clear()" + "\n    " + f, ".send_keys('");
    NewlinesAppend(f + ".clear()" + "\n    " + f + ".send_keys('", value);
    NewlinesAppend(f + ".clear()" + "\n    " + f + ".send_keys('" + value, "')");
  }

  /** The break between `Enter`'s two statements. */
  lemma IndentBreak()
    ensures Newlines("\n    ") == 1
  {
    var s := "\n    ";
    NewlinesNone(s[1..]);
    NewlinesAppend(s[..1], s[1..]);
    assert s[..1] + s[1..] == s;
    assert Newlines(s[..1]) == 1 by { assert s[..1][..0] == []; }
  }

  lemma SelectCodeLines(f: string, value: string)
    requires Newlines(f) == 0
    requires forall i :: 0 <= i < |value| ==> value[i] != '\n'
    ensures Newlines("Select(" + f + ").select_by_visible_text('" + value + "')") == 0
  {
    NewlinesNone(value);
    NewlinesNone("Select(");
    NewlinesNone(").select_by_visible_text('");
    NewlinesNone("')");
    NewlinesAppend("Select(", f);
    NewlinesAppend("Select(" + f, ").select_by_visible_text('");
    NewlinesAppend("Select(" + f + ").select_by_visible_text('", value);
    NewlinesAppend("Select(" + f + ").select_by_visible_text('" + value, "')");
  }
}
