# Transition-matching script generator, modelled in Dafny

The generator turns free-text test scenarios into Selenium test scripts.
A scenario line such as `enter "alice" in "user name"` names its target
element in words. The generator resolves every such step to an element of
the page the browser is on, then writes the Python code that drives that
element.

The model covers the path from scenario text to code:

- **Scenario lines.** Each line is tokenised by POSIX `shlex` and classified
  against the seven instruction patterns (`LineGrammar`, `Shlex`,
  `TestCases`). A test case must start with `open`.
- **Step vocabulary.** The step classes, locator hints in targets (`#id`,
  `xpath:`, `link:`) and the code each step renders (`Operation`).
- **Word normalisation** (`WordUtil`). Words are cut at punctuation and camel
  case, lowered, and short words and stop words are dropped.
- **Element extraction** (`Elements`, `ElementContainers`, `PageTags`).
  Invisible elements and elements without words are skipped. Elements are
  grouped by step kind. Locators prefer id, then name, then positional path.
- **IDF document-frequency counting and the similarity blend**
  (`Calculator`).
- **Transition-matching search.**
  - Per step, the most similar elements are kept. Per kind, duplicate-free
    variations are built, scored and sorted (`Ranking`).
  - Per page, the product of the truncated kind lists gives the page
    variations (`PageVariations`).
  - The steps are split into pages at `---` (`PageSplit`).
  - A beam search over pages keeps the best cumulative-score paths in a search
    tree (`SearchTrees`, `BeamSearch`).
  - `to_code` renders the codable steps of each page under the chosen page
    variation (`Variations`, `TransitionMatching`).
- **Locator writer** (`ScriptWriters`). It accumulates one line of element
  paths per test case.

The configuration constants are fields of `Setting.Config`. `Setting.Default`
holds the shipped values. The browser and the word-embedding model are
represented as follows:

- `browse` is a function from the path replayed so far to the page reached.
  It gives the extracted elements and a similarity function.
- The cosine, the logarithm and the label lookup are function parameters.
- Word vectors are an `Embedding` value.

Three facts about the code shape the model:

- `button` is a heuristic stop word (`src/Setting.py:67`). So
  `filter(split("myButton-Submit_1"))` is `["my", "submit"]`
  (`WordUtil.FilterExample`).
- The transition-matching strategy never calls `get_locator` on a step.
  A target such as `#submitBtn` is ranked like free text; no search is
  bypassed. `Operation.Step.GetLocator` models the hint parser itself.
- Dividing a tuple's score only when the sum is non-zero is the plain mean
  (`Ranking.TupleScoreIsMean`), because 0/n = 0.

## Model

| member | source | states |
|---|---|---|
| Seqs.DropLastTwo | src/script/script_writer.py:44 | `s[:-2]`: the result is a prefix of `s`, two characters shorter, or empty when `s` has fewer than two |
| Sorting.SortDescSpec | src/script/strategy/transition_matching_strategy.py:240-242 | the descending sort is sorted non-increasing by key, has the input's length and is a permutation of the input |
| Sorting.SortDescStable | src/script/strategy/transition_matching_strategy.py:279 | the sort is stable: items with equal keys keep their input order |
| Sorting.TopSpec | src/script/strategy/transition_matching_strategy.py:194-195 | the first `n` after the sort: min(n, len) items of the input, sorted, and no item left out has a greater key than a kept one |
| Sorting.SortDescMap | src/script/strategy/transition_matching_strategy.py:194 | sorting states and then reading their scores is sorting the scores, when the map keeps the key |
| Products.ProductMember | src/script/strategy/transition_matching_strategy.py:254 | `itertools.product` holds exactly the tuples that take their i-th item from the i-th list |
| Products.ProductSize | src/script/strategy/transition_matching_strategy.py:227-229 | the product has as many tuples as the list lengths multiplied |
| Operation.Step.GetLocator | src/script/operation.py:62-70 | an empty target is the IndexError of `target[0]`; a `#`, `xpath:` or `link:` prefix gives the locator whose hint is the target; any other target gives None |
| Operation.HintRoundTrip | src/script/operation.py:62-68 | writing an id, xpath or link-text locator as a hint and parsing it gives that locator back |
| Operation.OperationTypeIdentifiesClass | src/script/operation.py:20-40 | each class has its own fixed operation type; the locatable classes are exactly those with ENTER, SELECT or CLICK; locatable implies executable implies codable |
| Operation.LocatableCodeLines | src/script/operation.py:107-116 | `Enter` renders two statements on two lines; `Select` and `Click` render one line |
| Operation.EnterCodeLines | src/script/operation.py:107-116 | the `.clear()` and `.send_keys()` statements of `Enter` are joined by exactly one line break |
| Operation.SelectCodeLines | src/script/operation.py:138-141 | `Select` renders a single line |
| WordUtil.Split | src/util/word_util.py:16-21 | the loop returns the camel-case pieces of each non-empty fragment, in order |
| WordUtil.SplitSpec | src/util/word_util.py:19-20 | the words are non-empty, hold no separator, and concatenate to the input with exactly its separators removed |
| WordUtil.FragmentsSpec | src/util/word_util.py:19 | `re.split` with empty pieces dropped gives non-empty, separator-free fragments that concatenate to the input without its separators |
| WordUtil.CamelCaseSplitPartitions | src/util/word_util.py:28-30 | the camel-case pieces are non-empty and concatenate back to the fragment |
| WordUtil.CamelCaseSplitStarts | src/util/word_util.py:29 | every piece after the first starts with an upper-case letter, so no boundary falls before a digit or a lower-case letter |
| WordUtil.CamelCaseSplitNoUpper | src/util/word_util.py:29 | a fragment with no upper-case letter after its first character is one piece |
| WordUtil.CamelCaseSplitClean | src/util/word_util.py:29 | pieces of a separator-free fragment are separator-free |
| WordUtil.FilterKeeps | src/util/word_util.py:9-14 | every kept word has no ASCII capital letter, is at least two characters long and is not a stop word |
| WordUtil.FilterAppend | src/util/word_util.py:9-14 | filtering a concatenation is the concatenation of the filtered parts |
| WordUtil.FilterSwap | src/util/word_util.py:9-14 | swapping two runs of words before filtering keeps the same kept words, each as often |
| WordUtil.FilterSubsequence | src/util/word_util.py:9-14 | the output is a subsequence of the lowered input: order and duplicates are kept |
| WordUtil.FilterIdempotent | src/util/word_util.py:9-14 | filtering a filtered list changes nothing |
| WordUtil.SplitExample | src/util/word_util.py:16-21 | `split("myButton-Submit_1")` is `["my", "Button", "Submit", "1"]` |
| WordUtil.FilterExample | src/util/word_util.py:9-14 | with the shipped stop words, filtering that split gives `["my", "submit"]` |
| WordUtil.CamelExample | src/util/word_util.py:28-30 | `HTMLParser` splits into `HTML` and `Parser` |
| Elements.Element.GetLocator | src/page/element.py:55-65 | id whenever an id attribute is present (even empty); otherwise name unless the type is radio; otherwise the element's path; never link text |
| Elements.LookupDistinct | src/page/element.py:56-63 | with no attribute key twice, as in the dictionary `attrs`, `attrs[key]` for an attribute's key is that attribute's value |
| Elements.Element.GetXPath | src/page/element.py:67-68 | the path computed at construction, as an XPATH locator |
| Elements.GetXPath | src/page/element.py:70-83 | the loop that collects components leaf to root and reverses them gives the node's path |
| Elements.XPathRoundTrip | src/page/element.py:70-83 | the path starts with `/`; cut at `/` it reads back each level's tag and, when siblings share the tag, the 1-based position |
| Elements.DecimalValue | src/page/element.py:78-79 | the `%d` rendering of a position reads back to the position |
| Elements.NewElement | src/page/element.py:5-13 | the constructor stores node, id and word lists unchanged and starts both vectors empty |
| PageTags.AllTags | src/page/page_manager.py:26-28 | `get_all_tags` is the union of the three kind tag sets plus `input` |
| PageTags.TagsDisjointKinds | src/page/page_manager.py:12-20 | with disjoint tag sets `input` is in no kind's set and every tag is in at most one |
| PageTags.DefaultTagsDisjoint | src/page/page_manager.py:13-19 | the shipped table is disjoint; CLICK is `{button, img, a}`; all tags are those five plus `input` |
| Calculator.DocCountBounds | src/calculator.py:17-25 | a word's document frequency is at most the number of elements, and at least one exactly when some element holds it |
| Calculator.DocCountEverywhere | src/calculator.py:17-23 | a word held by every element has frequency equal to the number of elements |
| Calculator.CountOnce | src/calculator.py:18-22 | the `occur` loop adds one to each distinct word of an element, however often it repeats |
| Calculator.CountDocuments | src/calculator.py:16-22 | the counting loops give each occurring word its document frequency, and count no other word |
| Calculator.CalcIdf | src/calculator.py:14-27 | the IDF map's keys are the occurring words, each weighted log(N/df) |
| Calculator.IdfEverywhereZero | src/calculator.py:25 | a word present in every element weighs log 1 = 0 |
| Calculator.IdfNonIncreasing | src/calculator.py:25 | for a non-decreasing logarithm a more frequent word never weighs more |
| Calculator.WordVector | src/calculator.py:57-63 | outside the vocabulary of a non-FastText model a word is the vector of 0.5s of model dimension; otherwise the model's own vector |
| Calculator.AverageIsUnitWeighted | src/calculator.py:66-78 | the unweighted query average is the weighted average with every weight 1 |
| Calculator.AverageOfSame | src/calculator.py:61-66 | averaging copies of one vector gives that vector whatever the weights |
| Calculator.VectorCalculator.TextVector | src/calculator.py:38-42 | None exactly when the element has no text words; otherwise a vector of the model's dimension |
| Calculator.VectorCalculator.GetWordsVectorWeighted | src/calculator.py:53-66 | the loop collects one vector and one `idf` weight per word and averages them |
| Calculator.VectorCalculator.GetWordsVector | src/calculator.py:68-78 | the same loop without weights |
| Calculator.VectorCalculator.Similarity | src/calculator.py:44-51 | the attribute cosine alone without text words; otherwise a value between the attribute cosine and the text cosine |
| Calculator.BlendBetween | src/calculator.py:49 | with a non-negative text weight the blend lies between the two cosines |
| ElementContainers.ExtractAttrWords | src/page/element_container.py:58-69 | the loop yields the filtered words of the non-excluded, non-empty attributes, then of the text |
| ElementContainers.ExtractTextWords | src/page/element_container.py:71-85 | the loop yields the filtered words of the id's labels, then of the text |
| ElementContainers.SwappedAttributes | src/page/element_container.py:58-69 | the order in which the attributes are visited changes only the order of the attribute words: swapping two neighbouring attributes keeps the same words, each as often |
| ElementContainers.IgnoredAttribute | src/page/element_container.py:60-62 | an excluded or empty-valued attribute contributes nothing, wherever it stands |
| ElementContainers.WordsClean | src/page/element_container.py:69-77 | attribute and text words have no ASCII capital letter, are two or more characters long, and are not stop words |
| ElementContainers.TextWordsWithoutId | src/page/element_container.py:79-85 | without a non-empty id no label is consulted |
| ElementContainers.ExtractedSpec | src/page/element_container.py:24-35 | extraction keeps exactly the visible nodes with attribute words, in node order, each with its raw index as id, so ids strictly increase |
| ElementContainers.InputKind | src/page/element_container.py:52-56 | an input is CLICK exactly when its type is one of radio, checkbox, submit, image or button; otherwise ENTER, also without a type |
| ElementContainers.ElemsOfMember | src/page/element_container.py:43-56 | an element is in a kind's list exactly when its tag or its input type targets that kind |
| ElementContainers.KindsPartition | src/page/element_container.py:49-56 | with disjoint tag sets each element is in at most one kind's list, and every element with a known tag is in one |
| ElementContainers.VectorsKeepKinds | src/page/element_container.py:38-41 | setting the vectors commutes with grouping by kind |
| ElementContainers.ElementContainer.constructor | src/page/element_container.py:14-15 | before `extract_element` runs nothing is stored; the model starts with an empty element list and an empty map of per-kind lists |
| ElementContainers.ElementContainer.GetElemsOf | src/page/element_container.py:21-22 | the kind's list as grouped by `create_elem_dict`, and empty for a kind that is not locatable |
| ElementContainers.ElementContainer.ExtractElement | src/page/element_container.py:24-36 | the elements are rebuilt from scratch from the nodes and regrouped |
| ElementContainers.ElementContainer.CreateElemDict | src/page/element_container.py:43-56 | the elements are unchanged and each kind's list is the elements targeting it, in element order |
| ElementContainers.ElementContainer.AppendVector | src/page/element_container.py:38-41 | every element gets both vectors (no text vector exactly when it has no text words), and every list holds the updated elements |
| ElementContainers.AppendVectorKeepsGrouping | src/page/element_container.py:38-41 | after regrouping, setting the vectors leaves each list equal to the list of the updated elements |
| Ranking.FilterElements | src/script/strategy/transition_matching_strategy.py:270-285 | the loop gives one candidate list per step |
| Ranking.CandidatesOfAt | src/script/strategy/transition_matching_strategy.py:272-284 | step i's list is the first `PAGE_MATCHING_SEARCH` elements of the descending sort by similarity to step i's query |
| Ranking.TopCandidatesSpec | src/script/strategy/transition_matching_strategy.py:279-284 | a list has min(PAGE_MATCHING_SEARCH, len(elems)) elements of the pool, sorted, and no left-out element is more similar than a kept one |
| Ranking.TopCandidatesStable | src/script/strategy/transition_matching_strategy.py:279-284 | ties keep extraction order: the kept elements of one similarity are the first of the pool's elements with it |
| Ranking.ScoreTuple | src/script/strategy/transition_matching_strategy.py:257-263 | the score loop sums the similarities and divides by the step count only when the sum is non-zero |
| Ranking.TupleScoreIsMean | src/script/strategy/transition_matching_strategy.py:257-263 | that score is the mean similarity whenever there are steps, and 0 without steps |
| Ranking.SetSizeDistinct | src/script/strategy/transition_matching_strategy.py:255 | `len(set(t)) < len(t)` holds exactly when `t` repeats an element |
| Ranking.VariationsByType | src/script/strategy/transition_matching_strategy.py:244-268 | the loop over the product gives the variations of the kind |
| Ranking.VariationsFromMember | src/script/strategy/transition_matching_strategy.py:254-264 | each variation comes from a duplicate-free product tuple and carries that tuple's score |
| Ranking.VariationsFromComplete | src/script/strategy/transition_matching_strategy.py:254-264 | every duplicate-free tuple gives a variation |
| Ranking.VariationsOfChoices | src/script/strategy/transition_matching_strategy.py:250-264 | a variation takes its i-th element from step i's candidates, repeats none, has one element per step of the kind, and is scored by its tuple |
| Ranking.VariationsOfComplete | src/script/strategy/transition_matching_strategy.py:250-264 | every duplicate-free pick of candidates is among the variations |
| Ranking.VariationsOfNone | src/script/strategy/transition_matching_strategy.py:265-266 | the list is never empty; it is exactly `[None]` when every pick repeats an element; None appears in no other list |
| Ranking.VariationsOfSorted | src/script/strategy/transition_matching_strategy.py:267-268 | the variations are sorted non-increasing by score |
| Ranking.VariationsOfNoSteps | src/script/strategy/transition_matching_strategy.py:254-268 | without steps of the kind the list is exactly one empty variation scored 0 |
| Ranking.VariationsOfElements | src/script/strategy/transition_matching_strategy.py:250-253 | every chosen element is one of the page's elements of that kind |
| Variations.PageVariation.Get | src/script/strategy/transition_matching_strategy.py:51-52 | `get` returns the variation stored for ENTER, SELECT or CLICK |
| Variations.ComputeScore | src/script/strategy/transition_matching_strategy.py:54-60 | the score is the sum of the three kinds' scores, a kind without a variation adding exactly 0 |
| Variations.ToCode | src/script/strategy/transition_matching_strategy.py:62-75 | the per-kind index loop renders the steps and collects the paths handed to the locator writer |
| Variations.CodeOkIffFits | src/script/strategy/transition_matching_strategy.py:62-75 | rendering fails exactly when a kind has more steps than its variation has elements; otherwise every step gives a line except the locatable steps of a kind without a variation, and every other locatable step gives a path |
| Variations.CodeErrSticks | src/script/strategy/transition_matching_strategy.py:69 | an IndexError on one step ends the whole rendering with it |
| PageVariations.GetPageVariations | src/script/strategy/transition_matching_strategy.py:211-242 | truncation, the product loop and the sort give the page variations |
| PageVariations.Compose | src/script/strategy/transition_matching_strategy.py:226-238 | one page variation per (enter, select, click) tuple, in product order |
| PageVariations.CombineMember | src/script/strategy/transition_matching_strategy.py:226-242 | a page variation is produced exactly when its three kinds are members of the three lists |
| PageVariations.CombineSize | src/script/strategy/transition_matching_strategy.py:226-242 | there are as many page variations as the list lengths multiplied, sorted by score |
| PageVariations.PageVariationsMember | src/script/strategy/transition_matching_strategy.py:216-238 | a page variation is offered exactly when each kind is among the first `SEARCH_WIDTH` variations of its kind |
| PageVariations.KindVariationsBounds | src/script/strategy/transition_matching_strategy.py:216-224 | each truncated kind list holds between 1 and `SEARCH_WIDTH` variations |
| PageVariations.PageVariationsSize | src/script/strategy/transition_matching_strategy.py:216-242 | the page variations number the three lengths multiplied, so between 1 and `SEARCH_WIDTH`³ |
| PageVariations.PageVariationsSorted | src/script/strategy/transition_matching_strategy.py:240-242 | the page variations are sorted non-increasing by score |
| PageSplit.FilterByTypeAndSplit | src/script/strategy/transition_matching_strategy.py:199-209 | the loop gives the pages of the steps, one per transition plus the open one |
| PageSplit.PagesCount | src/script/strategy/transition_matching_strategy.py:199-209 | there is one page per `PageTransition` step, plus one |
| PageSplit.PagesFlatten | src/script/strategy/transition_matching_strategy.py:199-209 | the pages concatenated are the steps of the target class, in order |
| PageSplit.PagesOfClass | src/script/strategy/transition_matching_strategy.py:206-207 | every step of every page is of the target class |
| PageSplit.PagesLineUp | src/script/strategy/transition_matching_strategy.py:143-156 | the locatable and codable splits have the same number of pages, and each locatable page is the codable page's locatable steps |
| SearchTrees.SearchTree.constructor | src/script/strategy/transition_matching_strategy.py:92-96 | a node has its score and page variation and no children |
| SearchTrees.ChildrenOf | src/script/strategy/transition_matching_strategy.py:189-193 | one child per offered page variation: parent score plus its score, parent path plus it |
| SearchTrees.NextFrontierSpec | src/script/strategy/transition_matching_strategy.py:194-195 | the next frontier has at most `BEAM_WIDTH` states of the expansion, sorted by score, none beaten by a dropped state |
| SearchTrees.ExpansionChildren | src/script/strategy/transition_matching_strategy.py:183-193 | every expanded state is a child of a frontier state for a page variation offered to it |
| SearchTrees.ExpansionComplete | src/script/strategy/transition_matching_strategy.py:183-193 | every such child is expanded |
| SearchTrees.ExpansionSize | src/script/strategy/transition_matching_strategy.py:189 | with 1 to `SEARCH_WIDTH` page variations per state, the expansion has between one and `SEARCH_WIDTH` children per frontier state |
| SearchTrees.FinalFrontierReached | src/script/strategy/transition_matching_strategy.py:173-195 | from a non-empty frontier of reached states, the last frontier is non-empty and each of its states holds one feasible page variation per page, scored by its path |
| SearchTrees.FinalFrontierSorted | src/script/strategy/transition_matching_strategy.py:194-195 | after at least one level the frontier is sorted and within `BEAM_WIDTH` |
| SearchTrees.BestPathSpec | src/script/strategy/transition_matching_strategy.py:179-181 | from the root, `candidates[0].path` exists, has one page variation per page, is feasible, and scores at least as much as every path of the last frontier |
| SearchTrees.Expand | src/script/strategy/transition_matching_strategy.py:189-193 | one fresh child node per page variation, appended to the tree's children, and one state per child |
| SearchTrees.AddChild | src/script/strategy/transition_matching_strategy.py:190-193 | the child's score is the parent's plus the page variation's score; it is appended to the children |
| BeamSearch.Search | src/script/strategy/transition_matching_strategy.py:173-195 | `__beam_search`, expanding states in place, gives the best path of the search on values; when the frontier's states have distinct nodes, each node gains one child per page variation offered to it, after its old children |
| BeamSearch.ExpandAll | src/script/strategy/transition_matching_strategy.py:183-193 | the loop over the frontier collects the children of every state in order; each state's node (when no two states share one) keeps its children and gains one per offered page variation, labelled with it and scored with the node's score plus its own |
| BeamSearch.ExpandState | src/script/strategy/transition_matching_strategy.py:184-193 | a state's children are those of the first `SEARCH_WIDTH` page variations of its page, and its node's children become its old children followed by the new ones |
| BeamSearch.SearchStep | src/script/strategy/transition_matching_strategy.py:194-195 | sorting and cutting the states is sorting and cutting their scores and paths |
| BeamSearch.OffersWithinWidth | src/script/strategy/transition_matching_strategy.py:188-189 | each state is offered between 1 and `SEARCH_WIDTH` page variations |
| BeamSearch.SearchFromRoot | src/script/strategy/transition_matching_strategy.py:149 | the search from the root gives a path with one page variation per page, each among the page variations of the page its prefix leads to |
| ScriptWriters.LocatorWriter.constructor | src/script/script_writer.py:36 | the accumulator starts empty |
| ScriptWriters.LocatorWriter.Append | src/script/script_writer.py:39-40 | appends the path's value and `", "`, and nothing else changes |
| ScriptWriters.LocatorWriter.EndTestcaseAsWritten | src/script/script_writer.py:43-45 | drops the last two characters, whatever they are, and adds a newline |
| ScriptWriters.LocatorWriter.EndTestcase | src/script/script_writer.py:43-45 | drops only a trailing separator and adds a newline, leaving a closed line |
| ScriptWriters.LocatorWriter.WriteTestcaseAsWritten | src/script_generator.py:26-27 | one test case as the generator runs it (appends, then `end_testcase` as written): the accumulator is the appended text with its last two characters replaced by a newline, which is exactly the test case's line when at least one step was placed |
| ScriptWriters.LocatorWriter.WriteTestcase | src/script/strategy/transition_matching_strategy.py:72 | with the corrected `end_testcase`, the appends of one test case followed by its end add exactly that test case's line, also when no step was placed |
| ScriptWriters.TestcaseLine | src/script/script_writer.py:39-45 | from any accumulator, appending v1..vn (n ≥ 1) and ending gives the old text plus `v1, …, vn` and a newline, as written and corrected |
| ScriptWriters.RunAsWrittenLines | src/script/script_writer.py:36-45 | as written, the accumulator is one line per test case as long as every test case appended a path |
| ScriptWriters.RunLines | src/script/script_writer.py:36-45 | with the corrected end, the accumulator is one line per test case, for any test cases |
| ScriptWriters.EmptyTestcaseCutsPreviousLine | src/script/script_writer.py:44 | as written, a test case that appends nothing after one that appended `/a` leaves `/\n` instead of `/a\n\n` |
| TransitionMatching.ToCode | src/script/strategy/transition_matching_strategy.py:141-157 | split, search from a fresh root, render the zipped pages handing each path to the writer, and build the method; any error is exit 1 |
| TransitionMatching.WriteLocators | src/script/strategy/transition_matching_strategy.py:72 | the paths of one page reach the writer in order |
| TransitionMatching.KindCountOfClass | src/script/strategy/transition_matching_strategy.py:250 | a kind has as many steps in a codable page as in its locatable steps |
| TransitionMatching.ChosenFits | src/script/strategy/transition_matching_strategy.py:62-75 | a page variation offered for a page has one element per step of each kind it places |
| TransitionMatching.ToCodeSucceeds | src/script/strategy/transition_matching_strategy.py:141-161 | given the pages `browse` yields, `to_code` does not fail in the search or in rendering: the search finds a path and no page runs out of elements |
| TestCases.NewTestCase | src/script/test_case.py:21-29 | a test case exists exactly when the first step is `Open`; no steps is an IndexError, another first step exit 1 |
| TestCases.PatternFieldCounts | src/script/test_case.py:55-66 | the token indices the parser reads are the fields of each pattern |
| TestCases.LineOfMatchesExactly | src/script/test_case.py:55-68 | the line of a writable step matches its own pattern and no other |
| TestCases.TransitionLineOnly | src/script/test_case.py:67-68 | only a page transition is written `---` |
| TestCases.ParseLineOf | src/script/test_case.py:53-71 | parsing the line of a writable step gives that step back: open, enter (target `tokens[3]`, value `tokens[1]`), select, click, both asserts and `---` |
| TestCases.ParseStepSound | src/script/test_case.py:53-71 | whatever the parser accepts is a step of the line's own class built from it; a line without backslashes is exactly that step's line |
| TestCases.LoadFile | src/script/test_case.py:45-73 | the loops give the test cases of the suite, or the first error |
| TestCases.ParseStepsStopsAtError | src/script/test_case.py:53-71 | a bad line (ValueError or shlex error) ends the test case with that error |
| TestCases.LoadSuiteStopsAtError | src/script/test_case.py:49-72 | a failing test case ends the suite with its error |
| TestCases.LoadSuiteSelected | src/script/test_case.py:49-51 | one test case per selected entry, in file order, each starting with its `Open` |
| TestCases.LoadSuiteAllSelected | src/script/test_case.py:49-51 | with `ALL_TESTCASE`, every well-formed entry gives a test case |
| LineGrammar.MatchRender | src/script/test_case.py:55-68 | a line written from a pattern with `[^"]+` fields full-matches it, with those fields |
| LineGrammar.LexRender | src/script/test_case.py:54 | shlex reads such a line as the pattern's words and fields |
| Shlex.LexQuotedField | src/script/test_case.py:54 | a double-quoted field is read as one token without its quotes |
| Shlex.LexWordSpace | src/script/test_case.py:54 | a plain word followed by a space is read as one token |

## Left out

- Browser I/O is left out: Selenium sessions, `open`, replaying a path,
  restarts, `sleep`, and `__execute_page_variation` /
  `__execute_prev_transition`. The page reached after a path is the `browse`
  parameter.
- BeautifulSoup parsing and `get_associated_labels` are left out. Nodes are
  records (tag, attributes, text, ancestor chain), and labels are a lookup
  function.
- The floating-point maths is left out: `numpy.average`, `dot`, `norm` and
  `log` are abstract or function parameters. Real arithmetic is exact, so
  rounding is not modelled.
- `numpy.average` with weights summing to zero raises. `CanWeigh` and
  `Weighable` require non-cancelling weights instead.
- An empty query makes the query vector NaN. The similarity function is
  abstract, so this case is not modelled.
- Gensim model loading is replaced by the `Embedding` value.
- The `print` methods, `to_code`'s traceback printing and the driver
  `quit` are left out. Any error of `to_code` becomes `SystemExit(1)`.
- YAML and file reading in `load_file` are left out. A suite is a list of
  (name, lines) in file order.
- `ScriptWriter.write`, `LocatorWriter.write`, `script_generator.py` and
  the dates and timings are left out.
- `LocatorWriter.__script` is a class attribute shared by every user. It is
  modelled as one object that everything writes to.
- Element vectors are set in place on objects that the per-kind lists share.
  The model rebuilds both the element list and the lists with the updated
  records. `VectorsKeepKinds` shows that the two views agree.
- `WordUtil.Lower`: lowers only `A`-`Z`. Python's `str.lower` lowers every
  cased Unicode letter (`É` becomes `é`) and may lengthen a word (`İ`
  becomes two code points). For words with other capitals the model keeps
  them, so its stop-word test and word identity differ from the program's
  there.
- `WordUtil.FilterKeeps`: "lower-case" means no capital `A`-`Z` is left, as a
  consequence of the `WordUtil.Lower` restriction above.
- `ElementContainers.WordsClean`: states the same ASCII-only notion of
  lower-case as `WordUtil.FilterKeeps`.
- `ElementContainers.ExtractAttrWords`: visits the attributes in one fixed
  order, a sequence of (key, value) pairs. The program visits the set of
  non-excluded keys in an order Python does not fix. Keys come from a
  dictionary, so they are distinct (`Elements.DistinctKeys`); the model does
  not require this, and a repeated key would contribute twice.
  `ElementContainers.SwappedAttributes` shows that the order affects only the
  order of the attribute words, not which words occur or how often, so the
  document-frequency counts do not depend on it.
- `TransitionMatching.ToCodeSucceeds`: covers the search and rendering only.
  Extracting a page and computing its element vectors happen inside
  `browse`. There, `numpy.average` raises `ZeroDivisionError` when an
  element's IDF weights sum to zero (`src/calculator.py:66`), and `to_code`
  then exits with status 1 (`transition_matching_strategy.py:158-161`). The
  model's vector computation requires `Weighable` elements, which excludes
  that case instead of modelling the exit.
- `TestCases.ParseStepSound`: gives a line equal to the step's own line only
  for backslash-free lines. Backslash escapes in fields are lexed but not
  rendered back.
- `SearchTrees.ExpansionSize` and `BeamSearch.OffersWithinWidth`: state the
  width bound for configurations with `SEARCH_WIDTH` and `BEAM_WIDTH` of at
  least 1, which the shipped configuration has.

## Findings

| source | as written | input that shows it | evidently intended | confidence | as-written member | corrected member |
|---|---|---|---|---|---|---|
| src/script/script_writer.py:43-45 | `end_testcase` always drops the last two characters before adding a newline | a test case whose code places no element (only `open` and assertions) after one that wrote the path `/a`: the accumulator `/a\n` becomes `/\n` | drop only the `", "` that `append` left, so every test case leaves its own line | not executed | ScriptWriters.EmptyTestcaseCutsPreviousLine | ScriptWriters.RunLines |
