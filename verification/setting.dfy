/**
 * The configuration constants of the generator. The search and ranking
 * operations take a `Config` instead of reading globals; `Default` holds the
 * values the repository ships with.
 */
module Setting {

  datatype Config = Config(
    allTestcase: bool,            // keep every test case of the suite
    testcases: seq<string>,       // names kept when allTestcase is off
    isFastText: bool,             // the embedding family handles unknown words itself
    tagClick: set<string>,        // tags whose elements are click targets
    searchWidth: nat,             // page variations kept per kind and per state
    beamWidth: nat,               // states kept per depth
    pageMatchingSearch: nat,      // candidates kept per step
    textWeight: real,             // weight of the text cosine against the attribute cosine
    exceptAttrs: set<string>,     // attributes that contribute no words
    stopWords: set<string>,
    heuristicStopWords: set<string>)
  {
    /** The widths are at least one and the text weight is not negative. */
    predicate Valid()
    {
      searchWidth >= 1 && beamWidth >= 1 && textWeight >= 0.0
    }

    /** `STOP_WORDS | HEURISTIC_STOP_WORDS` */
    function AllStopWords(): set<string>
    {
      stopWords + heuristicStopWords
    }
  }

  const Default := Config(
    false,
    ["create_custom_fields"],
    true,
    {"button", "img", "a"},
    5,
    5,
    10,
    3.0,
    {"class", "autocorrect", "spellcheck", "tabindex", "style", "pattern", "aria-hidden",
     "maxlength", "minlength", "max", "min", "height", "width", "size", "step"},
    {"for", "the", "do", "did", "does", "this", "to", "of", "with", "and", "or",
     "have", "has", "as", "is"},
    {"button", "btn", "link", "form", "svg", "www", "https", "http", "com", "js",
     "css", "true", "false", "checked"})
}
