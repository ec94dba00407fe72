/** The tag table: which HTML tags each kind of locatable step can act on. */
module PageTags {
  import opened Locators
  import opened Setting

  /** `Tags.get_target_tags`: only the three locatable kinds have an entry. */
  function TargetTags(t: OperationType, cfg: Config): set<string>
    requires t.IsLocatable()
  {
    match t
    case Enter => {"textarea"}
    case Select => {"select"}
    case Click => cfg.tagClick
  }

  /** `Tags.get_all_tags`: the union of the three sets, plus `input`. */
  function AllTags(cfg: Config): (r: set<string>)
    ensures forall tag :: tag in r <==>
      tag == "input" || exists t: OperationType :: t.IsLocatable() && tag in TargetTags(t, cfg)
  {
    assert Enter.IsLocatable() && Select.IsLocatable() && Click.IsLocatable();
    {"textarea"} + {"select"} + cfg.tagClick + {"input"}
  }

  /** The click tags share nothing with the other kinds' tags and leave out `input`. */
  predicate TagsDisjoint(cfg: Config)
  {
    "textarea" !in cfg.tagClick && "select" !in cfg.tagClick && "input" !in cfg.tagClick
  }

  /** With disjoint tag sets `input` has no kind by tag and every other tag at most one. */
  lemma TagsDisjointKinds(cfg: Config)
    requires TagsDisjoint(cfg)
    ensures forall t: OperationType :: t.IsLocatable() ==> "input" !in TargetTags(t, cfg)
    ensures forall t1: OperationType, t2: OperationType, tag ::
      t1.IsLocatable() && t2.IsLocatable() && tag in TargetTags(t1, cfg) && tag in TargetTags(t2, cfg) ==> t1 == t2
  {
    forall t1: OperationType, t2: OperationType, tag |
      t1.IsLocatable() && t2.IsLocatable() && tag in TargetTags(t1, cfg) && tag in TargetTags(t2, cfg)
      ensures t1 == t2
    {
      if t1 == Click || t2 == Click {
        assert tag in cfg.tagClick;
      }
    }
  }

  /** The shipped configuration has disjoint tag sets. */
  lemma DefaultTagsDisjoint()
    ensures TagsDisjoint(Default)
    ensures TargetTags(Click, Default) == {"button", "img", "a"}
    ensures AllTags(Default) == {"textarea", "select", "button", "img", "a", "input"}
  {
  }
}
