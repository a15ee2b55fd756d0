/** The inputs of an evolution step: sizes, single rules and ordered rule lists. */
module Rules {
  import opened Outcomes
  import opened NdArrays

  /** The extent of a universe; an absent value stands for an infinite one. */
  datatype Size = Size(size: Option<int>)

  predicate IsInfinite(s: Size)
  {
    s.size.None?
  }

  /** A rule's center as the caller writes it: a bare int (one-dimensional
      windows) or a tuple of coordinates. */
  datatype Center = Scalar(index: int) | Tuple(coords: seq<int>)

  /** `window` is matched against a neighbourhood aligned at `center`; on a match
      the cell becomes `becomes`. */
  datatype Rule = Rule(window: NdArray, center: seq<int>, becomes: int)

  /** The constructor: a bare int center is turned into a one-tuple, and a center
      whose arity differs from the window's rank is rejected. */
  function MakeRule(window: NdArray, center: Center, becomes: int): (r: Result<Rule>)
    ensures center.Scalar? ==> (r.Ok? <==> Rank(window) == 1)
    ensures center.Tuple? ==> (r.Ok? <==> |center.coords| == Rank(window))
    ensures r.Err? ==> r.error == CenterRankMismatch
    ensures r.Ok? ==> r.value.window == window && r.value.becomes == becomes
    ensures r.Ok? ==> |r.value.center| == Rank(window)
    ensures r.Ok? && center.Scalar? ==> r.value.center == [center.index]
    ensures r.Ok? && center.Tuple? ==> r.value.center == center.coords
  {
    var coords := match center
      case Scalar(i) => [i]
      case Tuple(cs) => cs;
    if |coords| != Rank(window) then Err(CenterRankMismatch)
    else Ok(Rule(window, coords, becomes))
  }

  /** What every rule built by `MakeRule` from a numpy array satisfies. */
  predicate WellFormedRule(rule: Rule)
  {
    WellFormed(rule.window) && |rule.center| == Rank(rule.window)
  }

  /** The center indexes a cell of the window.  The constructor does not check
      this; the evolution step needs it. */
  predicate CenterInside(rule: Rule)
  {
    && |rule.center| == Rank(rule.window)
    && forall k :: 0 <= k < |rule.center| ==> 0 <= rule.center[k] < rule.window.shape[k]
  }

  /** An ordered list of rules; the order is the order of `add_rule` calls. */
  datatype RuleList = RuleList(rules: seq<Rule>)

  function NewRuleList(initial: Option<seq<Rule>>): RuleList
  {
    match initial
    case None => RuleList([])
    case Some(rs) => RuleList(rs)
  }

  /** `add_rule`: the new rule goes after all existing ones. */
  function AddRule(list: RuleList, rule: Rule): (r: RuleList)
    ensures |r.rules| == |list.rules| + 1
    ensures r.rules[..|list.rules|] == list.rules
    ensures r.rules[|list.rules|] == rule
  {
    RuleList(list.rules + [rule])
  }

  /** One fresh iteration over the list: every rule, from the first. */
  function Iterate(list: RuleList): seq<Rule>
  {
    list.rules
  }

  /** A sequence of `add_rule` calls, in order. */
  function AddRules(list: RuleList, rules: seq<Rule>): RuleList
    decreases |rules|
  {
    if |rules| == 0 then list
    else AddRules(AddRule(list, rules[0]), rules[1..])
  }

  /** Whatever was added is yielded after what was there, in insertion order. */
  lemma {:induction false} IterateAfterAddRules(list: RuleList, rules: seq<Rule>)
    ensures Iterate(AddRules(list, rules)) == Iterate(list) + rules
    decreases |rules|
  {
    if |rules| > 0 {
      IterateAfterAddRules(AddRule(list, rules[0]), rules[1..]);
      assert Iterate(list) + [rules[0]] + rules[1..] == Iterate(list) + rules;
    }
  }

  /** A list built from nothing by `add_rule` calls yields exactly those rules. */
  lemma BuiltListIteratesInOrder(rules: seq<Rule>)
    ensures Iterate(AddRules(NewRuleList(None), rules)) == rules
  {
    IterateAfterAddRules(NewRuleList(None), rules);
  }
}
