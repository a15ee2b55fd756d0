/** What the Life rule list contains: exactly one rule for every 3-by-3
    neighbourhood whose center changes under Conway's B3/S23 rule, and none for
    the others, all with distinct windows. */
module LifeRules {
  import opened Outcomes
  import opened NdArrays
  import opened Rules
  import opened Universes
  import opened Evolution
  import opened StepFacts
  import opened RuleOrder
  import opened Life
  import opened LifeEnumeration

  /** Conway's rule for a 3-by-3 neighbourhood in row-major order (position 4 is
      the center): a live cell with two or three live neighbours survives, a dead
      cell with exactly three is born, every other cell is dead. */
  function ConwayOutcome(w: seq<int>): int
    requires |w| == 9
  {
    var count := w[0] + w[1] + w[2] + w[3] + w[5] + w[6] + w[7] + w[8];
    if w[4] == 1 then (if count == 2 || count == 3 then 1 else 0)
    else (if count == 3 then 1 else 0)
  }

  /** A rule of the shape the Life list holds: a 0/1 3-by-3 window centered at
      (1, 1) whose center Conway's rule changes, becoming what the rule says. */
  predicate IsLifeRule(r: Rule)
  {
    && r.window.shape == [3, 3] && |r.window.data| == 9 && Binary(r.window.data)
    && r.center == [1, 1]
    && ConwayOutcome(r.window.data) != r.window.data[4]
    && r.becomes == ConwayOutcome(r.window.data)
  }

  /** No two rules of the list have the same window. */
  predicate WindowsDistinct(rules: seq<Rule>)
  {
    forall a, b :: 0 <= a < b < |rules| ==> rules[a].window != rules[b].window
  }

  /** A rule list that is the Life list as far as `apply` can tell. */
  ghost predicate ConwayRules(rules: seq<Rule>)
  {
    (forall r :: r in rules <==> IsLifeRule(r)) && WindowsDistinct(rules)
  }

  lemma {:induction false} Sum9(x: seq<int>)
    requires |x| == 9
    ensures Sum(x) == x[0] + x[1] + x[2] + x[3] + x[4] + x[5] + x[6] + x[7] + x[8]
  {
    assert x[8..][1..] == [];
    assert Sum(x[8..]) == x[8];
    forall k | 0 <= k < 8
      ensures Sum(x[k..]) == x[k] + Sum(x[k + 1..])
    {
      assert x[k..][1..] == x[k + 1..];
    }
    assert x[0..] == x;
  }

  /** The loop body adds a rule for a 0/1 state exactly when Conway's rule
      changes its center, and that rule makes the center what Conway's rule says. */
  lemma LifeRuleExact(state: NdArray)
    requires state.shape == [3, 3] && |state.data| == 9 && Binary(state.data)
    ensures WellFormed(state)
    ensures LifeRule(state).Some? <==> ConwayOutcome(state.data) != state.data[4]
    ensures LifeRule(state).Some? ==> LifeRule(state).value == Rule(state, [1, 1], ConwayOutcome(state.data))
  {
    ProductOfPair(state.shape);
    Sum9(state.data);
    assert At2(state, 1, 1) == state.data[4];
    assert state.data[4] == 0 || state.data[4] == 1;
  }

  /** The rules `AddLifeRules` appends are those of its states that yield one. */
  lemma {:induction false} AddLifeRulesMembers(list: RuleList, states: seq<NdArray>)
    requires forall q :: 0 <= q < |states| ==> states[q].shape == [3, 3] && WellFormed(states[q])
    ensures forall r :: r in AddLifeRules(list, states).rules <==>
              r in list.rules || exists q :: 0 <= q < |states| && LifeRule(states[q]) == Some(r)
    decreases |states|
  {
    if |states| > 0 {
      var next := AddLifeRule(list, states[0]);
      AddLifeRulesMembers(next, states[1..]);
      forall r
        ensures r in AddLifeRules(list, states).rules <==>
                  r in list.rules || exists q :: 0 <= q < |states| && LifeRule(states[q]) == Some(r)
      {
        if exists q :: 0 <= q < |states| && LifeRule(states[q]) == Some(r) {
          var q :| 0 <= q < |states| && LifeRule(states[q]) == Some(r);
          if q > 0 {
            assert LifeRule(states[1..][q - 1]) == Some(r);
          }
        }
        if exists q :: 0 <= q < |states[1..]| && LifeRule(states[1..][q]) == Some(r) {
          var q :| 0 <= q < |states[1..]| && LifeRule(states[1..][q]) == Some(r);
          assert LifeRule(states[q + 1]) == Some(r);
        }
      }
    }
  }

  /** Every rule appended by `AddLifeRules` has a window that is one of its states,
      and distinct states give distinct windows. */
  lemma {:induction false} AddLifeRulesDistinct(list: RuleList, states: seq<NdArray>)
    requires forall q :: 0 <= q < |states| ==> states[q].shape == [3, 3] && WellFormed(states[q])
    requires Distinct(states) && WindowsDistinct(list.rules)
    requires forall a, q :: 0 <= a < |list.rules| && 0 <= q < |states| ==> list.rules[a].window != states[q]
    ensures WindowsDistinct(AddLifeRules(list, states).rules)
    decreases |states|
  {
    if |states| > 0 {
      var next := AddLifeRule(list, states[0]);
      ProductOfPair(states[0].shape);
      assert LifeRule(states[0]).Some? ==> LifeRule(states[0]).value.window == states[0];
      forall a, q | 0 <= a < |next.rules| && 0 <= q < |states[1..]|
        ensures next.rules[a].window != states[1..][q]
      {
        assert states[1..][q] == states[q + 1];
        if a == |list.rules| {
          assert next.rules[a].window == states[0];
        }
      }
      forall a, b | 0 <= a < b < |next.rules|
        ensures next.rules[a].window != next.rules[b].window
      {
        if b == |list.rules| {
          assert next.rules[b].window == states[0];
        }
      }
      AddLifeRulesDistinct(next, states[1..]);
    }
  }

  /** The Life list holds a rule exactly when it is a Life-shaped rule: one per
      0/1 neighbourhood whose center changes, none for those that stay. */
  lemma LifeRuleListMembers()
    ensures forall r :: r in LifeRuleList().rules <==> IsLifeRule(r)
  {
    StatesBinary();
    StatesCoverAll();
    LifeMembersOf(States());
  }

  lemma StatesCoverAll()
    ensures forall x :: |x| == 9 && Binary(x) ==> exists q :: 0 <= q < |States()| && States()[q] == NdArray([3, 3], x)
  {
    forall x | |x| == 9 && Binary(x)
      ensures exists q :: 0 <= q < |States()| && States()[q] == NdArray([3, 3], x)
    {
      StatesCover(x);
    }
  }

  /** The same for any enumeration of every 0/1 3-by-3 array. */
  lemma LifeMembersOf(states: seq<NdArray>)
    requires forall q :: 0 <= q < |states| ==>
               states[q].shape == [3, 3] && |states[q].data| == 9 && Binary(states[q].data)
    requires forall x :: |x| == 9 && Binary(x) ==> exists q :: 0 <= q < |states| && states[q] == NdArray([3, 3], x)
    ensures forall r :: r in AddLifeRules(NewRuleList(None), states).rules <==> IsLifeRule(r)
  {
    forall q | 0 <= q < |states|
      ensures WellFormed(states[q])
    {
      ProductOfPair(states[q].shape);
    }
    AddLifeRulesMembers(NewRuleList(None), states);
    forall r | r in AddLifeRules(NewRuleList(None), states).rules
      ensures IsLifeRule(r)
    {
      var q :| 0 <= q < |states| && LifeRule(states[q]) == Some(r);
      LifeRuleExact(states[q]);
    }
    forall r | IsLifeRule(r)
      ensures r in AddLifeRules(NewRuleList(None), states).rules
    {
      var x := r.window.data;
      var q :| 0 <= q < |states| && states[q] == NdArray([3, 3], x);
      assert states[q] == r.window;
      LifeRuleExact(states[q]);
    }
  }

  /** No window appears twice in the Life list. */
  lemma LifeWindowsDistinct()
    ensures WindowsDistinct(LifeRuleList().rules)
  {
    StatesDistinct();
    AddLifeRulesDistinct(NewRuleList(None), States());
  }

  lemma LifeRuleListIsConway()
    ensures ConwayRules(LifeRuleList().rules)
  {
    LifeRuleListMembers();
    LifeWindowsDistinct();
  }

  /** Every Life rule is one `apply` accepts: a 3-by-3 window, centered at (1, 1). */
  lemma ConwayRulesValid(rules: seq<Rule>)
    requires ConwayRules(rules)
    ensures ValidRules(rules) && RanksAre(rules, 2) && Rank2Rules(rules)
    ensures SharedFrame(rules) && OutcomeByWindow(rules)
  {
    forall r | r in rules
      ensures WellFormedRule(r) && CenterInside(r) && Rank(r.window) == 2
    {
      ProductOfPair(r.window.shape);
    }
  }

  /** The list is not empty, and its windows are all 3 wide and 3 tall. */
  lemma ConwayRulesExtent(rules: seq<Rule>)
    requires ConwayRules(rules)
    ensures |rules| > 0 && ValidRules(rules)
    ensures MaxExtent(rules, 0) == 3 && MaxExtent(rules, 1) == 3
  {
    ConwayRulesValid(rules);
    var born := BirthRule();
    assert born in rules;
    var m0, m1 := MaxExtent(rules, 0), MaxExtent(rules, 1);
    var r0 :| r0 in rules && r0.window.shape[0] == m0;
    var r1 :| r1 in rules && r1.window.shape[1] == m1;
    assert IsLifeRule(r0) && IsLifeRule(r1);
  }

  /** A dead cell whose top row is alive is born. */
  function BirthRule(): (r: Rule)
    ensures IsLifeRule(r)
  {
    var window := [1, 1, 1, 0, 0, 0, 0, 0, 0];
    assert Binary(window) && ConwayOutcome(window) == 1;
    Rule(NdArray([3, 3], window), [1, 1], 1)
  }

  /** Reordering the Life list, or repeating some of its rules, does not change
      `apply`. */
  lemma LifeOrderIrrelevant(u: Universe, list: RuleList)
    requires Valid(u) && SameRules(LifeRuleList().rules, list.rules)
    ensures ValidRules(LifeRuleList().rules) && ValidRules(list.rules)
    ensures Apply(u, LifeRuleList()) == Apply(u, list)
  {
    LifeRuleListIsConway();
    ConwayRulesValid(LifeRuleList().rules);
    ApplyIgnoresOrder(u, LifeRuleList(), list);
  }
}
