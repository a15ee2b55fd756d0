/** `Simulator`: a universe and the rule list that evolves it. */
module Simulators {
  import opened Outcomes
  import opened Rules
  import opened Universes
  import opened Evolution

  datatype Simulator = Simulator(universe: Universe, rules: RuleList)

  predicate Ready(s: Simulator)
  {
    Valid(s.universe) && ValidRules(s.rules.rules)
  }

  /** `step(num_steps)`: `apply` that many times; no steps for a count of zero or
      less.  A step that raises ends the loop, and the universe keeps the state of
      the last step that succeeded. */
  function Step(s: Simulator, numSteps: int): (o: Outcome<Simulator>)
    requires Ready(s)
    ensures Ready(o.after) && o.after.rules == s.rules
    ensures o.after.universe.n == s.universe.n
    ensures Dimensions(o.after.universe) == Dimensions(s.universe)
    ensures o.raised.Some? ==> o.raised.value in {RuleRankMismatch, NoRules, PadShapeMismatch, ColumnOutOfBounds}
    decreases numSteps
  {
    if numSteps <= 0 then Outcome(s, None)
    else
      match Apply(s.universe, s.rules)
      case Err(e) => Outcome(s, Some(e))
      case Ok(v) => Step(Simulator(v, s.rules), numSteps - 1)
  }

  /** Zero or a negative number of steps changes nothing. */
  lemma StepNothing(s: Simulator, numSteps: int)
    requires Ready(s) && numSteps <= 0
    ensures Step(s, numSteps) == Outcome(s, None)
  {
  }

  /** One step is one `apply`. */
  lemma StepOnce(s: Simulator)
    requires Ready(s)
    ensures Apply(s.universe, s.rules).Ok? ==>
              Step(s, 1) == Outcome(Simulator(Apply(s.universe, s.rules).value, s.rules), None)
    ensures Apply(s.universe, s.rules).Err? ==>
              Step(s, 1) == Outcome(s, Some(Apply(s.universe, s.rules).error))
  {
  }

  /** A positive step count is one `apply` that succeeded, then one step fewer. */
  lemma StepUnfold(s: Simulator, numSteps: int)
    requires Ready(s) && numSteps > 0 && Apply(s.universe, s.rules).Ok?
    ensures Step(s, numSteps) == Step(Simulator(Apply(s.universe, s.rules).value, s.rules), numSteps - 1)
  {
  }

  /** The first `apply` of a positive run either raises, which ends both runs
      alike, or leaves both runs to continue from the same simulator. */
  lemma StepFirst(s: Simulator, a: nat, b: nat) returns (halted: bool, t: Simulator)
    requires Ready(s) && a > 0
    ensures halted ==> Step(s, a).raised.Some? && Step(s, a + b) == Step(s, a)
    ensures !halted ==> Ready(t) && Step(s, a) == Step(t, a - 1) && Step(s, a + b) == Step(t, a - 1 + b)
  {
    var r := Apply(s.universe, s.rules);
    halted := r.Err?;
    t := s;
    if r.Ok? {
      t := Simulator(r.value, s.rules);
      StepUnfold(s, a);
      StepUnfold(s, a + b);
    }
  }

  /** Stepping a + b times is stepping a times and then b more, unless the first
      a steps already raised. */
  lemma {:induction false} StepComposes(s: Simulator, a: nat, b: nat)
    requires Ready(s)
    ensures Step(s, a).raised.None? ==> Step(s, a + b) == Step(Step(s, a).after, b)
    ensures Step(s, a).raised.Some? ==> Step(s, a + b) == Step(s, a)
    decreases a
  {
    if a == 0 {
      assert Step(s, a) == Outcome(s, None);
    } else {
      var halted, t := StepFirst(s, a, b);
      if !halted {
        StepComposes(t, a - 1, b);
        ComposesThrough(s, t, a, b);
      }
    }
  }

  /** The composition law carries over from the simulator after the first step. */
  lemma ComposesThrough(s: Simulator, t: Simulator, a: nat, b: nat)
    requires Ready(s) && Ready(t) && a > 0
    requires Step(s, a) == Step(t, a - 1) && Step(s, a + b) == Step(t, a - 1 + b)
    requires Step(t, a - 1).raised.None? ==> Step(t, a - 1 + b) == Step(Step(t, a - 1).after, b)
    requires Step(t, a - 1).raised.Some? ==> Step(t, a - 1 + b) == Step(t, a - 1)
    ensures Step(s, a).raised.None? ==> Step(s, a + b) == Step(Step(s, a).after, b)
    ensures Step(s, a).raised.Some? ==> Step(s, a + b) == Step(s, a)
  {
  }

  /** A rule list `apply` rejects before looking at the cells (wrong rank, or
      empty) makes every positive step count raise at once, leaving the universe
      as it was. */
  lemma StepRejectsBadRules(s: Simulator, numSteps: int)
    requires Ready(s) && numSteps > 0
    requires !RanksAre(s.rules.rules, Dimensions(s.universe)) || |s.rules.rules| == 0
    ensures Step(s, numSteps).after == s
    ensures Step(s, numSteps).raised.Some?
  {
  }
}
