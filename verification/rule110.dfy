/** The `rule_110_sim` demonstration: three one-dimensional rules that, with
    every other neighbourhood keeping its center, are Wolfram's elementary
    cellular automaton 110 on a line surrounded by dead cells. */
module Rule110 {
  import opened Outcomes
  import opened NdArrays
  import opened Rules
  import opened Universes
  import opened Evolution
  import opened StepFacts
  import opened RuleOrder
  import opened Simulators

  /** The three rules, in the order they are added: 001 -> 1, 101 -> 1, 111 -> 0,
      each with the bare center 1. */
  function Rule110Rules(): seq<Rule>
  {
    [ MakeRule(NdArray([3], [0, 0, 1]), Scalar(1), 1).value,
      MakeRule(NdArray([3], [1, 0, 1]), Scalar(1), 1).value,
      MakeRule(NdArray([3], [1, 1, 1]), Scalar(1), 0).value ]
  }

  function Rule110List(): RuleList
  {
    AddRules(NewRuleList(None), Rule110Rules())
  }

  /** Wolfram's numbering: the new cell for neighbourhood (l, c, r) is bit
      4l + 2c + r of the rule number. */
  function Wolfram(code: nat, l: int, c: int, r: int): (b: int)
    requires 0 <= l <= 1 && 0 <= c <= 1 && 0 <= r <= 1
    ensures b == 0 || b == 1
  {
    Bit(code, 4 * l + 2 * c + r)
  }

  /** Bit `k` of `code`, counting from the least significant. */
  function Bit(code: nat, k: nat): (b: int)
    ensures b == 0 || b == 1
  {
    if k == 0 then code % 2 else Bit(code / 2, k - 1)
  }

  /** One generation of the elementary automaton `code` on a line with dead cells
      beyond both ends. */
  function ElementaryStep(code: nat, cells: seq<int>): (next: seq<int>)
    requires Binary(cells)
    ensures |next| == |cells| && Binary(next)
  {
    seq(|cells|, i => NextCell(code, cells, i))
  }

  /** The new state of cell `i`: the rule's bit for its neighbourhood. */
  function NextCell(code: nat, cells: seq<int>, i: int): (b: int)
    requires Binary(cells)
    ensures b == 0 || b == 1
  {
    Wolfram(code, Dead1(cells, i - 1), Dead1(cells, i), Dead1(cells, i + 1))
  }

  function ElementaryGenerations(code: nat, cells: seq<int>, k: nat): (last: seq<int>)
    requires Binary(cells)
    ensures |last| == |cells|
    decreases k
  {
    if k == 0 then cells
    else
      var next := ElementaryStep(code, cells);
      ElementaryGenerations(code, next, k - 1)
  }

  /** The rules as the constructor stores them: windows of length 3, the bare
      center 1 turned into the one-tuple (1,). */
  function Rule110Table(): seq<Rule>
  {
    [ Rule(NdArray([3], [0, 0, 1]), [1], 1),
      Rule(NdArray([3], [1, 0, 1]), [1], 1),
      Rule(NdArray([3], [1, 1, 1]), [1], 0) ]
  }

  /** Every rule is accepted by the constructor, which stores its window and
      outcome and turns the bare center 1 into (1,); the list yields them in the
      order they were added. */
  lemma Rule110RulesBuilt()
    ensures MakeRule(NdArray([3], [0, 0, 1]), Scalar(1), 1).Ok?
    ensures MakeRule(NdArray([3], [1, 0, 1]), Scalar(1), 1).Ok?
    ensures MakeRule(NdArray([3], [1, 1, 1]), Scalar(1), 0).Ok?
    ensures Rule110Rules() == Rule110Table()
    ensures Iterate(Rule110List()) == Rule110Table()
    ensures ValidRules(Rule110Table()) && RanksAre(Rule110Table(), 1) && Rank1Rules(Rule110Table())
  {
    BuiltListIteratesInOrder(Rule110Rules());
    TableValid();
  }

  lemma TableValid()
    ensures ValidRules(Rule110Table()) && RanksAre(Rule110Table(), 1) && Rank1Rules(Rule110Table())
  {
    forall r | r in Rule110Table()
      ensures WellFormedRule(r) && CenterInside(r) && Rank(r.window) == 1
    {
      ProductOfSingle(r.window.shape);
    }
  }

  /** The three windows are different, so at most one rule matches a cell and
      the order of the list does not matter. */
  lemma Rule110OrderIrrelevant(u: Universe, list: RuleList)
    requires Valid(u) && SameRules(Rule110Table(), list.rules)
    ensures ValidRules(Rule110List().rules) && ValidRules(list.rules)
    ensures Apply(u, Rule110List()) == Apply(u, list)
  {
    Rule110RulesBuilt();
    TableFrame(Rule110Table());
    ApplyIgnoresOrder(u, Rule110List(), list);
  }

  /** The three windows share shape and center and are pairwise different. */
  lemma TableFrame(rules: seq<Rule>)
    requires rules == Rule110Table()
    ensures SharedFrame(rules) && OutcomeByWindow(rules)
  {
    assert forall r :: r in rules ==> r == rules[0] || r == rules[1] || r == rules[2];
  }

  /** A window of length 3 centered at 1 matches cell i exactly when it spells
      the cells i - 1, i and i + 1. */
  lemma MatchesThree(rule: Rule, cells: seq<int>, i: int)
    requires rule.window.shape == [3] && |rule.window.data| == 3 && rule.center == [1]
    ensures WellFormedRule(rule) && Rank(rule.window) == 1
    ensures MatchesDead1(rule, cells, i) <==>
              rule.window.data == [Dead1(cells, i - 1), Dead1(cells, i), Dead1(cells, i + 1)]
  {
    ProductOfSingle(rule.window.shape);
    if MatchesDead1(rule, cells, i) {
      assert rule.window.data[0] == Dead1(cells, i - 1 + 0);
      assert rule.window.data[1] == Dead1(cells, i - 1 + 1);
      assert rule.window.data[2] == Dead1(cells, i - 1 + 2);
    }
  }

  /** What the three rules do to a neighbourhood (l, c, r): the outcome of the
      first window equal to it, or the center when none is. */
  function TableOutcome(l: int, c: int, r: int): int
  {
    if l == 0 && c == 0 && r == 1 then 1
    else if l == 1 && c == 0 && r == 1 then 1
    else if l == 1 && c == 1 && r == 1 then 0
    else c
  }

  /** On 0/1 neighbourhoods the table is Wolfram's rule 110: 111 -> 0, 110 -> 1,
      101 -> 1, 100 -> 0, 011 -> 1, 010 -> 1, 001 -> 1, 000 -> 0. */
  lemma TableIsWolfram110(l: int, c: int, r: int)
    requires 0 <= l <= 1 && 0 <= c <= 1 && 0 <= r <= 1
    ensures TableOutcome(l, c, r) == Wolfram(110, l, c, r)
  {
    Bits110(4 * l + 2 * c + r);
  }

  /** 110 is 01101110 in binary: bits 0, 4 and 7 are clear. */
  lemma Bits110(k: nat)
    requires k < 8
    ensures Bit(110, k) == if k == 0 || k == 4 || k == 7 then 0 else 1
  {
    if k == 0 {} else if k == 1 {} else if k == 2 {} else if k == 3 {}
    else if k == 4 {} else if k == 5 {} else if k == 6 {} else {}
  }

  /** Cell i after one `apply` of the three rules follows the table. */
  lemma Rule110Cell(u: Universe, list: RuleList, i: int)
    requires Valid(u) && u.grid.Line? && 0 <= i < u.n
    requires list.rules == Rule110Table()
    ensures ValidRules(list.rules)
    ensures Apply(u, list).Ok? && Apply(u, list).value.grid.Line?
    ensures var cells := u.grid.cells;
            Apply(u, list).value.grid.cells[i] ==
              TableOutcome(Dead1(cells, i - 1), Dead1(cells, i), Dead1(cells, i + 1))
  {
    TableValid();
    ApplyLine(u, list, i);
    TableScan(u.grid.cells, i);
  }

  /** Which of the three rules is the first to match cell i, if any. */
  lemma TableScan(cells: seq<int>, i: int)
    ensures Rank1Rules(Rule110Table())
    ensures var rules, l, c, r := Rule110Table(), Dead1(cells, i - 1), Dead1(cells, i), Dead1(cells, i + 1);
            && (l == 0 && c == 0 && r == 1 ==> FirstMatch1(rules, cells, i, 0))
            && (l == 1 && c == 0 && r == 1 ==> FirstMatch1(rules, cells, i, 1))
            && (l == 1 && c == 1 && r == 1 ==> FirstMatch1(rules, cells, i, 2))
            && (TableOutcome(l, c, r) == c && !(l == 1 && c == 1 && r == 1) ==> NoMatch1(rules, cells, i))
  {
    TableValid();
    var rules := Rule110Table();
    MatchesThree(rules[0], cells, i);
    MatchesThree(rules[1], cells, i);
    MatchesThree(rules[2], cells, i);
  }

  /** The demonstration's rule list computes Wolfram's rule 110: on a 0/1 line,
      `apply` is one generation of the elementary automaton 110. */
  lemma Rule110IsWolfram(u: Universe)
    requires Valid(u) && u.grid.Line? && BinaryCells(u)
    ensures ValidRules(Rule110List().rules)
    ensures Apply(u, Rule110List()) == Ok(Universe(u.n, Line(ElementaryStep(110, u.grid.cells))))
  {
    Rule110RulesBuilt();
    TableListIsWolfram(u, Rule110List());
  }

  lemma TableListIsWolfram(u: Universe, list: RuleList)
    requires Valid(u) && u.grid.Line? && BinaryCells(u) && list.rules == Rule110Table()
    ensures ValidRules(list.rules)
    ensures Apply(u, list) == Ok(Universe(u.n, Line(ElementaryStep(110, u.grid.cells))))
  {
    TableValid();
    ApplyLineIsStep1(u, list);
    var next := Apply(u, list).value.grid.cells;
    var expected := ElementaryStep(110, u.grid.cells);
    forall i | 0 <= i < u.n
      ensures next[i] == expected[i]
    {
      CellIsWolfram(u, list, i);
    }
    assert next == expected;
  }

  lemma CellIsWolfram(u: Universe, list: RuleList, i: int)
    requires Valid(u) && u.grid.Line? && BinaryCells(u) && list.rules == Rule110Table()
    requires 0 <= i < u.n
    ensures ValidRules(list.rules)
    ensures Apply(u, list).Ok? && Apply(u, list).value.grid.Line?
    ensures Apply(u, list).value.grid.cells[i] == ElementaryStep(110, u.grid.cells)[i]
  {
    Rule110Cell(u, list, i);
    var cells := u.grid.cells;
    ElementaryCell(110, cells, i);
    TableIsWolfram110(Dead1(cells, i - 1), Dead1(cells, i), Dead1(cells, i + 1));
  }

  /** Cell i of the next generation is the rule's bit for the neighbourhood of i. */
  lemma ElementaryCell(code: nat, cells: seq<int>, i: int)
    requires Binary(cells) && 0 <= i < |cells|
    ensures 0 <= Dead1(cells, i - 1) <= 1 && 0 <= Dead1(cells, i) <= 1 && 0 <= Dead1(cells, i + 1) <= 1
    ensures ElementaryStep(code, cells)[i] == Wolfram(code, Dead1(cells, i - 1), Dead1(cells, i), Dead1(cells, i + 1))
  {
  }

  /** Stepping a simulator that holds the three rules k times runs k generations
      of rule 110 without raising. */
  lemma {:induction false} Rule110Simulation(s: Simulator, k: nat)
    requires Valid(s.universe) && s.universe.grid.Line? && BinaryCells(s.universe)
    requires s.rules.rules == Rule110Table()
    ensures Ready(s)
    ensures Step(s, k) == Outcome(Simulator(Universe(s.universe.n,
              Line(ElementaryGenerations(110, s.universe.grid.cells, k))), s.rules), None)
    decreases k
  {
    TableListIsWolfram(s.universe, s.rules);
    if k > 0 {
      var t := Rule110StepOnce(s, k);
      Rule110Simulation(t, k - 1);
    }
  }

  /** The first of `k` steps of a rule 110 simulator is one generation. */
  lemma Rule110StepOnce(s: Simulator, k: nat) returns (t: Simulator)
    requires Valid(s.universe) && s.universe.grid.Line? && BinaryCells(s.universe)
    requires s.rules.rules == Rule110Table() && k > 0
    ensures Ready(s) && t.rules == s.rules && t.universe.n == s.universe.n
    ensures Valid(t.universe) && t.universe.grid.Line? && BinaryCells(t.universe)
    ensures t.universe.grid.cells == ElementaryStep(110, s.universe.grid.cells)
    ensures Step(s, k) == Step(t, k - 1)
  {
    TableListIsWolfram(s.universe, s.rules);
    t := Simulator(Universe(s.universe.n, Line(ElementaryStep(110, s.universe.grid.cells))), s.rules);
    StepUnfold(s, k);
  }

  /** The cells `rule_110_sim` sets before the first step. */
  function SeedCells(): seq<int>
  {
    [10, 12, 13, 14, 16, 17, 20, 22, 24, 25, 27, 30, 32]
  }

  /** A list of bare indices, as `transform` receives it. */
  function IndexLocations(xs: seq<int>): (locs: seq<Location>)
    ensures |locs| == |xs| && forall k :: 0 <= k < |xs| ==> locs[k] == Index(xs[k])
  {
    seq(|xs|, k requires 0 <= k < |xs| => Index(xs[k]))
  }

  /** On a line, `transform` at a list of indices inside the line sets exactly
      those cells and raises nothing. */
  lemma SetIndices(u: Universe, xs: seq<int>, state: int)
    requires Valid(u) && u.grid.Line?
    requires forall k :: 0 <= k < |xs| ==> 0 <= xs[k] < u.n
    ensures TargetsInRange(u, IndexLocations(xs))
    ensures var o := Transform(u, Many(IndexLocations(xs)), state);
            o.raised.None? && o.after.grid.Line? && |o.after.grid.cells| == u.n &&
            forall i :: 0 <= i < u.n ==> o.after.grid.cells[i] == if i in xs then state else u.grid.cells[i]
  {
    var locs := IndexLocations(xs);
    assert forall k :: 0 <= k < |locs| ==> Coordinates(locs[k]) == [xs[k]];
    assert FirstBad(u, locs) == |locs|;
    assert locs[..|locs|] == locs;
    var o := Transform(u, Many(locs), state);
    forall i | 0 <= i < u.n
      ensures o.after.grid.cells[i] == if i in xs then state else u.grid.cells[i]
    {
      assert InRange(u, [i]);
      if i in xs {
        var k :| 0 <= k < |xs| && xs[k] == i;
        assert Coordinates(locs[k]) == [i];
      }
      if [i] in Targets(locs) {
        var k :| 0 <= k < |locs| && Coordinates(locs[k]) == [i];
        assert xs[k] == i;
      }
    }
  }

  /** `rule_110_sim`'s seed: the thirteen indices lie inside the line of 50, and
      on the empty line `transform` makes exactly those cells alive. */
  lemma Seed()
    ensures forall k :: 0 <= k < |SeedCells()| ==> 0 <= SeedCells()[k] < 50
    ensures NewUniverse(1, Some(Size(Some(50))), None).Ok?
    ensures var u := NewUniverse(1, Some(Size(Some(50))), None).value;
            TargetsInRange(u, IndexLocations(SeedCells())) &&
            var o := Transform(u, Many(IndexLocations(SeedCells())), 1);
            o.raised.None? && o.after.grid.Line? && |o.after.grid.cells| == 50 &&
            forall i :: 0 <= i < 50 ==> o.after.grid.cells[i] == if i in SeedCells() then 1 else 0
  {
    var u := NewUniverse(1, Some(Size(Some(50))), None).value;
    SeedInside(SeedCells(), 50);
    ZeroLine(u);
    SetIndices(u, SeedCells(), 1);
  }

  lemma SeedInside(xs: seq<int>, n: int)
    requires xs == SeedCells() && n == 50
    ensures forall k :: 0 <= k < |xs| ==> 0 <= xs[k] < n
  {
  }

  lemma ZeroLine(u: Universe)
    requires Valid(u) && u.grid.Line?
    requires forall p :: InRange(u, p) ==> Cell(u, p) == 0
    ensures forall i :: 0 <= i < u.n ==> u.grid.cells[i] == 0
  {
    forall i | 0 <= i < u.n
      ensures u.grid.cells[i] == 0
    {
      assert InRange(u, [i]);
    }
  }

  /** `rule_110_sim`: after the seed, every `step()` of the simulator is one more
      generation of rule 110, and none raises. */
  lemma Rule110Sim(k: nat)
    ensures NewUniverse(1, Some(Size(Some(50))), None).Ok?
    ensures var u := NewUniverse(1, Some(Size(Some(50))), None).value;
            TargetsInRange(u, IndexLocations(SeedCells())) &&
            var seeded := Transform(u, Many(IndexLocations(SeedCells())), 1).after;
            Valid(seeded) && seeded.grid.Line? && Binary(seeded.grid.cells) &&
            Ready(Simulator(seeded, Rule110List())) &&
            Step(Simulator(seeded, Rule110List()), k) ==
              Outcome(Simulator(Universe(50, Line(ElementaryGenerations(110, seeded.grid.cells, k))),
                                Rule110List()), None)
  {
    var u := NewUniverse(1, Some(Size(Some(50))), None).value;
    SeedInside(SeedCells(), 50);
    ZeroLine(u);
    SeededRun(u, SeedCells(), k);
  }

  /** Seeding an empty line with indices inside it and stepping k times runs k
      generations of rule 110 from the seed. */
  lemma SeededRun(u: Universe, xs: seq<int>, k: nat)
    requires Valid(u) && u.grid.Line? && forall i :: 0 <= i < u.n ==> u.grid.cells[i] == 0
    requires forall m :: 0 <= m < |xs| ==> 0 <= xs[m] < u.n
    ensures TargetsInRange(u, IndexLocations(xs))
    ensures var seeded := Transform(u, Many(IndexLocations(xs)), 1).after;
            Valid(seeded) && seeded.grid.Line? && Binary(seeded.grid.cells) &&
            Ready(Simulator(seeded, Rule110List())) &&
            Step(Simulator(seeded, Rule110List()), k) ==
              Outcome(Simulator(Universe(u.n, Line(ElementaryGenerations(110, seeded.grid.cells, k))),
                                Rule110List()), None)
  {
    SetIndices(u, xs, 1);
    var seeded := Transform(u, Many(IndexLocations(xs)), 1).after;
    SeededBinary(seeded, xs);
    Rule110RulesBuilt();
    Rule110Simulation(Simulator(seeded, Rule110List()), k);
  }

  lemma SeededBinary(u: Universe, xs: seq<int>)
    requires Valid(u) && u.grid.Line?
    requires forall i :: 0 <= i < u.n ==> u.grid.cells[i] == if i in xs then 1 else 0
    ensures BinaryCells(u)
  {
  }
}
