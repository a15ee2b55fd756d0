/** The Life rule list under `apply` is Conway's Game of Life (B3/S23) on a
    square grid surrounded by dead cells, and the `life_sim` demonstration
    seeds a glider and runs that rule. */
module Conway {
  import opened Outcomes
  import opened NdArrays
  import opened Rules
  import opened Universes
  import opened Evolution
  import opened StepFacts
  import opened Simulators
  import opened Life
  import opened LifeRules

  /** Conway's rule at (i, j), counting the eight neighbours directly; cells
      outside the grid are dead. */
  function ConwayCell(rows: seq<seq<int>>, i: int, j: int): int
  {
    var count := Dead2(rows, i - 1, j - 1) + Dead2(rows, i - 1, j) + Dead2(rows, i - 1, j + 1)
               + Dead2(rows, i, j - 1) + Dead2(rows, i, j + 1)
               + Dead2(rows, i + 1, j - 1) + Dead2(rows, i + 1, j) + Dead2(rows, i + 1, j + 1);
    if Dead2(rows, i, j) == 1 then (if count == 2 || count == 3 then 1 else 0)
    else (if count == 3 then 1 else 0)
  }

  /** One generation of Conway's Game of Life on an n-by-n grid. */
  function ConwayStep(rows: seq<seq<int>>, n: nat): (next: seq<seq<int>>)
    requires Square(rows, n)
  {
    seq(n, i requires 0 <= i < n => seq(n, j requires 0 <= j < n => ConwayCell(rows, i, j)))
  }

  /** `k` generations. */
  function ConwayGenerations(rows: seq<seq<int>>, n: nat, k: nat): (last: seq<seq<int>>)
    requires Square(rows, n)
    ensures Square(last, n)
    decreases k
  {
    if k == 0 then rows else ConwayGenerations(ConwayStep(rows, n), n, k - 1)
  }

  /** The 3-by-3 neighbourhood of (i, j), row by row, dead outside the grid. */
  function Neighbourhood(rows: seq<seq<int>>, i: int, j: int): (w: NdArray)
  {
    NdArray([3, 3], seq(9, k => Dead2(rows, i - 1 + k / 3, j - 1 + k % 3)))
  }

  predicate BinaryRows(rows: seq<seq<int>>)
  {
    forall i :: 0 <= i < |rows| ==> Binary(rows[i])
  }

  /** Every generation of a 0/1 grid is a 0/1 grid. */
  lemma ConwayStepBinary(rows: seq<seq<int>>, n: nat)
    requires Square(rows, n)
    ensures Square(ConwayStep(rows, n), n) && BinaryRows(ConwayStep(rows, n))
  {
  }

  lemma RowMajor3(a: int, b: int)
    requires 0 <= b < 3
    ensures (3 * a + b) / 3 == a && (3 * a + b) % 3 == b
  {
  }

  /** Conway's rule applied to the neighbourhood is Conway's rule at the cell. */
  lemma NeighbourhoodOutcome(rows: seq<seq<int>>, i: int, j: int)
    ensures |Neighbourhood(rows, i, j).data| == 9
    ensures ConwayOutcome(Neighbourhood(rows, i, j).data) == ConwayCell(rows, i, j)
    ensures Neighbourhood(rows, i, j).data[4] == Dead2(rows, i, j)
  {
  }

  /** A Life rule matches the dead-bordered neighbourhood of (i, j) exactly when
      its window is that neighbourhood. */
  lemma NeighbourhoodMatch(r: Rule, rows: seq<seq<int>>, i: int, j: int)
    requires IsLifeRule(r)
    ensures WellFormedRule(r) && Rank(r.window) == 2
    ensures MatchesDead2(r, rows, i, j) <==> r.window == Neighbourhood(rows, i, j)
  {
    ProductOfPair(r.window.shape);
    if MatchesDead2(r, rows, i, j) {
      MatchIsNeighbourhood(r, rows, i, j);
    }
    if r.window == Neighbourhood(rows, i, j) {
      NeighbourhoodMatches(r, rows, i, j);
    }
  }

  lemma MatchIsNeighbourhood(r: Rule, rows: seq<seq<int>>, i: int, j: int)
    requires IsLifeRule(r) && WellFormedRule(r) && Rank(r.window) == 2
    requires MatchesDead2(r, rows, i, j)
    ensures r.window == Neighbourhood(rows, i, j)
  {
    var nb := Neighbourhood(rows, i, j);
    ProductOfPair(nb.shape);
    forall k | 0 <= k < 9
      ensures r.window.data[k] == nb.data[k]
    {
      var a, b := k / 3, k % 3;
      Entry3(r.window, k);
      Entry3(nb, k);
      NeighbourhoodAt(nb, rows, i, j, a, b);
      assert At2(r.window, a, b) == Dead2(rows, i - 1 + a, j - 1 + b);
    }
  }

  /** Entry k of a 3-by-3 array, in row-major order, is row k / 3, column k % 3. */
  lemma Entry3(w: NdArray, k: int)
    requires w.shape == [3, 3] && |w.data| == 9 && 0 <= k < 9
    ensures WellFormed(w) && Rank(w) == 2 && 0 <= k / 3 < 3 && 0 <= k % 3 < 3
    ensures w.data[k] == At2(w, k / 3, k % 3)
  {
    ProductOfPair(w.shape);
  }

  lemma NeighbourhoodMatches(r: Rule, rows: seq<seq<int>>, i: int, j: int)
    requires IsLifeRule(r) && WellFormedRule(r) && Rank(r.window) == 2
    requires r.window == Neighbourhood(rows, i, j)
    ensures MatchesDead2(r, rows, i, j)
  {
    forall a, b | 0 <= a < 3 && 0 <= b < 3
      ensures At2(r.window, a, b) == Dead2(rows, i - 1 + a, j - 1 + b)
    {
      NeighbourhoodAt(r.window, rows, i, j, a, b);
    }
  }

  /** Entry (a, b) of the neighbourhood of (i, j) is cell (i - 1 + a, j - 1 + b). */
  lemma NeighbourhoodAt(w: NdArray, rows: seq<seq<int>>, i: int, j: int, a: int, b: int)
    requires w == Neighbourhood(rows, i, j) && WellFormed(w) && Rank(w) == 2
    requires 0 <= a < 3 && 0 <= b < 3
    ensures At2(w, a, b) == Dead2(rows, i - 1 + a, j - 1 + b)
  {
    RowMajor3(a, b);
    assert At2(w, a, b) == w.data[3 * a + b];
  }

  /** New cell (i, j) under a Life list is Conway's rule at (i, j): a matching
      rule writes it, and when none matches Conway's rule keeps the cell. */
  lemma LifeStepCell(rules: seq<Rule>, rows: seq<seq<int>>, n: nat, i: int, j: int, next: seq<seq<int>>)
    requires ConwayRules(rules) && Square(rows, n) && BinaryRows(rows)
    requires 0 <= i < n && 0 <= j < n
    requires Rank2Rules(rules) && next == Step2(rows, n, rules, 3, 3)
    ensures next[i][j] == ConwayCell(rows, i, j)
  {
    ConwayRulesValid(rules);
    forall r | r in rules
      ensures r.window.shape[0] <= 3 && r.window.shape[1] <= 3
    {
      assert IsLifeRule(r);
    }
    Step2Cell(rows, n, rules, 3, 3, i, j, next);
    assert Scanned(n, 3, 3, j);
    if m :| 0 <= m < |rules| && MatchesDead2(rules[m], rows, i, j) {
      MatchIsLast(rules, rows, i, j, m);
    } else {
      assert NoMatch2(rules, rows, i, j);
      UnmatchedCellStays(rules, rows, n, i, j);
    }
  }

  /** Two rules of the list that match the same neighbourhood are the same rule at
      the same position: at most one rule matches any cell, so the missing `break`
      in the two-dimensional loop changes nothing. */
  lemma LifeAtMostOneMatch(rules: seq<Rule>, rows: seq<seq<int>>, i: int, j: int, k1: int, k2: int)
    requires ConwayRules(rules)
    requires 0 <= k1 < |rules| && 0 <= k2 < |rules|
    ensures Rank2Rules(rules)
    ensures MatchesDead2(rules[k1], rows, i, j) && MatchesDead2(rules[k2], rows, i, j) ==> k1 == k2
  {
    ConwayRulesValid(rules);
    assert rules[k1] in rules && rules[k2] in rules;
    NeighbourhoodMatch(rules[k1], rows, i, j);
    NeighbourhoodMatch(rules[k2], rows, i, j);
  }

  /** A matching Life rule is the only one, so it is the last, and it writes
      Conway's outcome. */
  lemma MatchIsLast(rules: seq<Rule>, rows: seq<seq<int>>, i: int, j: int, m: int)
    requires ConwayRules(rules) && Rank2Rules(rules)
    requires 0 <= m < |rules| && MatchesDead2(rules[m], rows, i, j)
    ensures LastMatch2(rules, rows, i, j, m)
    ensures rules[m].becomes == ConwayCell(rows, i, j)
  {
    forall m' | m < m' < |rules|
      ensures !MatchesDead2(rules[m'], rows, i, j)
    {
      LifeAtMostOneMatch(rules, rows, i, j, m, m');
    }
    assert IsLifeRule(rules[m]);
    NeighbourhoodMatch(rules[m], rows, i, j);
    NeighbourhoodOutcome(rows, i, j);
  }

  /** When no Life rule matches, Conway's rule keeps the cell: otherwise the rule
      for its neighbourhood would be in the list and match. */
  lemma UnmatchedCellStays(rules: seq<Rule>, rows: seq<seq<int>>, n: nat, i: int, j: int)
    requires ConwayRules(rules) && Rank2Rules(rules) && Square(rows, n) && BinaryRows(rows)
    requires 0 <= i < n && 0 <= j < n
    requires NoMatch2(rules, rows, i, j)
    ensures ConwayCell(rows, i, j) == rows[i][j]
  {
    var nb := Neighbourhood(rows, i, j);
    NeighbourhoodOutcome(rows, i, j);
    NeighbourhoodBinary(rows, n, i, j);
    if ConwayCell(rows, i, j) != rows[i][j] {
      var r := Rule(nb, [1, 1], ConwayOutcome(nb.data));
      assert IsLifeRule(r);
      NeighbourhoodMatch(r, rows, i, j);
      assert false;
    }
  }

  lemma NeighbourhoodBinary(rows: seq<seq<int>>, n: nat, i: int, j: int)
    requires Square(rows, n) && BinaryRows(rows)
    ensures Binary(Neighbourhood(rows, i, j).data)
  {
    var nb := Neighbourhood(rows, i, j);
    forall k | 0 <= k < 9
      ensures nb.data[k] == 0 || nb.data[k] == 1
    {
      var a, b := i - 1 + k / 3, j - 1 + k % 3;
      if 0 <= a < n && 0 <= b < n {
        assert Binary(rows[a]);
      }
    }
  }

  /** `apply` with a Life list: one generation of Conway's Game of Life on a
      non-empty plane, an error on an empty plane (numpy cannot pad it) and on
      a line (the rules are two-dimensional). */
  lemma ConwayApply(u: Universe, list: RuleList)
    requires Valid(u) && BinaryCells(u) && ConwayRules(list.rules)
    ensures ValidRules(list.rules)
    ensures u.grid.Line? ==> Apply(u, list) == Err(RuleRankMismatch)
    ensures u.grid.Plane? && u.n == 0 ==> Apply(u, list) == Err(PadShapeMismatch)
    ensures u.grid.Plane? && u.n > 0 ==>
              Apply(u, list) == Ok(Universe(u.n, Plane(ConwayStep(u.grid.rows, u.n))))
  {
    var rules := list.rules;
    ConwayRulesValid(rules);
    ConwayRulesExtent(rules);
    if u.grid.Line? {
      var born := BirthRule();
      assert born in rules && Rank(born.window) != 1;
    } else if u.n > 0 {
      var rows, n := u.grid.rows, u.n;
      assert BinaryRows(rows) && Square(rows, n);
      ApplyPlaneSucceeds(u, list);
      ApplyPlaneIsStep2(u, list);
      var next := Step2(rows, n, rules, 3, 3);
      forall i, j | 0 <= i < n && 0 <= j < n
        ensures next[i][j] == ConwayCell(rows, i, j)
      {
        LifeStepCell(rules, rows, n, i, j, next);
      }
      CellwiseConway(rows, n, next);
    }
  }

  /** A grid that has Conway's outcome in every cell is the next generation. */
  lemma CellwiseConway(rows: seq<seq<int>>, n: nat, next: seq<seq<int>>)
    requires Square(rows, n) && Square(next, n)
    requires forall i, j :: 0 <= i < n && 0 <= j < n ==> next[i][j] == ConwayCell(rows, i, j)
    ensures next == ConwayStep(rows, n)
  {
    var conway := ConwayStep(rows, n);
    forall i | 0 <= i < n
      ensures next[i] == conway[i]
    {
      assert |next[i]| == |conway[i]| == n;
    }
  }

  /** The Life rule list of the demonstration computes Conway's Game of Life. */
  lemma LifeIsConway(u: Universe)
    requires Valid(u) && BinaryCells(u)
    ensures ValidRules(LifeRuleList().rules)
    ensures u.grid.Line? ==> Apply(u, LifeRuleList()) == Err(RuleRankMismatch)
    ensures u.grid.Plane? && u.n == 0 ==> Apply(u, LifeRuleList()) == Err(PadShapeMismatch)
    ensures u.grid.Plane? && u.n > 0 ==>
              Apply(u, LifeRuleList()) == Ok(Universe(u.n, Plane(ConwayStep(u.grid.rows, u.n))))
  {
    LifeRuleListIsConway();
    ConwayApply(u, LifeRuleList());
  }

  /** Stepping a simulator that holds the Life list k times runs k generations
      without raising. */
  lemma LifeSimulation(s: Simulator, k: nat)
    requires Valid(s.universe) && s.universe.grid.Plane? && s.universe.n > 0
    requires BinaryCells(s.universe) && s.rules == LifeRuleList()
    ensures Ready(s)
    ensures Step(s, k) == Outcome(Simulator(Universe(s.universe.n,
              Plane(ConwayGenerations(s.universe.grid.rows, s.universe.n, k))), s.rules), None)
  {
    LifeRuleListIsConway();
    ConwaySimulation(s, k);
  }

  lemma {:induction false} ConwaySimulation(s: Simulator, k: nat)
    requires Valid(s.universe) && s.universe.grid.Plane? && s.universe.n > 0
    requires BinaryCells(s.universe) && ConwayRules(s.rules.rules)
    ensures Ready(s)
    ensures Step(s, k) == Outcome(Simulator(Universe(s.universe.n,
              Plane(ConwayGenerations(s.universe.grid.rows, s.universe.n, k))), s.rules), None)
    decreases k
  {
    if k == 0 {
      ConwayRulesValid(s.rules.rules);
    } else {
      var t := ConwayStepOnce(s, k);
      ConwaySimulation(t, k - 1);
    }
  }

  /** The first of `k` steps of a Life simulator is one Conway generation. */
  lemma ConwayStepOnce(s: Simulator, k: nat) returns (t: Simulator)
    requires Valid(s.universe) && s.universe.grid.Plane? && s.universe.n > 0
    requires BinaryCells(s.universe) && ConwayRules(s.rules.rules) && k > 0
    ensures Ready(s) && t.rules == s.rules && t.universe.n == s.universe.n
    ensures Valid(t.universe) && t.universe.grid.Plane? && BinaryCells(t.universe)
    ensures t.universe.grid.rows == ConwayStep(s.universe.grid.rows, s.universe.n)
    ensures Step(s, k) == Step(t, k - 1)
  {
    var n, rows := s.universe.n, s.universe.grid.rows;
    ConwayApply(s.universe, s.rules);
    ConwayStepBinary(rows, n);
    t := Simulator(Universe(n, Plane(ConwayStep(rows, n))), s.rules);
    StepUnfold(s, k);
  }

  /** The cells the glider sets. */
  function GliderSet(): set<seq<int>>
  {
    {[2, 1], [3, 2], [1, 3], [2, 3], [3, 3]}
  }

  /** On a plane of extent at least 4, `transform` sets exactly the five glider
      cells and raises nothing. */
  lemma Glider(u: Universe)
    requires Valid(u) && u.grid.Plane? && u.n >= 4
    ensures TargetsInRange(u, GliderCells())
    ensures var o := Transform(u, Many(GliderCells()), 1);
            o.raised.None? && forall p :: InRange(u, p) ==> Cell(o.after, p) == if p in GliderSet() then 1 else Cell(u, p)
  {
    var locs := GliderCells();
    assert forall k :: 0 <= k < |locs| ==> InRange(u, Coordinates(locs[k]));
    assert FirstBad(u, locs) == |locs|;
    assert locs[..|locs|] == locs;
    forall p
      ensures p in Targets(locs) <==> p in GliderSet()
    {
      if p in GliderSet() {
        assert p == Coordinates(locs[0]) || p == Coordinates(locs[1]) || p == Coordinates(locs[2])
            || p == Coordinates(locs[3]) || p == Coordinates(locs[4]);
      }
    }
  }

  /** `life_sim`'s seed: on the empty 20-by-20 plane, the glider cells are alive
      and every other cell is dead. */
  lemma GliderSeed()
    ensures NewUniverse(2, Some(Size(Some(20))), None).Ok?
    ensures var u := NewUniverse(2, Some(Size(Some(20))), None).value;
            TargetsInRange(u, GliderCells()) &&
            var o := Transform(u, Many(GliderCells()), 1);
            o.raised.None? && forall p :: InRange(u, p) ==> Cell(o.after, p) == if p in GliderSet() then 1 else 0
  {
    var u := NewUniverse(2, Some(Size(Some(20))), None).value;
    Glider(u);
  }

  /** `life_sim`: after the seed, every `step()` of the simulator is one more
      generation of Conway's Game of Life, and none raises. */
  lemma LifeSim(k: nat)
    ensures NewUniverse(2, Some(Size(Some(20))), None).Ok?
    ensures var u := NewUniverse(2, Some(Size(Some(20))), None).value;
            TargetsInRange(u, GliderCells()) &&
            var seeded := Transform(u, Many(GliderCells()), 1).after;
            seeded.grid.Plane? && Square(seeded.grid.rows, 20) &&
            Ready(Simulator(seeded, LifeRuleList())) &&
            Step(Simulator(seeded, LifeRuleList()), k) ==
              Outcome(Simulator(Universe(20, Plane(ConwayGenerations(seeded.grid.rows, 20, k))), LifeRuleList()), None)
  {
    var u := NewUniverse(2, Some(Size(Some(20))), None).value;
    BinaryFromCells(u);
    SeededLife(u, k);
  }

  /** A glider placed on a 0/1 plane of extent at least 4 evolves by Conway's rule. */
  lemma SeededLife(u: Universe, k: nat)
    requires Valid(u) && u.grid.Plane? && u.n >= 4 && BinaryCells(u)
    ensures TargetsInRange(u, GliderCells())
    ensures var seeded := Transform(u, Many(GliderCells()), 1).after;
            seeded.grid.Plane? && Square(seeded.grid.rows, u.n) &&
            Ready(Simulator(seeded, LifeRuleList())) &&
            Step(Simulator(seeded, LifeRuleList()), k) ==
              Outcome(Simulator(Universe(u.n, Plane(ConwayGenerations(seeded.grid.rows, u.n, k))), LifeRuleList()), None)
  {
    var seeded := GliderBinary(u);
    LifeSimulation(Simulator(seeded, LifeRuleList()), k);
  }

  /** Placing the glider on a 0/1 plane leaves a 0/1 plane. */
  lemma GliderBinary(u: Universe) returns (seeded: Universe)
    requires Valid(u) && u.grid.Plane? && u.n >= 4 && BinaryCells(u)
    ensures TargetsInRange(u, GliderCells())
    ensures seeded == Transform(u, Many(GliderCells()), 1).after
    ensures Valid(seeded) && seeded.grid.Plane? && seeded.n == u.n && BinaryCells(seeded)
  {
    Glider(u);
    seeded := Transform(u, Many(GliderCells()), 1).after;
    forall p | InRange(seeded, p)
      ensures Cell(seeded, p) == 0 || Cell(seeded, p) == 1
    {
      assert InRange(u, p);
      assert Cell(u, p) == u.grid.rows[p[0]][p[1]];
      assert Binary(u.grid.rows[p[0]]);
    }
    BinaryFromCells(seeded);
  }

  lemma BinaryFromCells(u: Universe)
    requires Valid(u) && u.grid.Plane?
    requires forall p :: InRange(u, p) ==> Cell(u, p) == 0 || Cell(u, p) == 1
    ensures BinaryCells(u)
  {
    forall i, j | 0 <= i < u.n && 0 <= j < u.n
      ensures u.grid.rows[i][j] == 0 || u.grid.rows[i][j] == 1
    {
      assert InRange(u, [i, j]);
    }
  }
}
