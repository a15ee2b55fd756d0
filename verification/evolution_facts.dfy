/** What one evolution step computes, cell by cell, stated against a grid bounded
    by dead cells rather than against the padded snapshot. */
module StepFacts {
  import opened Outcomes
  import opened NdArrays
  import opened Rules
  import opened Universes
  import opened Evolution

  predicate Rank1Rules(rules: seq<Rule>)
  {
    forall r :: r in rules ==> WellFormedRule(r) && Rank(r.window) == 1
  }

  predicate Rank2Rules(rules: seq<Rule>)
  {
    forall r :: r in rules ==> WellFormedRule(r) && Rank(r.window) == 2
  }

  /** Rule `k` is the first in list order whose window equals the neighbourhood of cell `i`. */
  predicate FirstMatch1(rules: seq<Rule>, cells: seq<int>, i: int, k: int)
    requires Rank1Rules(rules)
  {
    && 0 <= k < |rules|
    && MatchesDead1(rules[k], cells, i)
    && forall m :: 0 <= m < k ==> !MatchesDead1(rules[m], cells, i)
  }

  predicate NoMatch1(rules: seq<Rule>, cells: seq<int>, i: int)
    requires Rank1Rules(rules)
  {
    forall m :: 0 <= m < |rules| ==> !MatchesDead1(rules[m], cells, i)
  }

  /** Rule `k` is the last in list order whose window equals the neighbourhood of cell (i, j). */
  predicate LastMatch2(rules: seq<Rule>, rows: seq<seq<int>>, i: int, j: int, k: int)
    requires Rank2Rules(rules)
  {
    && 0 <= k < |rules|
    && MatchesDead2(rules[k], rows, i, j)
    && forall m :: k < m < |rules| ==> !MatchesDead2(rules[m], rows, i, j)
  }

  predicate NoMatch2(rules: seq<Rule>, rows: seq<seq<int>>, i: int, j: int)
    requires Rank2Rules(rules)
  {
    forall m :: 0 <= m < |rules| ==> !MatchesDead2(rules[m], rows, i, j)
  }

  // ------------------------------------------------------------ the padded snapshot

  /** Reading the padded snapshot at the rule's offset is reading the grid with a
      dead border. */
  lemma Matches1Padded(rule: Rule, cells: seq<int>, p: nat, i: int)
    requires WellFormedRule(rule) && Rank(rule.window) == 1 && CenterInside(rule)
    requires rule.window.shape[0] <= p && 0 <= i < |cells|
    ensures Matches1(rule, Pad1(cells, p), i + p) <==> MatchesDead1(rule, cells, i)
  {
    ProductOfSingle(rule.window.shape);
    Pad1Content(cells, p);
    var padded := Pad1(cells, p);
    var w := rule.window.shape[0];
    var start := i + p - rule.center[0];
    assert 0 <= start && start + w <= |padded|;
    var slice := padded[start..start + w];
    assert forall a :: 0 <= a < w ==> slice[a] == Dead1(cells, i - rule.center[0] + a);
    if MatchesDead1(rule, cells, i) {
      assert slice == rule.window.data;
    }
  }

  lemma Matches2Padded(rule: Rule, rows: seq<seq<int>>, n: nat, vp: nat, hp: nat, i: int, j: int)
    requires Square(rows, n)
    requires WellFormedRule(rule) && Rank(rule.window) == 2 && CenterInside(rule)
    requires rule.window.shape[0] <= vp && rule.window.shape[1] <= hp
    requires 0 <= i < n && 0 <= j < n
    ensures Matches2(rule, Pad2(rows, n, vp, hp), n + 2 * hp, i + vp, j + hp) <==> MatchesDead2(rule, rows, i, j)
  {
    var padded := Pad2(rows, n, vp, hp);
    Pad2Content(rows, n, vp, hp);
    var top := i + vp - rule.center[0];
    var left := j + hp - rule.center[1];
    assert 0 <= top && top + rule.window.shape[0] <= |padded|;
    assert 0 <= left && left + rule.window.shape[1] <= n + 2 * hp;
    forall a, b | 0 <= a < rule.window.shape[0] && 0 <= b < rule.window.shape[1]
      ensures (padded[top + a][left + b] == At2(rule.window, a, b)) <==>
              (At2(rule.window, a, b) == Dead2(rows, i - rule.center[0] + a, j - rule.center[1] + b))
    {
    }
  }

  // ------------------------------------------------------------ the rule loops

  /** With a `break` after the first match, the first matching rule decides. */
  lemma {:induction false} Scan1FirstMatch(rules: seq<Rule>, padded: seq<int>, index: int, current: int, k: int)
    requires Rank1Rules(rules)
    requires 0 <= k < |rules| && Matches1(rules[k], padded, index)
    requires forall m :: 0 <= m < k ==> !Matches1(rules[m], padded, index)
    ensures Scan1(rules, padded, index, current) == rules[k].becomes
    decreases k
  {
    if k > 0 {
      assert !Matches1(rules[0], padded, index);
      assert forall m :: 0 <= m < k - 1 ==> rules[1..][m] == rules[m + 1];
      Scan1FirstMatch(rules[1..], padded, index, current, k - 1);
    }
  }

  lemma {:induction false} Scan1NoMatch(rules: seq<Rule>, padded: seq<int>, index: int, current: int)
    requires Rank1Rules(rules)
    requires forall m :: 0 <= m < |rules| ==> !Matches1(rules[m], padded, index)
    ensures Scan1(rules, padded, index, current) == current
    decreases |rules|
  {
    if |rules| > 0 {
      assert !Matches1(rules[0], padded, index);
      assert forall m :: 0 <= m < |rules| - 1 ==> rules[1..][m] == rules[m + 1];
      Scan1NoMatch(rules[1..], padded, index, current);
    }
  }

  /** Without a `break`, the last matching rule decides. */
  lemma {:induction false} Scan2LastMatch(rules: seq<Rule>, padded: seq<seq<int>>, width: nat,
                                          row: int, col: int, current: int, k: int)
    requires Rank2Rules(rules)
    requires forall r :: 0 <= r < |padded| ==> |padded[r]| == width
    requires 0 <= k < |rules| && Matches2(rules[k], padded, width, row, col)
    requires forall m :: k < m < |rules| ==> !Matches2(rules[m], padded, width, row, col)
    ensures Scan2(rules, padded, width, row, col, current) == rules[k].becomes
    decreases |rules|
  {
    var written := if Matches2(rules[0], padded, width, row, col) then rules[0].becomes else current;
    assert forall m :: 0 <= m < |rules| - 1 ==> rules[1..][m] == rules[m + 1];
    if k == 0 {
      Scan2NoMatch(rules[1..], padded, width, row, col, written);
    } else {
      Scan2LastMatch(rules[1..], padded, width, row, col, written, k - 1);
    }
  }

  lemma {:induction false} Scan2NoMatch(rules: seq<Rule>, padded: seq<seq<int>>, width: nat,
                                        row: int, col: int, current: int)
    requires Rank2Rules(rules)
    requires forall r :: 0 <= r < |padded| ==> |padded[r]| == width
    requires forall m :: 0 <= m < |rules| ==> !Matches2(rules[m], padded, width, row, col)
    ensures Scan2(rules, padded, width, row, col, current) == current
    decreases |rules|
  {
    if |rules| > 0 {
      assert !Matches2(rules[0], padded, width, row, col);
      assert forall m :: 0 <= m < |rules| - 1 ==> rules[1..][m] == rules[m + 1];
      Scan2NoMatch(rules[1..], padded, width, row, col, current);
    }
  }

  /** When every matching rule has the same outcome `v`, the first-match loop
      yields `v` if anything matches and the old value otherwise. */
  lemma {:induction false} Scan1Agreeing(rules: seq<Rule>, padded: seq<int>, index: int, current: int, v: int)
    requires Rank1Rules(rules)
    requires forall r :: r in rules && Matches1(r, padded, index) ==> r.becomes == v
    ensures Scan1(rules, padded, index, current) == if AnyMatches1(rules, padded, index) then v else current
    decreases |rules|
  {
    if |rules| > 0 {
      assert forall r :: r in rules[1..] ==> r in rules;
      Scan1Agreeing(rules[1..], padded, index, current, v);
      assert AnyMatches1(rules, padded, index) <==>
        Matches1(rules[0], padded, index) || AnyMatches1(rules[1..], padded, index) by {
        assert forall r :: r in rules ==> r == rules[0] || r in rules[1..];
      }
    }
  }

  /** The same for the last-match loop. */
  lemma {:induction false} Scan2Agreeing(rules: seq<Rule>, padded: seq<seq<int>>, width: nat,
                                         row: int, col: int, current: int, v: int)
    requires Rank2Rules(rules)
    requires forall r :: 0 <= r < |padded| ==> |padded[r]| == width
    requires forall r :: r in rules && Matches2(r, padded, width, row, col) ==> r.becomes == v
    ensures Scan2(rules, padded, width, row, col, current) ==
              if AnyMatches2(rules, padded, width, row, col) then v else current
    decreases |rules|
  {
    if |rules| > 0 {
      assert forall r :: r in rules[1..] ==> r in rules;
      var written := if Matches2(rules[0], padded, width, row, col) then rules[0].becomes else current;
      Scan2Agreeing(rules[1..], padded, width, row, col, written, v);
      assert AnyMatches2(rules, padded, width, row, col) <==>
        Matches2(rules[0], padded, width, row, col) || AnyMatches2(rules[1..], padded, width, row, col) by {
        assert forall r :: r in rules ==> r == rules[0] || r in rules[1..];
      }
    }
  }

  // ------------------------------------------------------------ the step, cell by cell

  /** One dimension: new cell `i` is the outcome of the first rule in list order
      whose window equals cells i-c .. i-c+w-1 (outside the grid: dead), or the
      old cell if none does. */
  lemma ApplyLine(u: Universe, list: RuleList, i: int)
    requires Valid(u) && u.grid.Line? && ValidRules(list.rules)
    requires RanksAre(list.rules, 1) && |list.rules| > 0
    requires 0 <= i < u.n
    ensures Apply(u, list).Ok? && Apply(u, list).value.grid.Line?
    ensures forall k :: FirstMatch1(list.rules, u.grid.cells, i, k) ==>
              Apply(u, list).value.grid.cells[i] == list.rules[k].becomes
    ensures NoMatch1(list.rules, u.grid.cells, i) ==>
              Apply(u, list).value.grid.cells[i] == u.grid.cells[i]
  {
    var p := MaxExtent(list.rules, 0);
    ApplyLineIsStep1(u, list);
    Step1At(u.grid.cells, list.rules, p, i);
    Scan1OnPadded(list.rules, u.grid.cells, p, i);
  }

  lemma Step1At(cells: seq<int>, rules: seq<Rule>, p: nat, i: int)
    requires forall r :: r in rules ==> WellFormedRule(r) && Rank(r.window) == 1
    requires 0 <= i < |cells|
    ensures Step1(cells, rules, p)[i] == Scan1(rules, Pad1(cells, p), i + p, cells[i])
  {
  }

  lemma ApplyLineIsStep1(u: Universe, list: RuleList)
    requires Valid(u) && u.grid.Line? && ValidRules(list.rules)
    requires RanksAre(list.rules, 1) && |list.rules| > 0
    ensures Apply(u, list) == Ok(Universe(u.n, Line(Step1(u.grid.cells, list.rules, MaxExtent(list.rules, 0)))))
  {
  }

  /** The rule loop over the padded snapshot picks the first rule matching the
      dead-bordered neighbourhood. */
  lemma Scan1OnPadded(rules: seq<Rule>, cells: seq<int>, p: nat, i: int)
    requires ValidRules(rules) && Rank1Rules(rules)
    requires forall r :: r in rules ==> r.window.shape[0] <= p
    requires 0 <= i < |cells|
    ensures forall k :: FirstMatch1(rules, cells, i, k) ==>
              Scan1(rules, Pad1(cells, p), i + p, cells[i]) == rules[k].becomes
    ensures NoMatch1(rules, cells, i) ==> Scan1(rules, Pad1(cells, p), i + p, cells[i]) == cells[i]
  {
    forall k | FirstMatch1(rules, cells, i, k)
      ensures Scan1(rules, Pad1(cells, p), i + p, cells[i]) == rules[k].becomes
    {
      FirstMatchOnPadded(rules, cells, p, i, k, Pad1(cells, p));
    }
    if NoMatch1(rules, cells, i) {
      NoMatch1OnPadded(rules, cells, p, i, Pad1(cells, p));
    }
  }

  lemma FirstMatchOnPadded(rules: seq<Rule>, cells: seq<int>, p: nat, i: int, k: int, padded: seq<int>)
    requires ValidRules(rules) && Rank1Rules(rules)
    requires forall r :: r in rules ==> r.window.shape[0] <= p
    requires 0 <= i < |cells| && FirstMatch1(rules, cells, i, k)
    requires padded == Pad1(cells, p)
    ensures Scan1(rules, padded, i + p, cells[i]) == rules[k].becomes
  {
    PaddedMatchesAll1(rules, cells, p, i, padded);
    Scan1By(rules, padded, i + p, cells[i], cells, i);
  }

  lemma NoMatch1OnPadded(rules: seq<Rule>, cells: seq<int>, p: nat, i: int, padded: seq<int>)
    requires ValidRules(rules) && Rank1Rules(rules)
    requires forall r :: r in rules ==> r.window.shape[0] <= p
    requires 0 <= i < |cells| && NoMatch1(rules, cells, i)
    requires padded == Pad1(cells, p)
    ensures Scan1(rules, padded, i + p, cells[i]) == cells[i]
  {
    PaddedMatchesAll1(rules, cells, p, i, padded);
    Scan1By(rules, padded, i + p, cells[i], cells, i);
  }

  /** Matching on the padded line is matching against the dead-bordered line, rule
      by rule. */
  lemma PaddedMatchesAll1(rules: seq<Rule>, cells: seq<int>, p: nat, i: int, padded: seq<int>)
    requires ValidRules(rules) && Rank1Rules(rules)
    requires forall r :: r in rules ==> r.window.shape[0] <= p
    requires 0 <= i < |cells|
    requires padded == Pad1(cells, p)
    ensures forall m :: 0 <= m < |rules| ==>
              (Matches1(rules[m], padded, i + p) <==> MatchesDead1(rules[m], cells, i))
  {
    forall m | 0 <= m < |rules|
      ensures Matches1(rules[m], padded, i + p) <==> MatchesDead1(rules[m], cells, i)
    {
      assert rules[m] in rules;
      Matches1Padded(rules[m], cells, p, i);
    }
  }

  lemma Scan1By(rules: seq<Rule>, padded: seq<int>, index: int, current: int, cells: seq<int>, i: int)
    requires Rank1Rules(rules)
    requires forall m :: 0 <= m < |rules| ==>
               (Matches1(rules[m], padded, index) <==> MatchesDead1(rules[m], cells, i))
    ensures forall k :: FirstMatch1(rules, cells, i, k) ==> Scan1(rules, padded, index, current) == rules[k].becomes
    ensures NoMatch1(rules, cells, i) ==> Scan1(rules, padded, index, current) == current
  {
    forall k | FirstMatch1(rules, cells, i, k)
      ensures Scan1(rules, padded, index, current) == rules[k].becomes
    {
      Scan1FirstMatch(rules, padded, index, current, k);
    }
    if NoMatch1(rules, cells, i) {
      Scan1NoMatch(rules, padded, index, current);
    }
  }

  /** Two dimensions: in a scanned column, new cell (i, j) is the outcome of the
      last rule in list order whose window equals the neighbourhood aligned at
      its center (outside the grid: dead), or the old cell if none does; in a
      column the loop does not reach, the old cell. */
  lemma ApplyPlane(u: Universe, list: RuleList, i: int, j: int)
    requires Valid(u) && u.grid.Plane? && ValidRules(list.rules)
    requires RanksAre(list.rules, 2) && |list.rules| > 0
    requires Apply(u, list).Ok?
    requires 0 <= i < u.n && 0 <= j < u.n
    ensures Apply(u, list).value.grid.Plane?
    ensures var vp := MaxExtent(list.rules, 0);
            var hp := MaxExtent(list.rules, 1);
            Scanned(u.n, vp, hp, j) ==>
              (forall k :: LastMatch2(list.rules, u.grid.rows, i, j, k) ==>
                 Apply(u, list).value.grid.rows[i][j] == list.rules[k].becomes)
    ensures var vp := MaxExtent(list.rules, 0);
            var hp := MaxExtent(list.rules, 1);
            Scanned(u.n, vp, hp, j) && NoMatch2(list.rules, u.grid.rows, i, j) ==>
              Apply(u, list).value.grid.rows[i][j] == u.grid.rows[i][j]
    ensures !Scanned(u.n, MaxExtent(list.rules, 0), MaxExtent(list.rules, 1), j) ==>
              Apply(u, list).value.grid.rows[i][j] == u.grid.rows[i][j]
  {
    ApplyPlaneIsStep2(u, list);
    Step2Cell(u.grid.rows, u.n, list.rules, MaxExtent(list.rules, 0), MaxExtent(list.rules, 1), i, j,
              Apply(u, list).value.grid.rows);
  }

  /** Cell (i, j) of the grid the two-dimensional loops build. */
  lemma Step2Cell(rows: seq<seq<int>>, n: nat, rules: seq<Rule>, vp: nat, hp: nat, i: int, j: int,
                  next: seq<seq<int>>)
    requires Square(rows, n) && ValidRules(rules) && Rank2Rules(rules)
    requires forall r :: r in rules ==> r.window.shape[0] <= vp && r.window.shape[1] <= hp
    requires 0 <= i < n && 0 <= j < n
    requires next == Step2(rows, n, rules, vp, hp)
    ensures Scanned(n, vp, hp, j) ==>
              forall k :: LastMatch2(rules, rows, i, j, k) ==> next[i][j] == rules[k].becomes
    ensures Scanned(n, vp, hp, j) && NoMatch2(rules, rows, i, j) ==> next[i][j] == rows[i][j]
    ensures !Scanned(n, vp, hp, j) ==> next[i][j] == rows[i][j]
  {
    Step2At(rows, n, rules, vp, hp, i, j);
    if Scanned(n, vp, hp, j) {
      Scan2OnPadded(rules, rows, n, vp, hp, i, j);
    }
  }

  lemma Step2At(rows: seq<seq<int>>, n: nat, rules: seq<Rule>, vp: nat, hp: nat, i: int, j: int)
    requires Square(rows, n) && forall r :: r in rules ==> WellFormedRule(r) && Rank(r.window) == 2
    requires 0 <= i < n && 0 <= j < n
    ensures Scanned(n, vp, hp, j) ==>
              Step2(rows, n, rules, vp, hp)[i][j] ==
                Scan2(rules, Pad2(rows, n, vp, hp), n + 2 * hp, i + vp, j + hp, rows[i][j])
    ensures !Scanned(n, vp, hp, j) ==> Step2(rows, n, rules, vp, hp)[i][j] == rows[i][j]
  {
  }

  lemma ApplyPlaneIsStep2(u: Universe, list: RuleList)
    requires Valid(u) && u.grid.Plane? && ValidRules(list.rules)
    requires RanksAre(list.rules, 2) && |list.rules| > 0
    requires Apply(u, list).Ok?
    ensures Apply(u, list) == Ok(Universe(u.n, Plane(Step2(u.grid.rows, u.n, list.rules,
                                   MaxExtent(list.rules, 0), MaxExtent(list.rules, 1)))))
  {
  }

  /** The rule loop over the padded snapshot picks the last rule matching the
      dead-bordered neighbourhood. */
  lemma Scan2OnPadded(rules: seq<Rule>, rows: seq<seq<int>>, n: nat, vp: nat, hp: nat, i: int, j: int)
    requires Square(rows, n) && ValidRules(rules) && Rank2Rules(rules)
    requires forall r :: r in rules ==> r.window.shape[0] <= vp && r.window.shape[1] <= hp
    requires 0 <= i < n && 0 <= j < n
    ensures forall k :: LastMatch2(rules, rows, i, j, k) ==>
              Scan2(rules, Pad2(rows, n, vp, hp), n + 2 * hp, i + vp, j + hp, rows[i][j]) == rules[k].becomes
    ensures NoMatch2(rules, rows, i, j) ==>
              Scan2(rules, Pad2(rows, n, vp, hp), n + 2 * hp, i + vp, j + hp, rows[i][j]) == rows[i][j]
  {
    forall k | LastMatch2(rules, rows, i, j, k)
      ensures Scan2(rules, Pad2(rows, n, vp, hp), n + 2 * hp, i + vp, j + hp, rows[i][j]) == rules[k].becomes
    {
      LastMatchOnPadded(rules, rows, n, vp, hp, i, j, k, Pad2(rows, n, vp, hp));
    }
    if NoMatch2(rules, rows, i, j) {
      NoMatchOnPadded(rules, rows, n, vp, hp, i, j, Pad2(rows, n, vp, hp));
    }
  }

  lemma LastMatchOnPadded(rules: seq<Rule>, rows: seq<seq<int>>, n: nat, vp: nat, hp: nat, i: int, j: int, k: int,
                          padded: seq<seq<int>>)
    requires Square(rows, n) && ValidRules(rules) && Rank2Rules(rules)
    requires forall r :: r in rules ==> r.window.shape[0] <= vp && r.window.shape[1] <= hp
    requires 0 <= i < n && 0 <= j < n
    requires LastMatch2(rules, rows, i, j, k)
    requires padded == Pad2(rows, n, vp, hp)
    ensures Scan2(rules, padded, n + 2 * hp, i + vp, j + hp, rows[i][j]) == rules[k].becomes
  {
    PaddedMatchesAll(rules, rows, n, vp, hp, i, j, padded);
    LastMatchBy(rules, padded, n + 2 * hp, i + vp, j + hp, rows[i][j], rows, i, j, k);
  }

  lemma NoMatchOnPadded(rules: seq<Rule>, rows: seq<seq<int>>, n: nat, vp: nat, hp: nat, i: int, j: int,
                        padded: seq<seq<int>>)
    requires Square(rows, n) && ValidRules(rules) && Rank2Rules(rules)
    requires forall r :: r in rules ==> r.window.shape[0] <= vp && r.window.shape[1] <= hp
    requires 0 <= i < n && 0 <= j < n
    requires NoMatch2(rules, rows, i, j)
    requires padded == Pad2(rows, n, vp, hp)
    ensures Scan2(rules, padded, n + 2 * hp, i + vp, j + hp, rows[i][j]) == rows[i][j]
  {
    PaddedMatchesAll(rules, rows, n, vp, hp, i, j, padded);
    NoMatchBy(rules, padded, n + 2 * hp, i + vp, j + hp, rows[i][j], rows, i, j);
  }

  /** Matching on the padded snapshot is matching against the dead-bordered grid,
      rule by rule. */
  lemma PaddedMatchesAll(rules: seq<Rule>, rows: seq<seq<int>>, n: nat, vp: nat, hp: nat, i: int, j: int,
                         padded: seq<seq<int>>)
    requires Square(rows, n) && ValidRules(rules) && Rank2Rules(rules)
    requires forall r :: r in rules ==> r.window.shape[0] <= vp && r.window.shape[1] <= hp
    requires 0 <= i < n && 0 <= j < n
    requires padded == Pad2(rows, n, vp, hp)
    ensures forall r :: 0 <= r < |padded| ==> |padded[r]| == n + 2 * hp
    ensures forall m :: 0 <= m < |rules| ==>
              (Matches2(rules[m], padded, n + 2 * hp, i + vp, j + hp) <==> MatchesDead2(rules[m], rows, i, j))
  {
    forall m | 0 <= m < |rules|
      ensures Matches2(rules[m], padded, n + 2 * hp, i + vp, j + hp) <==> MatchesDead2(rules[m], rows, i, j)
    {
      assert rules[m] in rules;
      Matches2Padded(rules[m], rows, n, vp, hp, i, j);
    }
  }

  lemma LastMatchBy(rules: seq<Rule>, padded: seq<seq<int>>, width: nat, row: int, col: int, current: int,
                    rows: seq<seq<int>>, i: int, j: int, k: int)
    requires Rank2Rules(rules)
    requires forall r :: 0 <= r < |padded| ==> |padded[r]| == width
    requires forall m :: 0 <= m < |rules| ==>
               (Matches2(rules[m], padded, width, row, col) <==> MatchesDead2(rules[m], rows, i, j))
    requires LastMatch2(rules, rows, i, j, k)
    ensures Scan2(rules, padded, width, row, col, current) == rules[k].becomes
  {
    Scan2LastMatch(rules, padded, width, row, col, current, k);
  }

  lemma NoMatchBy(rules: seq<Rule>, padded: seq<seq<int>>, width: nat, row: int, col: int, current: int,
                  rows: seq<seq<int>>, i: int, j: int)
    requires Rank2Rules(rules)
    requires forall r :: 0 <= r < |padded| ==> |padded[r]| == width
    requires forall m :: 0 <= m < |rules| ==>
               (Matches2(rules[m], padded, width, row, col) <==> MatchesDead2(rules[m], rows, i, j))
    requires NoMatch2(rules, rows, i, j)
    ensures Scan2(rules, padded, width, row, col, current) == current
  {
    Scan2NoMatch(rules, padded, width, row, col, current);
  }

  /** When no window is taller than the widest window, no column past the right
      edge is visited, so a two-dimensional step of a non-empty grid succeeds. */
  lemma ApplyPlaneSucceeds(u: Universe, list: RuleList)
    requires Valid(u) && u.grid.Plane? && ValidRules(list.rules)
    requires RanksAre(list.rules, 2) && |list.rules| > 0 && u.n > 0
    requires MaxExtent(list.rules, 0) <= MaxExtent(list.rules, 1)
    ensures Apply(u, list).Ok?
  {
    assert !Overflow2(u.grid.rows, u.n, list.rules, MaxExtent(list.rules, 0), MaxExtent(list.rules, 1));
  }

  /** Rule `k`, aligned at its center on cell (i, j) of a column `j` past the right
      edge that the column loop still visits, matches the padded snapshot: the
      write to column `j` of the n-column grid raises. */
  predicate MatchesPastEdge(rules: seq<Rule>, rows: seq<seq<int>>, n: nat, vp: nat, hp: nat, i: int, j: int, k: int)
    requires Rank2Rules(rules)
  {
    && 0 <= i < n && n <= j < n + vp - hp && 0 <= k < |rules|
    && EdgeMatch(rules[k], rows, n, hp, i, j)
  }

  /** The comparison at (i, j) when the padded snapshot has `room` columns left
      from the slice's first column to its right end:
      - the whole window fits, and it equals the dead-bordered neighbourhood;
      - no column is left, and a one-column window matches the empty slice;
      - one (dead) column is left and is compared with every column of the
        window, which is the dead-bordered neighbourhood since that lies wholly
        right of the grid;
      - otherwise the shapes do not broadcast and nothing matches. */
  predicate EdgeMatch(rule: Rule, rows: seq<seq<int>>, n: nat, hp: nat, i: int, j: int)
    requires WellFormedRule(rule) && Rank(rule.window) == 2
  {
    var room := n + hp - (j - rule.center[1]);
    var w := rule.window.shape[1];
    if room >= w then MatchesDead2(rule, rows, i, j)
    else if room <= 0 then w == 1
    else if room == 1 then MatchesDead2(rule, rows, i, j)
    else false
  }

  /** A two-dimensional step of a non-empty grid raises exactly when some rule
      matches in a visited column past the right edge, and then the error is the
      out-of-bounds write. */
  lemma ApplyPlaneRaises(u: Universe, list: RuleList)
    requires Valid(u) && u.grid.Plane? && ValidRules(list.rules)
    requires RanksAre(list.rules, 2) && |list.rules| > 0 && u.n > 0
    ensures Apply(u, list).Err? <==>
              exists i, j, k :: MatchesPastEdge(list.rules, u.grid.rows, u.n,
                                               MaxExtent(list.rules, 0), MaxExtent(list.rules, 1), i, j, k)
    ensures Apply(u, list).Err? ==> Apply(u, list).error == ColumnOutOfBounds
  {
    ApplyPlaneOverflows(u, list);
    OverflowIsPastEdge(u.grid.rows, u.n, list.rules, MaxExtent(list.rules, 0), MaxExtent(list.rules, 1));
  }

  lemma ApplyPlaneOverflows(u: Universe, list: RuleList)
    requires Valid(u) && u.grid.Plane? && ValidRules(list.rules)
    requires RanksAre(list.rules, 2) && |list.rules| > 0 && u.n > 0
    ensures Apply(u, list).Err? <==>
              Overflow2(u.grid.rows, u.n, list.rules, MaxExtent(list.rules, 0), MaxExtent(list.rules, 1))
  {
  }

  lemma OverflowIsPastEdge(rows: seq<seq<int>>, n: nat, rules: seq<Rule>, vp: nat, hp: nat)
    requires Square(rows, n) && ValidRules(rules) && Rank2Rules(rules)
    requires forall r :: r in rules ==> r.window.shape[0] <= vp && r.window.shape[1] <= hp
    ensures Overflow2(rows, n, rules, vp, hp) <==>
              exists i, j, k :: MatchesPastEdge(rules, rows, n, vp, hp, i, j, k)
  {
    if Overflow2(rows, n, rules, vp, hp) {
      var row, col :| vp <= row < n + vp && n + hp <= col < n + vp &&
                      OverflowAt(rows, n, rules, vp, hp, row, col);
      var k := OverflowAtIsPastEdge(rows, n, rules, vp, hp, row, col, Pad2(rows, n, vp, hp));
    }
    if exists i, j, k :: MatchesPastEdge(rules, rows, n, vp, hp, i, j, k) {
      var i, j, k :| MatchesPastEdge(rules, rows, n, vp, hp, i, j, k);
      PastEdgeIsOverflowAt(rows, n, rules, vp, hp, i, j, k, Pad2(rows, n, vp, hp));
    }
  }

  lemma OverflowAtIsPastEdge(rows: seq<seq<int>>, n: nat, rules: seq<Rule>, vp: nat, hp: nat, row: int, col: int,
                             padded: seq<seq<int>>) returns (k: int)
    requires Square(rows, n) && ValidRules(rules) && Rank2Rules(rules)
    requires forall r :: r in rules ==> r.window.shape[0] <= vp && r.window.shape[1] <= hp
    requires padded == Pad2(rows, n, vp, hp)
    requires vp <= row < n + vp && n + hp <= col < n + vp && OverflowAt(rows, n, rules, vp, hp, row, col)
    ensures MatchesPastEdge(rules, rows, n, vp, hp, row - vp, col - hp, k)
  {
    k := MatchingIndex(rules, padded, n + 2 * hp, row, col);
    assert rules[k] in rules;
    Matches2PastEdge(rules[k], rows, n, vp, hp, row, col, padded);
  }

  lemma MatchingIndex(rules: seq<Rule>, padded: seq<seq<int>>, width: nat, row: int, col: int) returns (k: int)
    requires Rank2Rules(rules)
    requires forall r :: 0 <= r < |padded| ==> |padded[r]| == width
    requires AnyMatches2(rules, padded, width, row, col)
    ensures 0 <= k < |rules| && Matches2(rules[k], padded, width, row, col)
  {
    var r :| r in rules && Matches2(r, padded, width, row, col);
    k :| 0 <= k < |rules| && rules[k] == r;
  }

  lemma PastEdgeIsOverflowAt(rows: seq<seq<int>>, n: nat, rules: seq<Rule>, vp: nat, hp: nat, i: int, j: int, k: int,
                             padded: seq<seq<int>>)
    requires Square(rows, n) && ValidRules(rules) && Rank2Rules(rules)
    requires forall r :: r in rules ==> r.window.shape[0] <= vp && r.window.shape[1] <= hp
    requires padded == Pad2(rows, n, vp, hp)
    requires MatchesPastEdge(rules, rows, n, vp, hp, i, j, k)
    ensures Overflow2(rows, n, rules, vp, hp)
  {
    var row, col := i + vp, j + hp;
    assert row - vp == i && col - hp == j;
    assert rules[k] in rules;
    Matches2PastEdge(rules[k], rows, n, vp, hp, row, col, padded);
    assert OverflowAt(rows, n, rules, vp, hp, row, col);
  }

  /** Right of the grid the padded snapshot is still dead border, so a window
      whose slice keeps its full width matches there exactly when it equals the
      dead-bordered neighbourhood; a cut slice is broadcast as `EdgeMatch` says. */
  lemma Matches2PastEdge(rule: Rule, rows: seq<seq<int>>, n: nat, vp: nat, hp: nat, row: int, col: int,
                         padded: seq<seq<int>>)
    requires Square(rows, n)
    requires WellFormedRule(rule) && Rank(rule.window) == 2 && CenterInside(rule)
    requires rule.window.shape[0] <= vp && rule.window.shape[1] <= hp
    requires vp <= row < n + vp && hp <= col
    requires padded == Pad2(rows, n, vp, hp)
    ensures forall r :: 0 <= r < |padded| ==> |padded[r]| == n + 2 * hp
    ensures Matches2(rule, padded, n + 2 * hp, row, col) <==> EdgeMatch(rule, rows, n, hp, row - vp, col - hp)
  {
    Pad2Content(rows, n, vp, hp);
    var i, j := row - vp, col - hp;
    var top := row - rule.center[0];
    var left := col - rule.center[1];
    var h, w := rule.window.shape[0], rule.window.shape[1];
    var width := n + 2 * hp;
    assert 0 <= top && top + h <= |padded|;
    assert 0 <= left;
    if left + w <= width {
      forall a, b | 0 <= a < h && 0 <= b < w
        ensures (padded[top + a][left + b] == At2(rule.window, a, b)) <==>
                (At2(rule.window, a, b) == Dead2(rows, i - rule.center[0] + a, j - rule.center[1] + b))
      {
      }
    } else if left == width - 1 && w > 1 {
      assert KeptWidth(left, w, width) == 1;
      forall a, b | 0 <= a < h && 0 <= b < w
        ensures (padded[top + a][left] == At2(rule.window, a, b)) <==>
                (At2(rule.window, a, b) == Dead2(rows, i - rule.center[0] + a, j - rule.center[1] + b))
      {
        assert padded[top + a][left] == 0 == Dead2(rows, i - rule.center[0] + a, j - rule.center[1] + b);
      }
    }
  }

  /** With equal paddings every column is visited. */
  lemma SquarePaddingScansEveryColumn(n: nat, pad: nat, j: int)
    requires 0 <= j < n
    ensures Scanned(n, pad, pad, j)
  {
  }

  // ------------------------------------------------------------ the column bound as written

  /** A 1-by-3 window over a 1-by-1 grid: the dead-bordered neighbourhood of the
      only cell matches, yet the column loop (which ends at 1 + 1 while the
      columns start at 3) never visits it, so the cell keeps its old value. */
  lemma WideWindowsSkipRightColumns()
    ensures var rule := Rule(NdArray([1, 3], [0, 0, 0]), [0, 1], 1);
            var u := Universe(1, Plane([[0]]));
            && MatchesDead2(rule, u.grid.rows, 0, 0)
            && Apply(u, RuleList([rule])) == Ok(u)
  {
    var rule := Rule(NdArray([1, 3], [0, 0, 0]), [0, 1], 1);
    var u := Universe(1, Plane([[0]]));
    DeadWindow(rule, u.grid.rows, 0, 0);
    assert MaxExtent([rule], 0) == 1 && MaxExtent([rule], 1) == 3;
    ApplyPlaneSucceeds(u, RuleList([rule]));
    ApplyPlane(u, RuleList([rule]), 0, 0);
    Extensionality(Apply(u, RuleList([rule])).value, u);
  }

  /** A window of three dead cells, one row or one column, matches every
      neighbourhood of the all-dead 1-by-1 grid. */
  lemma DeadWindow(rule: Rule, rows: seq<seq<int>>, i: int, j: int)
    requires rule.window.data == [0, 0, 0] && rows == [[0]]
    requires rule.window.shape in {[1, 3], [3, 1]} && |rule.center| == 2
    requires 0 <= rule.center[0] < rule.window.shape[0] && 0 <= rule.center[1] < rule.window.shape[1]
    ensures ValidRules([rule]) && Rank(rule.window) == 2
    ensures MatchesDead2(rule, rows, i, j)
  {
    ProductOfPair(rule.window.shape);
    assert forall r :: r in [rule] ==> r == rule;
    forall a, b | 0 <= a < rule.window.shape[0] && 0 <= b < rule.window.shape[1]
      ensures At2(rule.window, a, b) == Dead2(rows, i - rule.center[0] + a, j - rule.center[1] + b)
    {
      RowMajorBound(a, b, rule.window.shape[0], rule.window.shape[1]);
    }
  }

  /** A 3-by-1 window of dead cells over a 1-by-1 grid: the column loop runs two
      columns past the right edge, the window matches the dead padding there, and
      the write outside the new grid raises. */
  lemma TallWindowsWritePastRightEdge()
    ensures var rule := Rule(NdArray([3, 1], [0, 0, 0]), [1, 0], 1);
            Apply(Universe(1, Plane([[0]])), RuleList([rule])) == Err(ColumnOutOfBounds)
  {
    var rule := Rule(NdArray([3, 1], [0, 0, 0]), [1, 0], 1);
    var u := Universe(1, Plane([[0]]));
    DeadWindow(rule, u.grid.rows, 0, 1);
    assert MaxExtent([rule], 0) == 3 && MaxExtent([rule], 1) == 1;
    var list := RuleList([rule]);
    assert RanksAre(list.rules, 2) && Rank2Rules(list.rules);
    assert MatchesPastEdge(list.rules, u.grid.rows, u.n, MaxExtent(list.rules, 0), MaxExtent(list.rules, 1), 0, 1, 0);
    ApplyPlaneRaises(u, list);
  }

  /** A 3-by-1 window of live cells over the dead 1-by-1 grid matches no
      neighbourhood, yet the column loop reaches a column whose slice of the
      padded snapshot is empty; numpy broadcasts the empty slice against the
      one-column window, the comparison holds vacuously, and the write past the
      right edge raises. */
  lemma EmptySliceMatchesPastRightEdge()
    ensures var rule := Rule(NdArray([3, 1], [1, 1, 1]), [1, 0], 0);
            var u := Universe(1, Plane([[0]]));
            && !MatchesDead2(rule, u.grid.rows, 0, 2)
            && Apply(u, RuleList([rule])) == Err(ColumnOutOfBounds)
  {
    var rule := Rule(NdArray([3, 1], [1, 1, 1]), [1, 0], 0);
    var u := Universe(1, Plane([[0]]));
    ProductOfPair(rule.window.shape);
    assert forall r :: r in [rule] ==> r == rule;
    assert ValidRules([rule]);
    assert At2(rule.window, 0, 0) == 1;
    var list := RuleList([rule]);
    assert MaxExtent(list.rules, 0) == 3 && MaxExtent(list.rules, 1) == 1;
    assert RanksAre(list.rules, 2) && Rank2Rules(list.rules);
    assert MatchesPastEdge(list.rules, u.grid.rows, u.n, MaxExtent(list.rules, 0), MaxExtent(list.rules, 1), 0, 2, 0);
    ApplyPlaneRaises(u, list);
  }
}
