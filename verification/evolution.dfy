/** One evolution step (`Universe.apply`): the grid is padded with dead cells by
    the largest window extent, every rule's window is compared with the padded
    neighbourhood of every cell, aligned at the rule's center, and the outcomes
    are written into a copy of the old grid.

    As written, the two branches differ:
    - one dimension: the first matching rule in list order decides the cell;
    - two dimensions: every matching rule overwrites the cell in list order, so
      the last match decides, and the column loop runs up to the extent plus the
      VERTICAL padding, so it scans the right columns only when the largest
      window height equals the largest window width.
    In both, an unmatched cell keeps its old value. */
module Evolution {
  import opened Outcomes
  import opened NdArrays
  import opened Rules
  import opened Universes

  /** Every rule is one the constructor accepts, with its center inside its window. */
  predicate ValidRules(rules: seq<Rule>)
  {
    forall r :: r in rules ==> WellFormedRule(r) && CenterInside(r)
  }

  predicate RanksAre(rules: seq<Rule>, d: nat)
  {
    forall r :: r in rules ==> Rank(r.window) == d
  }

  /** `max(rule.window.shape[axis] for rule in rules)`. */
  function MaxExtent(rules: seq<Rule>, axis: nat): (m: nat)
    requires |rules| > 0
    requires forall r :: r in rules ==> axis < |r.window.shape|
    ensures forall r :: r in rules ==> r.window.shape[axis] <= m
    ensures exists r :: r in rules && r.window.shape[axis] == m
  {
    if |rules| == 1 then rules[0].window.shape[axis]
    else
      var rest := MaxExtent(rules[1..], axis);
      assert forall r :: r in rules[1..] ==> r in rules;
      assert forall r :: r in rules ==> r == rules[0] || r in rules[1..];
      if rules[0].window.shape[axis] >= rest then rules[0].window.shape[axis] else rest
  }

  // ------------------------------------------------------------ one dimension

  /** The cell at position `k`, with everything outside the grid dead. */
  function Dead1(cells: seq<int>, k: int): (x: int)
    ensures Binary(cells) ==> x == 0 || x == 1
  {
    if 0 <= k < |cells| then cells[k] else 0
  }

  /** `np.pad(cells, p)`: `p` dead cells on either side. */
  function Pad1(cells: seq<int>, p: nat): (padded: seq<int>)
    ensures |padded| == |cells| + 2 * p
  {
    Zeros(p) + cells + Zeros(p)
  }

  /** Cell `k` of the padded line is cell `k - p` of the line, or dead outside it. */
  lemma Pad1Content(cells: seq<int>, p: nat)
    ensures forall k :: 0 <= k < |Pad1(cells, p)| ==> Pad1(cells, p)[k] == Dead1(cells, k - p)
  {
  }

  /** The slice of the padded grid starting `center` cells before `index` is the
      rule's window. */
  predicate Matches1(rule: Rule, padded: seq<int>, index: int)
    requires WellFormedRule(rule) && Rank(rule.window) == 1
  {
    var start := index - rule.center[0];
    var w := rule.window.shape[0];
    0 <= start && start + w <= |padded| && padded[start..start + w] == rule.window.data
  }

  /** The window equals the neighbourhood of cell `i` in a grid bounded by dead cells. */
  predicate MatchesDead1(rule: Rule, cells: seq<int>, i: int)
    requires WellFormedRule(rule) && Rank(rule.window) == 1
  {
    ProductOfSingle(rule.window.shape);
    forall a :: 0 <= a < rule.window.shape[0] ==>
      rule.window.data[a] == Dead1(cells, i - rule.center[0] + a)
  }

  /** The loop over rules for one cell, leaving at the first match. */
  function Scan1(rules: seq<Rule>, padded: seq<int>, index: int, current: int): int
    requires forall r :: r in rules ==> WellFormedRule(r) && Rank(r.window) == 1
  {
    if |rules| == 0 then current
    else if Matches1(rules[0], padded, index) then rules[0].becomes
    else Scan1(rules[1..], padded, index, current)
  }

  /** Some rule of the list matches at `index` of the padded grid. */
  predicate AnyMatches1(rules: seq<Rule>, padded: seq<int>, index: int)
    requires forall r :: r in rules ==> WellFormedRule(r) && Rank(r.window) == 1
  {
    exists r :: r in rules && Matches1(r, padded, index)
  }

  /** Every cell of a one-dimensional grid, from the snapshot padded by `p`. */
  function Step1(cells: seq<int>, rules: seq<Rule>, p: nat): (next: seq<int>)
    requires forall r :: r in rules ==> WellFormedRule(r) && Rank(r.window) == 1
    ensures |next| == |cells|
  {
    var padded := Pad1(cells, p);
    seq(|cells|, i requires 0 <= i < |cells| => Scan1(rules, padded, i + p, cells[i]))
  }

  // ------------------------------------------------------------ two dimensions

  /** The cell at (i, j), with everything outside the grid dead. */
  function Dead2(rows: seq<seq<int>>, i: int, j: int): int
  {
    if 0 <= i < |rows| && 0 <= j < |rows[i]| then rows[i][j] else 0
  }

  predicate Square(rows: seq<seq<int>>, n: nat)
  {
    |rows| == n && forall i :: 0 <= i < n ==> |rows[i]| == n
  }

  /** One row of `np.pad(rows, ((vp, vp), (hp, hp)))`. */
  function PadRow(row: seq<int>, hp: nat): (padded: seq<int>)
    ensures |padded| == |row| + 2 * hp
    ensures forall c :: 0 <= c < |padded| ==> padded[c] == if hp <= c < hp + |row| then row[c - hp] else 0
  {
    Zeros(hp) + row + Zeros(hp)
  }

  /** `np.pad(rows, ((vp, vp), (hp, hp)))`: `vp` dead rows above and below,
      `hp` dead columns left and right. */
  function Pad2(rows: seq<seq<int>>, n: nat, vp: nat, hp: nat): (padded: seq<seq<int>>)
    requires Square(rows, n)
    ensures |padded| == n + 2 * vp
    ensures forall r :: 0 <= r < |padded| ==> |padded[r]| == n + 2 * hp
  {
    var blank := Zeros(n + 2 * hp);
    var middle := seq(n, i requires 0 <= i < n => PadRow(rows[i], hp));
    var padded := seq(vp, _ => blank) + middle + seq(vp, _ => blank);
    PaddedRows(rows, n, vp, hp, blank, middle, padded);
    padded
  }

  /** Cell (r, c) of the padded grid is cell (r - vp, c - hp) of the grid, or dead
      outside it. */
  lemma Pad2Content(rows: seq<seq<int>>, n: nat, vp: nat, hp: nat)
    requires Square(rows, n)
    ensures forall r, c :: 0 <= r < n + 2 * vp && 0 <= c < n + 2 * hp ==>
              Pad2(rows, n, vp, hp)[r][c] == Dead2(rows, r - vp, c - hp)
  {
    var blank := Zeros(n + 2 * hp);
    var middle := seq(n, i requires 0 <= i < n => PadRow(rows[i], hp));
    var padded := seq(vp, _ => blank) + middle + seq(vp, _ => blank);
    PaddedRows(rows, n, vp, hp, blank, middle, padded);
    assert padded == Pad2(rows, n, vp, hp);
  }

  lemma PaddedRows(rows: seq<seq<int>>, n: nat, vp: nat, hp: nat,
                   blank: seq<int>, middle: seq<seq<int>>, padded: seq<seq<int>>)
    requires Square(rows, n)
    requires blank == Zeros(n + 2 * hp)
    requires |middle| == n && forall i :: 0 <= i < n ==> middle[i] == PadRow(rows[i], hp)
    requires padded == seq(vp, _ => blank) + middle + seq(vp, _ => blank)
    ensures |padded| == n + 2 * vp
    ensures forall r :: 0 <= r < |padded| ==> |padded[r]| == n + 2 * hp
    ensures forall r, c :: 0 <= r < n + 2 * vp && 0 <= c < n + 2 * hp ==>
              padded[r][c] == Dead2(rows, r - vp, c - hp)
  {
    forall r | 0 <= r < |padded|
      ensures |padded[r]| == n + 2 * hp
      ensures forall c :: 0 <= c < n + 2 * hp ==> padded[r][c] == Dead2(rows, r - vp, c - hp)
    {
      if vp <= r < vp + n {
        assert padded[r] == middle[r - vp];
        assert |rows[r - vp]| == n;
      } else {
        assert padded[r] == blank;
      }
    }
  }

  /** How many of the columns `left .. left + w` numpy's slice of a
      `width`-column array keeps: all of them, the part before the right end,
      or none when the slice starts at or past the end. */
  function KeptWidth(left: int, w: nat, width: nat): (kept: nat)
    ensures kept <= w
    ensures left + w <= width ==> kept == w
  {
    if left >= width then 0 else if left + w <= width then w else width - left
  }

  /** `np.all(padded[top:top + h, left:left + w] == window)`, the block whose
      corner is `center` above and left of (row, col).  The rows always fit in
      the padded grid; the columns may be cut at its right end, and then numpy
      broadcasts:
      - a slice that keeps every column is compared cell by cell;
      - an empty slice against a one-column window compares nothing, so it
        matches;
      - a one-column slice is compared with every column of the window.
      Any other cut gives shapes that do not broadcast, and such a comparison
      counts as no match. */
  predicate Matches2(rule: Rule, padded: seq<seq<int>>, width: nat, row: int, col: int)
    requires WellFormedRule(rule) && Rank(rule.window) == 2
    requires forall r :: 0 <= r < |padded| ==> |padded[r]| == width
  {
    var top := row - rule.center[0];
    var left := col - rule.center[1];
    var h, w := rule.window.shape[0], rule.window.shape[1];
    && 0 <= top && top + h <= |padded| && 0 <= left
    && var kept := KeptWidth(left, w, width);
       if kept == w then
         forall a, b :: 0 <= a < h && 0 <= b < w ==> padded[top + a][left + b] == At2(rule.window, a, b)
       else if kept == 0 then w == 1
       else if kept == 1 then
         forall a, b :: 0 <= a < h && 0 <= b < w ==> padded[top + a][left] == At2(rule.window, a, b)
       else false
  }

  /** The window equals the neighbourhood of cell (i, j) in a grid bounded by dead cells. */
  predicate MatchesDead2(rule: Rule, rows: seq<seq<int>>, i: int, j: int)
    requires WellFormedRule(rule) && Rank(rule.window) == 2
  {
    forall a, b :: 0 <= a < rule.window.shape[0] && 0 <= b < rule.window.shape[1] ==>
      At2(rule.window, a, b) == Dead2(rows, i - rule.center[0] + a, j - rule.center[1] + b)
  }

  /** The loop over rules for one cell: there is no early exit, so every match
      overwrites the cell and the last one stays. */
  function Scan2(rules: seq<Rule>, padded: seq<seq<int>>, width: nat, row: int, col: int, current: int): int
    requires forall r :: r in rules ==> WellFormedRule(r) && Rank(r.window) == 2
    requires forall r :: 0 <= r < |padded| ==> |padded[r]| == width
  {
    if |rules| == 0 then current
    else
      var written := if Matches2(rules[0], padded, width, row, col) then rules[0].becomes else current;
      Scan2(rules[1..], padded, width, row, col, written)
  }

  /** Column `j` of the new grid is visited by the column loop, whose range ends at
      the extent plus the vertical padding. */
  predicate Scanned(n: nat, vp: nat, hp: nat, j: int)
  {
    j + hp < n + vp
  }

  /** Every cell of an n-by-n grid, from the snapshot padded by (vp, hp); the cells
      of columns the loop does not reach keep their old value. */
  function Step2(rows: seq<seq<int>>, n: nat, rules: seq<Rule>, vp: nat, hp: nat): (next: seq<seq<int>>)
    requires Square(rows, n)
    requires forall r :: r in rules ==> WellFormedRule(r) && Rank(r.window) == 2
    ensures Square(next, n)
  {
    var padded := Pad2(rows, n, vp, hp);
    seq(n, i requires 0 <= i < n => seq(n, j requires 0 <= j < n =>
      if Scanned(n, vp, hp, j) then Scan2(rules, padded, n + 2 * hp, i + vp, j + hp, rows[i][j])
      else rows[i][j]))
  }

  /** When the vertical padding exceeds the horizontal one, the column loop also
      visits columns past the right edge; a match there writes outside the new
      grid, which raises. */
  predicate Overflow2(rows: seq<seq<int>>, n: nat, rules: seq<Rule>, vp: nat, hp: nat)
    requires Square(rows, n)
    requires forall r :: r in rules ==> WellFormedRule(r) && Rank(r.window) == 2
  {
    exists row, col :: vp <= row < n + vp && n + hp <= col < n + vp &&
      OverflowAt(rows, n, rules, vp, hp, row, col)
  }

  /** Some rule matches at (row, col) of the padded grid. */
  predicate OverflowAt(rows: seq<seq<int>>, n: nat, rules: seq<Rule>, vp: nat, hp: nat, row: int, col: int)
    requires Square(rows, n)
    requires forall r :: r in rules ==> WellFormedRule(r) && Rank(r.window) == 2
  {
    AnyMatches2(rules, Pad2(rows, n, vp, hp), n + 2 * hp, row, col)
  }

  /** Some rule of the list matches at (row, col) of the padded grid. */
  predicate AnyMatches2(rules: seq<Rule>, padded: seq<seq<int>>, width: nat, row: int, col: int)
    requires forall r :: r in rules ==> WellFormedRule(r) && Rank(r.window) == 2
    requires forall r :: 0 <= r < |padded| ==> |padded[r]| == width
  {
    exists r :: r in rules && Matches2(r, padded, width, row, col)
  }

  // ------------------------------------------------------------ the step

  /** `apply(rules)`: rejects a rule of the wrong rank and an empty list before
      anything changes, then computes every new cell from the padded snapshot of
      the old grid. */
  function Apply(u: Universe, list: RuleList): (r: Result<Universe>)
    requires Valid(u) && ValidRules(list.rules)
    ensures !RanksAre(list.rules, Dimensions(u)) ==> r == Err(RuleRankMismatch)
    ensures RanksAre(list.rules, Dimensions(u)) && |list.rules| == 0 ==> r == Err(NoRules)
    ensures u.grid.Line? ==> (r.Ok? <==> RanksAre(list.rules, 1) && |list.rules| > 0)
    ensures u.grid.Plane? && u.n == 0 && RanksAre(list.rules, 2) && |list.rules| > 0 ==>
              r == Err(PadShapeMismatch)
    ensures r.Err? ==> r.error in {RuleRankMismatch, NoRules, PadShapeMismatch, ColumnOutOfBounds}
    ensures r == Err(PadShapeMismatch) ==> u.grid.Plane? && u.n == 0
    ensures u.grid.Plane? && u.n > 0 && RanksAre(list.rules, 2) && |list.rules| > 0 && r.Err? ==>
              r.error == ColumnOutOfBounds
    ensures r.Ok? ==> Valid(r.value) && r.value.n == u.n && Dimensions(r.value) == Dimensions(u)
  {
    var rules := Iterate(list);
    if !RanksAre(rules, Dimensions(u)) then Err(RuleRankMismatch)
    else if |rules| == 0 then Err(NoRules)
    else
      match u.grid
      case Line(cells) =>
        var p := MaxExtent(rules, 0);
        Ok(Universe(u.n, Line(Step1(cells, rules, p))))
      case Plane(rows) =>
        var vp := MaxExtent(rules, 0);
        var hp := MaxExtent(rules, 1);
        if u.n == 0 then Err(PadShapeMismatch)
        else if Overflow2(rows, u.n, rules, vp, hp) then Err(ColumnOutOfBounds)
        else Ok(Universe(u.n, Plane(Step2(rows, u.n, rules, vp, hp))))
  }
}
