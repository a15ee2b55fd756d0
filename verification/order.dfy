/** When the order of a rule list does not matter: all windows have the same
    shape and center, and equal windows have equal outcomes.  Then at most one
    window can match a cell (up to duplicates), so the first-match and the
    last-match loops pick the same outcome whatever the order. */
module RuleOrder {
  import opened NdArrays
  import opened Rules
  import opened Universes
  import opened Evolution
  import opened StepFacts

  /** The two lists hold the same rules, possibly in another order or with
      other repetitions. */
  predicate SameRules(a: seq<Rule>, b: seq<Rule>)
  {
    (forall r :: r in a ==> r in b) && (forall r :: r in b ==> r in a)
  }

  /** Every window has the same shape and the same center. */
  predicate SharedFrame(rules: seq<Rule>)
  {
    forall r1, r2 :: r1 in rules && r2 in rules ==>
      r1.window.shape == r2.window.shape && r1.center == r2.center
  }

  /** Rules with the same window agree on the outcome. */
  predicate OutcomeByWindow(rules: seq<Rule>)
  {
    forall r1, r2 :: r1 in rules && r2 in rules && r1.window == r2.window ==> r1.becomes == r2.becomes
  }

  lemma MaxExtentByMembership(a: seq<Rule>, b: seq<Rule>, axis: nat)
    requires |a| > 0 && SameRules(a, b)
    requires forall r :: r in a ==> axis < |r.window.shape|
    ensures |b| > 0 && MaxExtent(a, axis) == MaxExtent(b, axis)
  {
    assert a[0] in b;
    var ra :| ra in a && ra.window.shape[axis] == MaxExtent(a, axis);
    var rb :| rb in b && rb.window.shape[axis] == MaxExtent(b, axis);
    assert ra in b && rb in a;
  }

  /** Row-major position `k` of an h-by-w array is row k / w, column k % w. */
  lemma DivBound(k: int, h: nat, w: nat)
    requires 0 <= k < h * w
    ensures w > 0 && 0 <= k / w < h && 0 <= k % w < w && (k / w) * w + k % w == k
  {
  }

  /** Two one-dimensional windows of the same shape and center that both match
      at the same place are equal. */
  lemma SameWindow1(r1: Rule, r2: Rule, padded: seq<int>, index: int)
    requires WellFormedRule(r1) && Rank(r1.window) == 1 && WellFormedRule(r2) && Rank(r2.window) == 1
    requires r1.window.shape == r2.window.shape && r1.center == r2.center
    requires Matches1(r1, padded, index) && Matches1(r2, padded, index)
    ensures r1.window == r2.window
  {
  }

  lemma SameWindow2(r1: Rule, r2: Rule, padded: seq<seq<int>>, width: nat, row: int, col: int)
    requires WellFormedRule(r1) && Rank(r1.window) == 2 && WellFormedRule(r2) && Rank(r2.window) == 2
    requires forall r :: 0 <= r < |padded| ==> |padded[r]| == width
    requires r1.window.shape == r2.window.shape && r1.center == r2.center
    requires col - r1.center[1] + r1.window.shape[1] <= width
    requires Matches2(r1, padded, width, row, col) && Matches2(r2, padded, width, row, col)
    ensures r1.window == r2.window
  {
    var h := r1.window.shape[0];
    var w := r1.window.shape[1];
    ProductOfPair(r1.window.shape);
    forall k | 0 <= k < |r1.window.data|
      ensures r1.window.data[k] == r2.window.data[k]
    {
      DivBound(k, h, w);
      var a, b := k / w, k % w;
      assert a * w + b == k;
      assert At2(r1.window, a, b) == At2(r2.window, a, b);
    }
  }

  /** The first-match loop gives the same cell for two orderings of such a list. */
  lemma Scan1ByMembership(rules1: seq<Rule>, rules2: seq<Rule>, padded: seq<int>, index: int, current: int)
    requires Rank1Rules(rules1) && SameRules(rules1, rules2)
    requires SharedFrame(rules1) && OutcomeByWindow(rules1)
    ensures Rank1Rules(rules2)
    ensures Scan1(rules1, padded, index, current) == Scan1(rules2, padded, index, current)
  {
    if AnyMatches1(rules1, padded, index) {
      var r0 :| r0 in rules1 && Matches1(r0, padded, index);
      forall r | r in rules1 && Matches1(r, padded, index)
        ensures r.becomes == r0.becomes
      {
        SameWindow1(r, r0, padded, index);
      }
      Scan1Agreeing(rules1, padded, index, current, r0.becomes);
      Scan1Agreeing(rules2, padded, index, current, r0.becomes);
    } else {
      Scan1Agreeing(rules1, padded, index, current, current);
      Scan1Agreeing(rules2, padded, index, current, current);
    }
  }

  /** The same for the last-match loop, where every window's slice keeps its
      full width (a cut slice is broadcast, and then different windows can
      match it). */
  lemma Scan2ByMembership(rules1: seq<Rule>, rules2: seq<Rule>, padded: seq<seq<int>>, width: nat,
                          row: int, col: int, current: int)
    requires Rank2Rules(rules1) && SameRules(rules1, rules2)
    requires forall r :: 0 <= r < |padded| ==> |padded[r]| == width
    requires SharedFrame(rules1) && OutcomeByWindow(rules1)
    requires forall r :: r in rules1 ==> col - r.center[1] + r.window.shape[1] <= width
    ensures Rank2Rules(rules2)
    ensures Scan2(rules1, padded, width, row, col, current) == Scan2(rules2, padded, width, row, col, current)
  {
    if AnyMatches2(rules1, padded, width, row, col) {
      var r0 :| r0 in rules1 && Matches2(r0, padded, width, row, col);
      forall r | r in rules1 && Matches2(r, padded, width, row, col)
        ensures r.becomes == r0.becomes
      {
        SameWindow2(r, r0, padded, width, row, col);
      }
      Scan2Agreeing(rules1, padded, width, row, col, current, r0.becomes);
      Scan2Agreeing(rules2, padded, width, row, col, current, r0.becomes);
    } else {
      Scan2Agreeing(rules1, padded, width, row, col, current, current);
      Scan2Agreeing(rules2, padded, width, row, col, current, current);
    }
  }

  lemma Step1ByMembership(cells: seq<int>, rules1: seq<Rule>, rules2: seq<Rule>, p: nat)
    requires Rank1Rules(rules1) && SameRules(rules1, rules2)
    requires SharedFrame(rules1) && OutcomeByWindow(rules1)
    ensures Rank1Rules(rules2)
    ensures Step1(cells, rules1, p) == Step1(cells, rules2, p)
  {
    var padded := Pad1(cells, p);
    forall i | 0 <= i < |cells|
      ensures Step1(cells, rules1, p)[i] == Step1(cells, rules2, p)[i]
    {
      Scan1ByMembership(rules1, rules2, padded, i + p, cells[i]);
    }
  }

  lemma Step2ByMembership(rows: seq<seq<int>>, n: nat, rules1: seq<Rule>, rules2: seq<Rule>, vp: nat, hp: nat)
    requires Square(rows, n)
    requires Rank2Rules(rules1) && SameRules(rules1, rules2)
    requires SharedFrame(rules1) && OutcomeByWindow(rules1)
    requires ValidRules(rules1) && forall r :: r in rules1 ==> r.window.shape[1] <= hp
    ensures Rank2Rules(rules2)
    ensures Step2(rows, n, rules1, vp, hp) == Step2(rows, n, rules2, vp, hp)
  {
    var padded := Pad2(rows, n, vp, hp);
    var next1, next2 := Step2(rows, n, rules1, vp, hp), Step2(rows, n, rules2, vp, hp);
    forall i | 0 <= i < n
      ensures next1[i] == next2[i]
    {
      forall j | 0 <= j < n
        ensures next1[i][j] == next2[i][j]
      {
        Scan2ByMembership(rules1, rules2, padded, n + 2 * hp, i + vp, j + hp, rows[i][j]);
      }
    }
  }

  lemma Overflow2ByMembership(rows: seq<seq<int>>, n: nat, rules1: seq<Rule>, rules2: seq<Rule>, vp: nat, hp: nat)
    requires Square(rows, n)
    requires Rank2Rules(rules1) && SameRules(rules1, rules2)
    ensures Rank2Rules(rules2)
    ensures Overflow2(rows, n, rules1, vp, hp) == Overflow2(rows, n, rules2, vp, hp)
  {
    forall row, col
      ensures OverflowAt(rows, n, rules1, vp, hp, row, col) == OverflowAt(rows, n, rules2, vp, hp, row, col)
    {
    }
  }

  /** `apply` with a reordered list of such rules has the same effect, errors
      included. */
  lemma ApplyIgnoresOrder(u: Universe, list1: RuleList, list2: RuleList)
    requires Valid(u) && ValidRules(list1.rules) && SameRules(list1.rules, list2.rules)
    requires SharedFrame(list1.rules) && OutcomeByWindow(list1.rules)
    ensures ValidRules(list2.rules)
    ensures Apply(u, list1) == Apply(u, list2)
  {
    var rules1, rules2 := list1.rules, list2.rules;
    assert RanksAre(rules1, Dimensions(u)) == RanksAre(rules2, Dimensions(u));
    if RanksAre(rules1, Dimensions(u)) && |rules1| > 0 {
      MaxExtentByMembership(rules1, rules2, 0);
      match u.grid
      case Line(cells) =>
        Step1ByMembership(cells, rules1, rules2, MaxExtent(rules1, 0));
      case Plane(rows) =>
        MaxExtentByMembership(rules1, rules2, 1);
        var vp, hp := MaxExtent(rules1, 0), MaxExtent(rules1, 1);
        Overflow2ByMembership(rows, u.n, rules1, rules2, vp, hp);
        Step2ByMembership(rows, u.n, rules1, rules2, vp, hp);
    }
  }
}
