/** Conway's Game of Life as a rule list: one rule per 3-by-3 neighbourhood whose
    center changes, built by enumerating every subset of the nine positions. */
module Life {
  import opened Outcomes
  import opened NdArrays
  import opened Rules
  import opened Universes

  function Range(n: nat): (r: seq<int>)
    ensures |r| == n && forall k :: 0 <= k < n ==> r[k] == k
  {
    seq(n, k => k)
  }

  function Prepend(x: int, cs: seq<seq<int>>): (r: seq<seq<int>>)
    ensures |r| == |cs| && forall k :: 0 <= k < |cs| ==> r[k] == [x] + cs[k]
  {
    seq(|cs|, k requires 0 <= k < |cs| => [x] + cs[k])
  }

  /** `itertools.combinations(s, r)`: the r-element subsequences of `s`, those
      starting with `s[0]` first. */
  function Combinations(s: seq<int>, r: nat): seq<seq<int>>
    decreases |s|
  {
    if r == 0 then [[]]
    else if |s| == 0 then []
    else Prepend(s[0], Combinations(s[1..], r - 1)) + Combinations(s[1..], r)
  }

  /** The combinations of every size from `r` up to `|s|`, smallest size first. */
  function PowersetFrom(s: seq<int>, r: nat): seq<seq<int>>
    decreases |s| + 1 - r
  {
    if r > |s| then [] else Combinations(s, r) + PowersetFrom(s, r + 1)
  }

  /** `powerset(s)`: `chain.from_iterable(combinations(s, r) for r in range(len(s) + 1))`. */
  function Powerset(s: seq<int>): seq<seq<int>>
  {
    PowersetFrom(s, 0)
  }

  /** `for i in subset: state[i] = 1`. */
  function SetOnes(state: seq<int>, subset: seq<int>): (r: seq<int>)
    requires forall k :: 0 <= k < |subset| ==> 0 <= subset[k] < |state|
    ensures |r| == |state|
    ensures forall k :: 0 <= k < |state| ==> r[k] == if k in subset then 1 else state[k]
    decreases |subset|
  {
    if |subset| == 0 then state
    else
      var rest := SetOnes(state[subset[0] := 1], subset[1..]);
      assert forall k :: k in subset <==> k == subset[0] || k in subset[1..];
      rest
  }

  /** The 3-by-3 state for one subset of the positions 0..8: the listed positions
      alive, the rest dead, laid out row by row. */
  function StateFor(subset: seq<int>): (w: NdArray)
    requires Within(subset, Range(9))
    ensures w.shape == [3, 3] && WellFormed(w) && |w.data| == 9
    ensures forall k :: 0 <= k < 9 ==> w.data[k] == if k in subset then 1 else 0
  {
    ProductOfPair([3, 3]);
    forall k | 0 <= k < |subset|
      ensures 0 <= subset[k] < 9
    {
      var m :| 0 <= m < 9 && Range(9)[m] == subset[k];
    }
    NdArray([3, 3], SetOnes(Zeros(9), subset))
  }

  /** Every element of `c` is taken from `s`. */
  predicate Within(c: seq<int>, s: seq<int>)
  {
    forall k :: 0 <= k < |c| ==> c[k] in s
  }

  lemma PowersetUnfold(s: seq<int>, r: nat)
    requires r <= |s|
    ensures PowersetFrom(s, r) == Combinations(s, r) + PowersetFrom(s, r + 1)
  {
  }

  lemma CombinationsUnfold(s: seq<int>, r: nat)
    requires r > 0 && |s| > 0
    ensures Combinations(s, r) == Prepend(s[0], Combinations(s[1..], r - 1)) + Combinations(s[1..], r)
  {
  }

  lemma InConcat<T>(x: T, a: seq<T>, b: seq<T>)
    ensures x in a + b <==> x in a || x in b
  {
  }

  /** Two lists of selections from `s`, joined, are selections from `s`. */
  lemma WithinConcat(a: seq<seq<int>>, b: seq<seq<int>>, s: seq<int>)
    requires forall c :: c in a ==> Within(c, s)
    requires forall c :: c in b ==> Within(c, s)
    ensures forall c :: c in a + b ==> Within(c, s)
  {
    forall c | c in a + b
      ensures Within(c, s)
    {
      InConcat(c, a, b);
    }
  }

  lemma {:induction false} CombinationsWithin(s: seq<int>, r: nat)
    ensures forall c :: c in Combinations(s, r) ==> Within(c, s)
    decreases |s|
  {
    if r > 0 && |s| > 0 {
      CombinationsWithin(s[1..], r - 1);
      CombinationsWithin(s[1..], r);
      var P, Q := Prepend(s[0], Combinations(s[1..], r - 1)), Combinations(s[1..], r);
      CombinationsUnfold(s, r);
      assert forall x :: x in s[1..] ==> x in s;
      forall c | c in P + Q
        ensures Within(c, s)
      {
        InConcat(c, P, Q);
        if c in P {
          var m :| 0 <= m < |P| && P[m] == c;
          var tail := Combinations(s[1..], r - 1)[m];
          assert c == [s[0]] + tail && Within(tail, s[1..]);
          forall k | 0 <= k < |c|
            ensures c[k] in s
          {
            if k > 0 {
              assert c[k] == tail[k - 1];
            }
          }
        } else {
          assert Within(c, s[1..]);
        }
      }
    }
  }

  lemma {:induction false} PowersetWithin(s: seq<int>, r: nat)
    ensures forall c :: c in PowersetFrom(s, r) ==> Within(c, s)
    decreases |s| + 1 - r
  {
    if r <= |s| {
      CombinationsWithin(s, r);
      PowersetWithin(s, r + 1);
      PowersetUnfold(s, r);
      WithinConcat(Combinations(s, r), PowersetFrom(s, r + 1), s);
    }
  }

  /** `states`: the 3-by-3 state of every subset, in powerset order. */
  function States(): (states: seq<NdArray>)
    ensures |states| == |Powerset(Range(9))|
    ensures forall q :: 0 <= q < |states| ==> states[q].shape == [3, 3] && WellFormed(states[q])
  {
    SubsetsOfNine();
    StatesOf(Powerset(Range(9)))
  }

  lemma SubsetsOfNine()
    ensures forall q :: 0 <= q < |Powerset(Range(9))| ==> Within(Powerset(Range(9))[q], Range(9))
  {
    PowersetElementsWithin(Range(9));
  }

  lemma PowersetElementsWithin(s: seq<int>)
    ensures forall q :: 0 <= q < |Powerset(s)| ==> Within(Powerset(s)[q], s)
  {
    PowersetWithin(s, 0);
    assert forall q :: 0 <= q < |Powerset(s)| ==> Powerset(s)[q] in Powerset(s);
  }

  function StatesOf(subsets: seq<seq<int>>): (states: seq<NdArray>)
    requires forall q :: 0 <= q < |subsets| ==> Within(subsets[q], Range(9))
    ensures |states| == |subsets|
    ensures forall q :: 0 <= q < |subsets| ==> states[q] == StateFor(subsets[q])
    ensures forall q :: 0 <= q < |states| ==> states[q].shape == [3, 3] && WellFormed(states[q])
  {
    seq(|subsets|, q requires 0 <= q < |subsets| => StateFor(subsets[q]))
  }

  function Sum(xs: seq<int>): int
  {
    if |xs| == 0 then 0 else xs[0] + Sum(xs[1..])
  }

  /** The rule the loop body adds for one state, if any: a live center with
      fewer than two or more than three live neighbours dies, a dead center with
      exactly three is born. */
  function LifeRule(state: NdArray): Option<Rule>
    requires state.shape == [3, 3] && WellFormed(state)
  {
    var isCellAlive := At2(state, 1, 1) == 1;
    var numAliveNeighbours := Sum(state.data) - if isCellAlive then 1 else 0;
    if isCellAlive && numAliveNeighbours < 2 then Some(MakeRule(state, Tuple([1, 1]), 0).value)
    else if isCellAlive && numAliveNeighbours > 3 then Some(MakeRule(state, Tuple([1, 1]), 0).value)
    else if !isCellAlive && numAliveNeighbours == 3 then Some(MakeRule(state, Tuple([1, 1]), 1).value)
    else None
  }

  function AddLifeRule(list: RuleList, state: NdArray): RuleList
    requires state.shape == [3, 3] && WellFormed(state)
  {
    match LifeRule(state)
    case None => list
    case Some(rule) => AddRule(list, rule)
  }

  function AddLifeRules(list: RuleList, states: seq<NdArray>): RuleList
    requires forall q :: 0 <= q < |states| ==> states[q].shape == [3, 3] && WellFormed(states[q])
    decreases |states|
  {
    if |states| == 0 then list
    else AddLifeRules(AddLifeRule(list, states[0]), states[1..])
  }

  /** `get_life_rule_list()`. */
  function LifeRuleList(): RuleList
  {
    AddLifeRules(NewRuleList(None), States())
  }

  /** The glider `life_sim` places on its 20-by-20 universe. */
  function GliderCells(): seq<Location>
  {
    [Coords([2, 1]), Coords([3, 2]), Coords([1, 3]), Coords([2, 3]), Coords([3, 3])]
  }
}
