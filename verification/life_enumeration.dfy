/** What the subset enumeration behind the Life rule list produces: every 3-by-3
    array of dead and alive cells exactly once, 512 in all. */
module LifeEnumeration {
  import opened NdArrays
  import opened Universes
  import opened Life

  predicate Increasing(t: seq<int>)
  {
    forall a, b :: 0 <= a < b < |t| ==> t[a] < t[b]
  }

  predicate Distinct<T(==)>(xs: seq<T>)
  {
    forall a, b :: 0 <= a < b < |xs| ==> xs[a] != xs[b]
  }

  lemma ConcatDistinct<T>(p: seq<T>, q: seq<T>)
    requires Distinct(p) && Distinct(q)
    requires forall a, b :: 0 <= a < |p| && 0 <= b < |q| ==> p[a] != q[b]
    ensures Distinct(p + q)
  {
    forall a, b | 0 <= a < b < |p + q|
      ensures (p + q)[a] != (p + q)[b]
    {
      if b < |p| {
      } else if a < |p| {
        assert (p + q)[b] == q[b - |p|];
      } else {
        assert (p + q)[a] == q[a - |p|] && (p + q)[b] == q[b - |p|];
      }
    }
  }

  /** In an increasing sequence, everything after the head is above it. */
  lemma TailAboveHead(s: seq<int>)
    requires Increasing(s) && |s| > 0
    ensures forall x :: x in s[1..] ==> s[0] < x
    ensures forall x :: x in s ==> x == s[0] || x in s[1..]
  {
    forall x | x in s[1..]
      ensures s[0] < x
    {
      var m :| 0 <= m < |s[1..]| && s[1..][m] == x;
      assert x == s[m + 1];
    }
    forall x | x in s
      ensures x == s[0] || x in s[1..]
    {
      var m :| 0 <= m < |s| && s[m] == x;
      if m > 0 {
        assert x == s[1..][m - 1];
      }
    }
  }

  lemma RangeIncreasing(n: nat)
    ensures Increasing(Range(n))
  {
  }

  // ------------------------------------------------------------ combinations

  lemma ConsIncreasing(x: int, tail: seq<int>)
    requires Increasing(tail) && forall k :: 0 <= k < |tail| ==> x < tail[k]
    ensures Increasing([x] + tail)
  {
    var c := [x] + tail;
    forall a, b | 0 <= a < b < |c|
      ensures c[a] < c[b]
    {
      assert c[b] == tail[b - 1];
      if a > 0 {
        assert c[a] == tail[a - 1];
      }
    }
  }

  /** Each combination has `r` elements, in the order they have in `s`. */
  lemma {:induction false} CombinationsSound(s: seq<int>, r: nat)
    requires Increasing(s)
    ensures forall m :: 0 <= m < |Combinations(s, r)| ==>
              |Combinations(s, r)[m]| == r && Increasing(Combinations(s, r)[m])
    decreases |s|
  {
    if r > 0 && |s| > 0 {
      CombinationsSound(s[1..], r - 1);
      CombinationsSound(s[1..], r);
      CombinationsWithin(s[1..], r - 1);
      TailAboveHead(s);
      var C1, Q := Combinations(s[1..], r - 1), Combinations(s[1..], r);
      var P := Prepend(s[0], C1);
      assert Combinations(s, r) == P + Q;
      forall m | 0 <= m < |P + Q|
        ensures |(P + Q)[m]| == r && Increasing((P + Q)[m])
      {
        if m < |P| {
          var tail := C1[m];
          assert (P + Q)[m] == [s[0]] + tail;
          assert tail in C1;
          forall k | 0 <= k < |tail|
            ensures s[0] < tail[k]
          {
            assert tail[k] in s[1..];
          }
          ConsIncreasing(s[0], tail);
        } else {
          assert (P + Q)[m] == Q[m - |P|];
        }
      }
    }
  }

  /** There are no combinations of more elements than `s` has. */
  lemma {:induction false} CombinationsEmpty(s: seq<int>, r: nat)
    requires r > |s|
    ensures Combinations(s, r) == []
    decreases |s|
  {
    if |s| > 0 {
      var tail := s[1..];
      assert r - 1 > |tail|;
      CombinationsEmpty(tail, r - 1);
      CombinationsEmpty(tail, r);
      CombinationsUnfold(s, r);
      assert Prepend(s[0], []) == [];
    }
  }

  /** Every increasing selection from an increasing `s` is one of its combinations. */
  lemma {:induction false} CombinationsComplete(s: seq<int>, t: seq<int>)
    requires Increasing(s) && Increasing(t) && Within(t, s)
    ensures t in Combinations(s, |t|)
    decreases |s|
  {
    if |t| > 0 {
      assert t[0] in s;
      if t[0] == s[0] {
        HeadTaken(s, t);
        CombinationsComplete(s[1..], t[1..]);
        PrependedIsCombination(s, t);
      } else {
        HeadSkipped(s, t);
        CombinationsComplete(s[1..], t);
        CombinationsUnfold(s, |t|);
        InConcat(t, Prepend(s[0], Combinations(s[1..], |t| - 1)), Combinations(s[1..], |t|));
      }
    }
  }

  /** A selection that starts with `s[0]` continues with a selection from the rest. */
  lemma HeadTaken(s: seq<int>, t: seq<int>)
    requires Increasing(s) && Increasing(t) && Within(t, s)
    requires |t| > 0 && |s| > 0 && t[0] == s[0]
    ensures Increasing(t[1..]) && Within(t[1..], s[1..])
  {
    TailAboveHead(s);
    var tail := t[1..];
    forall k | 0 <= k < |tail|
      ensures tail[k] in s[1..]
    {
      assert tail[k] == t[k + 1] && t[0] < t[k + 1];
    }
  }

  /** A selection that does not start with `s[0]` is a selection from the rest. */
  lemma HeadSkipped(s: seq<int>, t: seq<int>)
    requires Increasing(s) && Increasing(t) && Within(t, s)
    requires |t| > 0 && |s| > 0 && t[0] != s[0]
    ensures Within(t, s[1..])
  {
    TailAboveHead(s);
    forall k | 0 <= k < |t|
      ensures t[k] in s[1..]
    {
      assert t[k] in s;
      if k > 0 {
        assert t[0] < t[k];
      }
    }
  }

  /** `s[0]` followed by a combination of the rest is a combination of `s`. */
  lemma PrependedIsCombination(s: seq<int>, t: seq<int>)
    requires |t| > 0 && |s| > 0 && t[0] == s[0]
    requires t[1..] in Combinations(s[1..], |t| - 1)
    ensures t in Combinations(s, |t|)
  {
    var C := Combinations(s[1..], |t| - 1);
    var m :| 0 <= m < |C| && C[m] == t[1..];
    assert t == [s[0]] + t[1..];
    assert Prepend(s[0], C)[m] == t;
    CombinationsUnfold(s, |t|);
    InConcat(t, Prepend(s[0], C), Combinations(s[1..], |t|));
  }

  lemma {:induction false} CombinationsDistinct(s: seq<int>, r: nat)
    requires Increasing(s)
    ensures Distinct(Combinations(s, r))
    decreases |s|
  {
    if r > 0 && |s| > 0 {
      CombinationsDistinct(s[1..], r - 1);
      CombinationsDistinct(s[1..], r);
      CombinationsSound(s[1..], r);
      CombinationsWithin(s[1..], r);
      TailAboveHead(s);
      var C1, Q := Combinations(s[1..], r - 1), Combinations(s[1..], r);
      var P := Prepend(s[0], C1);
      forall a, b | 0 <= a < b < |P|
        ensures P[a] != P[b]
      {
        assert P[a][1..] == C1[a] && P[b][1..] == C1[b];
      }
      forall a, b | 0 <= a < |P| && 0 <= b < |Q|
        ensures P[a] != Q[b]
      {
        assert Q[b] in Q;
        assert Q[b][0] in s[1..];
      }
      ConcatDistinct(P, Q);
    }
  }

  // ------------------------------------------------------------ the powerset

  lemma {:induction false} PowersetSound(s: seq<int>, r: nat)
    requires Increasing(s)
    ensures forall m :: 0 <= m < |PowersetFrom(s, r)| ==>
              r <= |PowersetFrom(s, r)[m]| && Increasing(PowersetFrom(s, r)[m])
    decreases |s| + 1 - r
  {
    if r <= |s| {
      CombinationsSound(s, r);
      PowersetSound(s, r + 1);
      var P, Q := Combinations(s, r), PowersetFrom(s, r + 1);
      assert PowersetFrom(s, r) == P + Q;
      forall m | 0 <= m < |P + Q|
        ensures r <= |(P + Q)[m]| && Increasing((P + Q)[m])
      {
        if m >= |P| {
          assert (P + Q)[m] == Q[m - |P|];
        }
      }
    }
  }

  lemma PowersetComplete(s: seq<int>, r: nat, t: seq<int>)
    requires Increasing(s) && Increasing(t) && Within(t, s) && r <= |t|
    ensures t in PowersetFrom(s, r)
  {
    SelectionFits(s, t);
    PowersetContains(s, r, t);
  }

  /** A combination of some size is among the selections of every size up to it. */
  lemma {:induction false} PowersetContains(s: seq<int>, r: nat, t: seq<int>)
    requires |t| <= |s| && t in Combinations(s, |t|) && r <= |t|
    ensures t in PowersetFrom(s, r)
    decreases |t| - r
  {
    if r < |t| {
      PowersetContains(s, r + 1, t);
      PowersetKeeps(s, r, t);
    } else {
      PowersetStarts(s, t);
    }
  }

  /** The selections of size at least r + 1 are among those of size at least r. */
  lemma PowersetKeeps(s: seq<int>, r: nat, t: seq<int>)
    requires r < |s| && t in PowersetFrom(s, r + 1)
    ensures t in PowersetFrom(s, r)
  {
    PowersetUnfold(s, r);
    InConcat(t, Combinations(s, r), PowersetFrom(s, r + 1));
  }

  /** A combination of size r is among the selections of size at least r. */
  lemma PowersetStarts(s: seq<int>, t: seq<int>)
    requires |t| <= |s| && t in Combinations(s, |t|)
    ensures t in PowersetFrom(s, |t|)
  {
    PowersetUnfold(s, |t|);
    InConcat(t, Combinations(s, |t|), PowersetFrom(s, |t| + 1));
  }

  /** An increasing selection from an increasing `s` is no longer than `s`, and is
      one of its combinations. */
  lemma SelectionFits(s: seq<int>, t: seq<int>)
    requires Increasing(s) && Increasing(t) && Within(t, s)
    ensures |t| <= |s| && t in Combinations(s, |t|)
  {
    CombinationsComplete(s, t);
    if |t| > |s| {
      CombinationsEmpty(s, |t|);
      assert false;
    }
  }

  lemma {:induction false} PowersetDistinct(s: seq<int>, r: nat)
    requires Increasing(s)
    ensures Distinct(PowersetFrom(s, r))
    decreases |s| + 1 - r
  {
    if r <= |s| {
      CombinationsDistinct(s, r);
      CombinationsSound(s, r);
      PowersetDistinct(s, r + 1);
      PowersetSound(s, r + 1);
      var P, Q := Combinations(s, r), PowersetFrom(s, r + 1);
      assert forall a, b :: 0 <= a < |P| && 0 <= b < |Q| ==> |P[a]| < |Q[b]|;
      ConcatDistinct(P, Q);
    }
  }

  function Binomial(n: nat, r: nat): nat
  {
    if r == 0 then 1 else if n == 0 then 0 else Binomial(n - 1, r - 1) + Binomial(n - 1, r)
  }

  /** The number of subsets of an n-element set with at least `r` elements. */
  function BinomialsFrom(n: nat, r: nat): nat
    decreases n + 1 - r
  {
    if r > n then 0 else Binomial(n, r) + BinomialsFrom(n, r + 1)
  }

  lemma {:induction false} CombinationsCount(s: seq<int>, r: nat)
    ensures |Combinations(s, r)| == Binomial(|s|, r)
    decreases |s|
  {
    if r > 0 && |s| > 0 {
      var tail := s[1..];
      CombinationsCount(tail, r - 1);
      CombinationsCount(tail, r);
      CombinationsUnfold(s, r);
      BinomialUnfold(|s|, r);
      assert |tail| == |s| - 1;
    }
  }

  lemma BinomialUnfold(n: nat, r: nat)
    requires n > 0 && r > 0
    ensures Binomial(n, r) == Binomial(n - 1, r - 1) + Binomial(n - 1, r)
  {
  }

  lemma {:induction false} PowersetCount(s: seq<int>, r: nat)
    ensures |PowersetFrom(s, r)| == BinomialsFrom(|s|, r)
    decreases |s| + 1 - r
  {
    if r <= |s| {
      CombinationsCount(s, r);
      PowersetCount(s, r + 1);
    }
  }

  // ------------------------------------------------------------ the masks

  /** Two increasing sequences with the same elements are equal. */
  lemma {:induction false} IncreasingBySet(t1: seq<int>, t2: seq<int>)
    requires Increasing(t1) && Increasing(t2)
    requires forall x :: x in t1 <==> x in t2
    ensures t1 == t2
    decreases |t1|
  {
    if |t1| > 0 && |t2| > 0 {
      TailAboveHead(t1);
      TailAboveHead(t2);
      assert t1[0] in t2 && t2[0] in t1;
      assert t1[0] == t2[0];
      forall x
        ensures x in t1[1..] <==> x in t2[1..]
      {
      }
      IncreasingBySet(t1[1..], t2[1..]);
      assert t1 == [t1[0]] + t1[1..] && t2 == [t2[0]] + t2[1..];
    } else if |t1| > 0 {
      HeadIn(t1);
      assert false;
    } else if |t2| > 0 {
      HeadIn(t2);
      assert false;
    }
  }

  lemma HeadIn(t: seq<int>)
    requires |t| > 0
    ensures t[0] in t
  {
  }

  /** The positions of the live cells of `x` from `k` on, in increasing order. */
  function OnesFrom(x: seq<int>, k: nat): (t: seq<int>)
    ensures Increasing(t)
    ensures forall i :: 0 <= i < |t| ==> k <= t[i] < |x|
    ensures forall e :: e in t <==> k <= e < |x| && x[e] == 1
    decreases |x| - k
  {
    if k >= |x| then []
    else
      var rest := OnesFrom(x, k + 1);
      if x[k] == 1 then
        assert forall e :: e in [k] + rest <==> e == k || e in rest;
        [k] + rest
      else rest
  }

  lemma WithinNine(t: seq<int>)
    requires forall i :: 0 <= i < |t| ==> 0 <= t[i] < 9
    ensures Within(t, Range(9))
  {
    forall i | 0 <= i < |t|
      ensures t[i] in Range(9)
    {
      assert Range(9)[t[i]] == t[i];
    }
  }

  lemma NineWithin(t: seq<int>)
    requires Within(t, Range(9))
    ensures forall e :: e in t ==> 0 <= e < 9
  {
    forall e | e in t
      ensures 0 <= e < 9
    {
      var i :| 0 <= i < |t| && t[i] == e;
      assert t[i] in Range(9);
    }
  }

  /** Subsets with different elements give different states. */
  lemma StateForInjective(t1: seq<int>, t2: seq<int>)
    requires Increasing(t1) && Increasing(t2) && Within(t1, Range(9)) && Within(t2, Range(9))
    requires StateFor(t1) == StateFor(t2)
    ensures t1 == t2
  {
    NineWithin(t1);
    NineWithin(t2);
    forall x
      ensures x in t1 <==> x in t2
    {
      if 0 <= x < 9 {
        assert StateFor(t1).data[x] == StateFor(t2).data[x];
      }
    }
    IncreasingBySet(t1, t2);
  }

  /** Position `i` of a subset is the cell in row i / 3, column i % 3. */
  lemma SubsetCell(t: seq<int>, i: int)
    requires Within(t, Range(9)) && 0 <= i < 9
    ensures At2(StateFor(t), i / 3, i % 3) == if i in t then 1 else 0
  {
    assert (i / 3) * 3 + i % 3 == i;
  }

  // ------------------------------------------------------------ the states

  lemma StatesAreStateFor()
    ensures |States()| == |Powerset(Range(9))|
    ensures forall q :: 0 <= q < |States()| ==>
              Within(Powerset(Range(9))[q], Range(9)) && States()[q] == StateFor(Powerset(Range(9))[q])
  {
    SubsetsOfNine();
  }

  lemma StateAt(q: int)
    requires 0 <= q < |Powerset(Range(9))|
    ensures q < |States()| && Within(Powerset(Range(9))[q], Range(9))
    ensures States()[q] == StateFor(Powerset(Range(9))[q])
  {
    StatesAreStateFor();
  }

  /** Every state is a 3-by-3 array of dead and alive cells. */
  lemma StatesBinary()
    ensures forall q :: 0 <= q < |States()| ==>
              States()[q].shape == [3, 3] && |States()[q].data| == 9 && Binary(States()[q].data)
  {
    SubsetsOfNine();
    StatesOfBinary(Powerset(Range(9)));
  }

  lemma StatesOfBinary(subsets: seq<seq<int>>)
    requires forall q :: 0 <= q < |subsets| ==> Within(subsets[q], Range(9))
    ensures forall q :: 0 <= q < |StatesOf(subsets)| ==>
              StatesOf(subsets)[q].shape == [3, 3] && |StatesOf(subsets)[q].data| == 9 &&
              Binary(StatesOf(subsets)[q].data)
  {
    var states := StatesOf(subsets);
    forall q | 0 <= q < |states|
      ensures states[q].shape == [3, 3] && |states[q].data| == 9 && Binary(states[q].data)
    {
      StateForBinary(subsets[q]);
    }
  }

  lemma StateForBinary(subset: seq<int>)
    requires Within(subset, Range(9))
    ensures Binary(StateFor(subset).data)
  {
    var w := StateFor(subset);
    assert forall k :: 0 <= k < 9 ==> w.data[k] == 0 || w.data[k] == 1;
  }

  /** Every 3-by-3 array of dead and alive cells is a state. */
  lemma StatesCover(x: seq<int>)
    requires |x| == 9 && Binary(x)
    ensures exists q :: 0 <= q < |States()| && States()[q] == NdArray([3, 3], x)
  {
    var q := SubsetIndex(OnesFrom(x, 0));
    StateAtSubset(x, q);
  }

  lemma StateAtSubset(x: seq<int>, q: nat)
    requires |x| == 9 && Binary(x)
    requires q < |Powerset(Range(9))| && Powerset(Range(9))[q] == OnesFrom(x, 0)
    ensures q < |States()| && States()[q] == NdArray([3, 3], x)
  {
    StateForOnes(x);
    StateAt(q);
  }

  /** The state of the live positions of `x` is `x` itself. */
  lemma StateForOnes(x: seq<int>)
    requires |x| == 9 && Binary(x)
    ensures Within(OnesFrom(x, 0), Range(9)) && StateFor(OnesFrom(x, 0)) == NdArray([3, 3], x)
  {
    var t := OnesFrom(x, 0);
    WithinNine(t);
    assert StateFor(t).data == x;
  }

  /** Where an increasing selection of 0..8 sits in `powerset(range(9))`. */
  lemma SubsetIndex(t: seq<int>) returns (q: nat)
    requires Increasing(t) && forall i :: 0 <= i < |t| ==> 0 <= t[i] < 9
    ensures q < |Powerset(Range(9))| && Powerset(Range(9))[q] == t
  {
    WithinNine(t);
    RangeIncreasing(9);
    q := PowersetIndex(Range(9), t);
  }

  /** Where an increasing selection of an increasing `s` sits in its powerset. */
  lemma PowersetIndex(s: seq<int>, t: seq<int>) returns (q: nat)
    requires Increasing(s) && Increasing(t) && Within(t, s)
    ensures q < |Powerset(s)| && Powerset(s)[q] == t
  {
    PowersetComplete(s, 0, t);
    q :| 0 <= q < |Powerset(s)| && Powerset(s)[q] == t;
  }

  /** No state is listed twice. */
  lemma StatesDistinct()
    ensures Distinct(States())
  {
    RangeIncreasing(9);
    SubsetsOfNine();
    SubsetsDistinct(Range(9));
    StatesOfDistinct(Powerset(Range(9)));
  }

  /** The subsets of an increasing `s` are distinct increasing sequences. */
  lemma SubsetsDistinct(s: seq<int>)
    requires Increasing(s)
    ensures Distinct(Powerset(s))
    ensures forall q :: 0 <= q < |Powerset(s)| ==> Increasing(Powerset(s)[q])
  {
    PowersetDistinct(s, 0);
    PowersetSound(s, 0);
  }

  /** Distinct increasing subsets of 0..8 give distinct states. */
  lemma StatesOfDistinct(subsets: seq<seq<int>>)
    requires Distinct(subsets)
    requires forall q :: 0 <= q < |subsets| ==> Increasing(subsets[q]) && Within(subsets[q], Range(9))
    ensures Distinct(StatesOf(subsets))
  {
    var states := StatesOf(subsets);
    forall a, b | 0 <= a < b < |states|
      ensures states[a] != states[b]
    {
      if states[a] == states[b] {
        StateForInjective(subsets[a], subsets[b]);
      }
    }
  }

  /** `powerset(range(9))` has 2^9 = 512 subsets. */
  lemma StatesCount()
    ensures |States()| == 512
  {
    PowersetHasPow2(Range(9));
    Pow2Nine(|Range(9)|);
  }

  lemma PowersetHasPow2(s: seq<int>)
    ensures |Powerset(s)| == Pow2(|s|)
  {
    PowersetCount(s, 0);
    PowersetSize(|s|);
  }

  lemma Pow2Nine(n: nat)
    requires n == 9
    ensures Pow2(n) == 512
  {
  }

  function Pow2(n: nat): nat
  {
    if n == 0 then 1 else 2 * Pow2(n - 1)
  }

  lemma {:induction false} BinomialBeyond(n: nat, r: nat)
    requires r > n
    ensures Binomial(n, r) == 0
    decreases n
  {
    if n > 0 {
      BinomialBeyond(n - 1, r - 1);
      BinomialBeyond(n - 1, r);
    }
  }

  lemma {:induction false} BinomialDiagonal(n: nat)
    ensures Binomial(n, n) == 1
    decreases n
  {
    if n > 0 {
      BinomialDiagonal(n - 1);
      BinomialBeyond(n - 1, n);
    }
  }

  /** Pascal's rule, summed: the subsets of an (n+1)-set with at least r elements
      either contain the new element or do not. */
  lemma {:induction false} BinomialsPascal(n: nat, r: nat)
    requires r >= 1
    ensures BinomialsFrom(n + 1, r) == BinomialsFrom(n, r - 1) + BinomialsFrom(n, r)
    decreases n + 2 - r
  {
    if r == n + 1 {
      BinomialDiagonal(n);
      BinomialBeyond(n, n + 1);
    } else if r <= n {
      BinomialsPascal(n, r + 1);
    }
  }

  /** An n-element set has 2^n subsets. */
  lemma {:induction false} PowersetSize(n: nat)
    ensures BinomialsFrom(n, 0) == Pow2(n)
    decreases n
  {
    if n > 0 {
      PowersetSize(n - 1);
      BinomialsPascal(n - 1, 1);
    }
  }
}
