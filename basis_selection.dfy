/**
 `optimalBasis` of main.py: the fewest eigenvectors, taken by descending
 eigenvalue, whose eigenvalues sum to at least the fraction `pctPreserved`
 of the total variance. The eigendecomposition `np.linalg.eig(C)` is an
 input: `eVals[j]` is the j-th eigenvalue and column j of the n x n matrix
 `eVecs` its eigenvector.
 */
module BasisSelection {
  import opened Wrappers
  import opened Ranking
  import opened Projection

  /** The variance kept by the first k eigenvalues of the ranking `order`. */
  function Retained(vals: seq<real>, order: seq<nat>, k: nat): real
    requires InRange(order, |vals|) && k <= |order|
  {
    Sum(Values(vals, order)[..k])
  }

  /** The fraction of the total variance the first k ranked eigenvalues keep. */
  function Fraction(vals: seq<real>, order: seq<nat>, k: nat): real
    requires InRange(order, |vals|) && k <= |order|
    requires Sum(vals) != 0.0
  {
    Retained(vals, order, k) / Sum(vals)
  }

  /** No prefix of at most i ranked eigenvalues reaches the target. */
  predicate BelowTargetThrough(vals: seq<real>, order: seq<nat>, pct: real, i: nat)
    requires InRange(order, |vals|) && i <= |order| && Sum(vals) != 0.0
  {
    forall j :: 0 <= j <= i ==> Fraction(vals, order, j) < pct
  }

  /**
   k is the size the selection settles on for the target `pct`: the first
   k ranked eigenvalues reach the target and no shorter prefix does.
   */
  predicate MinimalPrefix(vals: seq<real>, order: seq<nat>, pct: real, k: nat)
    requires InRange(order, |vals|) && Sum(vals) != 0.0
  {
    && 1 <= k <= |order|
    && Fraction(vals, order, k) >= pct
    && forall j :: 0 <= j < k ==> Fraction(vals, order, j) < pct
  }

  /** The i-th vector of `basis` is the eigenvector (column of `vecs`) of
      the i-th ranked eigenvalue. */
  predicate PairedWithRanking(vals: seq<real>, vecs: seq<seq<real>>, order: seq<nat>,
                              basis: seq<seq<real>>)
    requires IsMatrix(vecs, |vals|, |vals|) && InRange(order, |vals|)
  {
    && |basis| <= |order|
    && forall i :: 0 <= i < |basis| ==> basis[i] == Column(vecs, order[i])
  }

  /**
   `basis` is the answer for the target `pct` along `order`: a minimal
   prefix, each vector paired with its ranked eigenvalue.
   */
  predicate IsSelectedBasis(vals: seq<real>, vecs: seq<seq<real>>, order: seq<nat>,
                            pct: real, basis: seq<seq<real>>)
    requires IsMatrix(vecs, |vals|, |vals|) && InRange(order, |vals|) && Sum(vals) != 0.0
  {
    MinimalPrefix(vals, order, pct, |basis|) && PairedWithRanking(vals, vecs, order, basis)
  }

  /**
   `optimalBasis`: a target outside the open interval (0, 1) gives no basis
   and nothing else is computed; otherwise the eigenvalues are ranked and
   the accumulation loop runs along that ranking. With exact reals the loop
   always returns a basis.
   */
  method OptimalBasis(eVals: seq<real>, eVecs: seq<seq<real>>, pctPreserved: real)
    returns (basis: Option<seq<seq<real>>>)
    requires IsMatrix(eVecs, |eVals|, |eVals|)
    requires 0.0 < pctPreserved < 1.0 ==> Sum(eVals) > 0.0
    ensures basis.None? <==> (pctPreserved <= 0.0 || pctPreserved >= 1.0)
    ensures basis.Some? ==>
              IsSelectedBasis(eVals, eVecs, DescendingOrder(eVals), pctPreserved, basis.value)
  {
    if pctPreserved <= 0.0 || pctPreserved >= 1.0 {
      return None;
    }
    var order := DescendingOrder(eVals);
    WholeRankingKeepsAll(eVals, order);
    basis := AccumulateUntil(eVals, eVecs, order, pctPreserved);
  }

  /**
   The `for` loop of `optimalBasis` along the ranking `order`: step i adds
   the i-th ranked eigenvalue to the retained variance and appends its
   eigenvector, and the loop returns at the first step whose retained
   fraction reaches the target. If no step does, the function falls off
   its end and returns nothing.
   */
  method AccumulateUntil(eVals: seq<real>, eVecs: seq<seq<real>>, order: seq<nat>,
                         pctPreserved: real)
    returns (basis: Option<seq<seq<real>>>)
    requires IsMatrix(eVecs, |eVals|, |eVals|)
    requires |order| == |eVals| && InRange(order, |eVals|)
    requires Sum(eVals) > 0.0 && pctPreserved > 0.0
    ensures basis.Some? ==> IsSelectedBasis(eVals, eVecs, order, pctPreserved, basis.value)
    ensures basis.None? ==> BelowTargetThrough(eVals, order, pctPreserved, |order|)
  {
    var currentVariance := 0.0;
    var totalVariance := Sum(eVals);
    var eigenList: seq<seq<real>> := [];
    var counter := 0;
    assert Fraction(eVals, order, 0) == 0.0 by {
      assert Values(eVals, order)[..0] == [];
    }
    for i := 0 to |eVals|
      invariant counter == i == |eigenList|
      invariant currentVariance == Retained(eVals, order, i)
      invariant PairedWithRanking(eVals, eVecs, order, eigenList)
      invariant BelowTargetThrough(eVals, order, pctPreserved, i)
    {
      counter := counter + 1;
      RetainedStep(eVals, order, i);
      currentVariance := currentVariance + eVals[order[i]];
      eigenList := eigenList + [Column(eVecs, order[i])];
      var currentPctPreserved := currentVariance / totalVariance;
      if currentPctPreserved >= pctPreserved {
        return Some(eigenList);
      }
    }
    return None;
  }

  /** Step i adds the i-th ranked eigenvalue to the retained variance. */
  lemma RetainedStep(vals: seq<real>, order: seq<nat>, i: nat)
    requires InRange(order, |vals|) && i < |order|
    ensures Retained(vals, order, i + 1) == Retained(vals, order, i) + vals[order[i]]
  {
    assert Values(vals, order)[..i + 1][..i] == Values(vals, order)[..i];
  }

  /** With exact reals all n ranked eigenvalues keep the whole variance. */
  lemma WholeRankingKeepsAll(vals: seq<real>, order: seq<nat>)
    requires IsRanking(vals, order) && Sum(vals) > 0.0
    ensures Fraction(vals, order, |vals|) == 1.0
  {
    RankingSumsToTotal(vals, order);
    assert Values(vals, order)[..|vals|] == Values(vals, order);
    assert Retained(vals, order, |vals|) == Sum(vals);
    SelfRatio(Sum(vals));
  }

  /** The one nonlinear step, proved apart from the ranking facts. */
  lemma SelfRatio(x: real)
    requires x > 0.0
    ensures x / x == 1.0
  {
  }

  /** Stopping at the first prefix that reaches the target leaves exactly one
      possible size. */
  lemma MinimalPrefixUnique(vals: seq<real>, order: seq<nat>, pct: real, k1: nat, k2: nat)
    requires InRange(order, |vals|) && Sum(vals) != 0.0
    requires MinimalPrefix(vals, order, pct, k1) && MinimalPrefix(vals, order, pct, k2)
    ensures k1 == k2
  {
  }

  /** A smaller target never needs more eigenvectors. */
  lemma SizeMonotoneInTarget(vals: seq<real>, order: seq<nat>, pct1: real, pct2: real,
                             k1: nat, k2: nat)
    requires InRange(order, |vals|) && Sum(vals) != 0.0
    requires pct1 <= pct2
    requires MinimalPrefix(vals, order, pct1, k1) && MinimalPrefix(vals, order, pct2, k2)
    ensures k1 <= k2
  {
  }

  /**
   For every target in (0, 1) some prefix size is selected: the loop never
   runs out, so the implicit `None` after it cannot happen.
   */
  lemma AlwaysSelects(vals: seq<real>, order: seq<nat>, pct: real)
    requires IsRanking(vals, order) && Sum(vals) > 0.0
    requires 0.0 < pct < 1.0
    ensures exists k :: MinimalPrefix(vals, order, pct, k)
  {
    WholeRankingKeepsAll(vals, order);
    assert Fraction(vals, order, 0) == 0.0 by {
      assert Values(vals, order)[..0] == [];
    }
    SearchFrom(vals, order, pct, 1);
  }

  lemma {:induction false} SearchFrom(vals: seq<real>, order: seq<nat>, pct: real, j: nat)
    requires InRange(order, |vals|) && Sum(vals) != 0.0
    requires 1 <= j <= |order|
    requires Fraction(vals, order, |order|) >= pct
    requires forall i :: 0 <= i < j ==> Fraction(vals, order, i) < pct
    ensures exists k :: MinimalPrefix(vals, order, pct, k)
    decreases |order| - j
  {
    if Fraction(vals, order, j) >= pct {
      assert MinimalPrefix(vals, order, pct, j);
    } else {
      SearchFrom(vals, order, pct, j + 1);
    }
  }

  /**
   The size selected does not depend on how the unstable argsort orders
   equal eigenvalues: every ranking retains the same variance at every step.
   */
  lemma SizeIgnoresTieOrder(vals: seq<real>, o1: seq<nat>, o2: seq<nat>, pct: real, k: nat)
    requires IsRanking(vals, o1) && IsRanking(vals, o2) && Sum(vals) != 0.0
    ensures MinimalPrefix(vals, o1, pct, k) <==> MinimalPrefix(vals, o2, pct, k)
  {
    RankingsAgree(vals, o1, o2);
    assert forall j :: 0 <= j <= |vals| ==> Fraction(vals, o1, j) == Fraction(vals, o2, j);
  }

  /**
   A selected basis is ready for the projection: it holds at least one
   eigenvector, each as long as a data column, so `U @ X` is defined for every
   data matrix with one row per variable.
   */
  lemma SelectedBasisProjects(vals: seq<real>, vecs: seq<seq<real>>, order: seq<nat>,
                              pct: real, basis: seq<seq<real>>, X: seq<seq<real>>, m: nat)
    requires IsMatrix(vecs, |vals|, |vals|) && InRange(order, |vals|) && Sum(vals) != 0.0
    requires IsSelectedBasis(vals, vecs, order, pct, basis)
    requires IsMatrix(X, |vals|, m)
    ensures 1 <= |basis| && RowsHaveLength(basis, |vals|)
    ensures Project(basis, X, m).Some?
    ensures IsMatrix(Project(basis, X, m).value, |basis|, m)
  {
  }

  /** The concrete ranking of eigenvalues 4 and 1: the larger one first. */
  lemma TwoAxesOrder()
    ensures DescendingOrder([4.0, 1.0]) == [0, 1]
  {
    assert RankPrefix([4.0, 1.0], 1) == [0];
  }

  lemma TwoAxesFractions()
    ensures Sum([4.0, 1.0]) == 5.0
    ensures Fraction([4.0, 1.0], [0, 1], 0) == 0.0
    ensures Fraction([4.0, 1.0], [0, 1], 1) == 0.8
    ensures Fraction([4.0, 1.0], [0, 1], 2) == 1.0
  {
  }

  /**
   A 2 x 2 covariance with eigenvalues 4 and 1 along the standard axes: a
   target of one half keeps the first axis alone (fraction 0.8), a target
   of 0.9 needs both axes (fraction 1).
   */
  lemma TwoAxesExample()
    ensures IsSelectedBasis([4.0, 1.0], [[1.0, 0.0], [0.0, 1.0]], DescendingOrder([4.0, 1.0]),
                            0.5, [[1.0, 0.0]])
    ensures IsSelectedBasis([4.0, 1.0], [[1.0, 0.0], [0.0, 1.0]], DescendingOrder([4.0, 1.0]),
                            0.9, [[1.0, 0.0], [0.0, 1.0]])
  {
    TwoAxesOrder();
    TwoAxesFractions();
    assert Column([[1.0, 0.0], [0.0, 1.0]], 0) == [1.0, 0.0];
    assert Column([[1.0, 0.0], [0.0, 1.0]], 1) == [0.0, 1.0];
  }

  /** Two equal eigenvalues: the higher index is ranked first. */
  lemma EqualAxesOrder()
    ensures DescendingOrder([1.0, 1.0]) == [1, 0]
  {
    assert RankPrefix([1.0, 1.0], 1) == [0];
  }

  /**
   Equal eigenvalues along the standard axes: a target of 0.4 is met by one
   axis (fraction one half), and that axis is the second one.
   */
  lemma EqualAxesExample()
    ensures IsSelectedBasis([1.0, 1.0], [[1.0, 0.0], [0.0, 1.0]], DescendingOrder([1.0, 1.0]),
                            0.4, [[0.0, 1.0]])
  {
    EqualAxesOrder();
    assert Sum([1.0, 1.0]) == 2.0;
    assert Fraction([1.0, 1.0], [1, 0], 0) == 0.0;
    assert Fraction([1.0, 1.0], [1, 0], 1) == 0.5;
    assert Column([[1.0, 0.0], [0.0, 1.0]], 1) == [0.0, 1.0];
  }
}
