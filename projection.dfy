/**
 The projection of main.py: the selected eigenvectors stacked as the rows
 of `U = np.array(basis)`, and `U @ X` for a matrix of observations (one
 sample per column) or a single observation vector.
 Matrices are sequences of rows.
 */
module Projection {
  import opened Wrappers

  /** `M` has `rows` rows of `cols` entries each. */
  predicate IsMatrix(M: seq<seq<real>>, rows: nat, cols: nat)
  {
    |M| == rows && forall i :: 0 <= i < |M| ==> |M[i]| == cols
  }

  /** Column `j` of `M`: numpy's `M[:, j]`. */
  function Column(M: seq<seq<real>>, j: nat): seq<real>
    requires forall i :: 0 <= i < |M| ==> j < |M[i]|
  {
    seq(|M|, i requires 0 <= i < |M| => M[i][j])
  }

  /** Every row of `U` has as many entries as there are features `n`. */
  predicate RowsHaveLength(U: seq<seq<real>>, n: nat)
  {
    IsMatrix(U, |U|, n)
  }

  /** The dot product, summing `u[l] * v[l]` from the first entry on. */
  function Dot(u: seq<real>, v: seq<real>): real
    requires |u| == |v|
  {
    if |u| == 0 then 0.0 else u[0] * v[0] + Dot(u[1..], v[1..])
  }

  function Zeros(m: nat): (z: seq<real>)
    ensures |z| == m && forall j :: 0 <= j < m ==> z[j] == 0.0
  {
    seq(m, j => 0.0)
  }

  /** `c * v + w`, entry by entry. */
  function ScaleAdd(c: real, v: seq<real>, w: seq<real>): (r: seq<real>)
    requires |v| == |w|
    ensures |r| == |v| && forall j :: 0 <= j < |v| ==> r[j] == c * v[j] + w[j]
  {
    seq(|v|, j requires 0 <= j < |v| => c * v[j] + w[j])
  }

  /**
   The row vector `u` times the n x m matrix `X`, formed as the combination
   of the rows of `X` weighted by the entries of `u`. Entry j is the dot
   product of `u` with column j of `X`.
   */
  function RowTimes(u: seq<real>, X: seq<seq<real>>, m: nat): (r: seq<real>)
    requires IsMatrix(X, |u|, m)
    ensures |r| == m
    ensures forall j :: 0 <= j < m ==> r[j] == Dot(u, Column(X, j))
  {
    if |u| == 0 then Zeros(m)
    else
      var rest := RowTimes(u[1..], X[1..], m);
      assert forall j :: 0 <= j < m ==> Column(X, j)[1..] == Column(X[1..], j);
      ScaleAdd(u[0], X[0], rest)
  }

  /**
   `U @ X` for the k x n matrix `U` and the n x m observation matrix `X`:
   a k x m matrix whose entry (i, j) is the dot product of row i of `U`
   (the i-th selected eigenvector) with column j of `X` (sample j).
   */
  function MatMul(U: seq<seq<real>>, X: seq<seq<real>>, m: nat): (P: seq<seq<real>>)
    requires RowsHaveLength(U, |X|) && IsMatrix(X, |X|, m)
    ensures IsMatrix(P, |U|, m)
    ensures forall i, j :: 0 <= i < |U| && 0 <= j < m ==> P[i][j] == Dot(U[i], Column(X, j))
  {
    if |U| == 0 then []
    else [RowTimes(U[0], X, m)] + MatMul(U[1..], X, m)
  }

  /**
   `U @ x` for a single observation vector `x` of length n: a vector of
   length k whose entry i is the dot product of row i of `U` with `x`.
   */
  function MatVec(U: seq<seq<real>>, x: seq<real>): (y: seq<real>)
    requires RowsHaveLength(U, |x|)
    ensures |y| == |U|
    ensures forall i :: 0 <= i < |U| ==> y[i] == Dot(U[i], x)
  {
    if |U| == 0 then []
    else [Dot(U[0], x)] + MatVec(U[1..], x)
  }

  /** `x` as an n x 1 matrix: one sample in one column. */
  function AsColumn(x: seq<real>): (X: seq<seq<real>>)
    ensures IsMatrix(X, |x|, 1) && Column(X, 0) == x
  {
    seq(|x|, i requires 0 <= i < |x| => [x[i]])
  }

  /**
   The projection with numpy's shape check: `U @ X` when every row of `U`
   has one entry per row (feature) of `X`, and no result otherwise, where
   numpy raises on mismatched shapes. For an empty `U` (which the script
   never builds) this gives an empty result, where numpy raises as soon as
   `X` has a row.
   */
  function Project(U: seq<seq<real>>, X: seq<seq<real>>, m: nat): (r: Option<seq<seq<real>>>)
    requires IsMatrix(X, |X|, m)
    ensures r.Some? <==> RowsHaveLength(U, |X|)
    ensures r.Some? ==> IsMatrix(r.value, |U|, m)
    ensures r.Some? ==> forall i, j :: 0 <= i < |U| && 0 <= j < m ==>
              r.value[i][j] == Dot(U[i], Column(X, j))
  {
    if RowsHaveLength(U, |X|) then Some(MatMul(U, X, m)) else None
  }

  /** `U @ x` for one observation vector, with numpy's shape check. */
  function ProjectVector(U: seq<seq<real>>, x: seq<real>): (r: Option<seq<real>>)
    ensures r.Some? <==> RowsHaveLength(U, |x|)
    ensures r.Some? ==> |r.value| == |U|
    ensures r.Some? ==> forall i :: 0 <= i < |U| ==> r.value[i] == Dot(U[i], x)
  {
    if RowsHaveLength(U, |x|) then Some(MatVec(U, x)) else None
  }

  /** Projecting one vector is projecting the one-column matrix made of it. */
  lemma VectorIsOneColumn(U: seq<seq<real>>, x: seq<real>)
    requires RowsHaveLength(U, |x|)
    ensures IsMatrix(MatMul(U, AsColumn(x), 1), |U|, 1)
    ensures forall i :: 0 <= i < |U| ==> MatMul(U, AsColumn(x), 1)[i] == [MatVec(U, x)[i]]
  {
  }

  /** Projecting matrices column by column: column j of `U @ X` is `U` applied to sample j. */
  lemma ColumnsProjectIndependently(U: seq<seq<real>>, X: seq<seq<real>>, m: nat, j: nat)
    requires RowsHaveLength(U, |X|) && IsMatrix(X, |X|, m) && j < m
    ensures Column(MatMul(U, X, m), j) == MatVec(U, Column(X, j))
  {
  }

  /** Projecting the observation (3, 5) onto the first axis gives 3, as a
      vector and as a one-column matrix. */
  lemma FirstAxisExample()
    ensures ProjectVector([[1.0, 0.0]], [3.0, 5.0]) == Some([3.0])
    ensures Project([[1.0, 0.0]], [[3.0], [5.0]], 1) == Some([[3.0]])
  {
    assert Dot([1.0, 0.0], [3.0, 5.0]) == 3.0;
    assert Column([[3.0], [5.0]], 0) == [3.0, 5.0];
    var y := MatVec([[1.0, 0.0]], [3.0, 5.0]);
    assert y == [3.0];
    var P := MatMul([[1.0, 0.0]], [[3.0], [5.0]], 1);
    assert P[0] == [3.0];
    assert P == [[3.0]];
  }
}
