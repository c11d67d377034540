# Variance-driven basis selection for principal component analysis

A Dafny model of the core of a small principal-component-analysis script
(`main.py`). Given the eigenvalues and eigenvectors of a covariance matrix
and a target fraction `pctPreserved` of the total variance, `optimalBasis`
picks the fewest eigenvectors that keep at least that fraction. It ranks the
eigenvalues from largest to smallest and adds them up one at a time,
appending each matching eigenvector. The chosen eigenvectors are then stacked
as the rows of a matrix `U`, and each group of observations `X` (one sample
per column) is projected as `U @ X`.

Modules:

- `Wrappers` (wrappers.dfy): `Option`. `None` stands for the Python function
  returning without a value.
- `Ranking` (ranking.dfy): `np.sum` over exact reals, and rankings of eigenvalue
  indices. `IsRanking` holds of every order that reading `np.argsort` backwards
  can produce. `DescendingOrder` is one such order, built by insertion, with
  equal eigenvalues in descending index order. That is what reading a stable
  ascending sort backwards gives. The module also holds the
  permutation lemmas: every ranking sums to the total, and every ranking yields
  the same sequence of eigenvalues.
- `Projection` (projection.dfy): matrices as sequences of rows, `Column`
  (numpy's `M[:, j]`), `Dot`, and `U @ X` and `U @ x`. Each product comes with a
  shape-checked variant that, for a non-empty basis, returns `None` where numpy
  raises.
- `BasisSelection` (basis_selection.dfy): `OptimalBasis` and its accumulation
  loop `AccumulateUntil`. `MinimalPrefix` states the answer: the smallest
  prefix of the ranking whose retained fraction reaches the target. The lemmas
  about that answer are here too.

The model follows `main.py` in these respects:

- Negative eigenvalues are not clamped to zero.
- A target that is never reached makes the loop fall through to `None`. It does
  not return the full basis. With exact reals this cannot happen, and
  `OptimalBasis` proves it.
- The achieved fraction is only printed, not returned.
- Among equal eigenvalues, `OptimalBasis` walks `DescendingOrder`, which takes
  the higher index first. For example, eigenvalues `[1, 1]` with target 0.4 give
  `[[0, 1]]` (`EqualAxesExample`). The loop itself, `AccumulateUntil`, is proved
  along any ranking. `SizeIgnoresTieOrder` and `Ranking.RankingsAgree` show
  that the tie order changes neither the number of eigenvectors chosen nor the
  variance kept. It can only change which of the tied eigenvectors are chosen.
- A zero total variance is excluded by a precondition. The script would divide
  by zero; the model does not report it as an error.

`main.py` recomputes `np.argsort(eVals)` on every iteration. The model ranks
once before the loop. `argsort` is a deterministic function of `eVals`, so
every iteration sees the same order.

## Model

| member | source | states |
|---|---|---|
| `BasisSelection.OptimalBasis` | main.py:16-36 | A target `<= 0` or `>= 1` gives `None` for any spectrum, and every target strictly between 0 and 1 gives a basis. That basis is the smallest prefix of the descending ranking whose eigenvalues reach the target. Its i-th vector is the eigenvector column paired with the i-th ranked eigenvalue. |
| `BasisSelection.AccumulateUntil` | main.py:23-36 | Along any ranking, the loop returns at the first step whose retained fraction reaches the target. It then returns the vectors appended so far, one per step, each paired with that step's eigenvalue. If no step reaches the target it returns `None`, and then no prefix reaches it. |
| `BasisSelection.RetainedStep` | main.py:31 | Step i adds exactly the i-th ranked eigenvalue to the retained variance. |
| `BasisSelection.WholeRankingKeepsAll` | main.py:25-33 | Over exact reals with a positive total, the full ranking keeps a fraction of exactly 1 of the variance. |
| `BasisSelection.AlwaysSelects` | main.py:29-36 | For a valid target in (0, 1), some minimal prefix exists for every ranking, so the implicit fall-through `None` is unreachable. |
| `BasisSelection.MinimalPrefixUnique` | main.py:29-36 | Returning at the first success leaves only one possible basis size ("the fewest number of eigenvectors"). |
| `BasisSelection.SizeMonotoneInTarget` | main.py:33-36 | A smaller target never needs more eigenvectors than a larger one. |
| `BasisSelection.SizeIgnoresTieOrder` | main.py:31-34 | Two rankings that differ only in the order of equal eigenvalues select the same number of eigenvectors. |
| `BasisSelection.TwoAxesExample` | main.py:16-36 | Eigenvalues 4 and 1 on the standard axes: target 0.5 selects `[[1, 0]]` (fraction 0.8), and target 0.9 selects both axes (fraction 1). |
| `BasisSelection.EqualAxesExample` | main.py:29-36 | Eigenvalues 1 and 1 on the standard axes: target 0.4 selects the second axis `[[0, 1]]` alone (fraction one half). |
| `BasisSelection.SelectedBasisProjects` | main.py:80-88 | A selected basis has at least one vector, and every vector has one entry per variable. So `U @ X` is defined for any data matrix with one row per variable and is a k x m matrix. |
| `Ranking.DescendingOrder` | main.py:31-32 | The order the loop walks is a permutation of all eigenvalue indices, and the eigenvalues never increase along it. |
| `Ranking.DescendingOrderBreaksTies` | main.py:31 | In that order, equal eigenvalues appear by descending index, which is how `argsort(eVals)[-(i+1)]` reads a stable ascending sort. |
| `Ranking.RankingDistinct` | main.py:29-31 | No eigenvalue index is used twice. |
| `Ranking.StepTakesLargestRemaining` | main.py:29-31 | Step i takes an eigenvalue at least as large as every eigenvalue not taken in earlier steps, that is the (i+1)-th largest. |
| `Ranking.RankingPermutesValues` | main.py:31 | The ranked eigenvalues are exactly the eigenvalues, with multiplicity. |
| `Ranking.RankingSumsToTotal` | main.py:25-31 | Accumulating along any ranking ends at `np.sum(eVals)`. |
| `Ranking.RankingsAgree` | main.py:31 | Any two orders argsort may produce give the same sequence of ranked eigenvalues. |
| `Projection.RowTimes` | main.py:87-88 | A row vector times an n x m matrix, formed as a weighted sum of the matrix's rows. Entry j equals the dot product with column j. |
| `Projection.MatMul` | main.py:87-88 | `U @ X` is k x m, and entry (i, j) is the dot product of the i-th selected eigenvector with sample column j. |
| `Projection.MatVec` | main.py:89-90 | `U @ x` for one sample has length k, and entry i is the dot product of the i-th selected eigenvector with `x`. |
| `Projection.Project` | main.py:83-88 | The result is present exactly when every row of `U` has one entry per feature row of `X`. It is then a k x m matrix of dot products. |
| `Projection.ProjectVector` | main.py:89-90 | The result is present exactly when every row of `U` has the length of `x`. It is then the length-k vector of dot products. |
| `Projection.VectorIsOneColumn` | main.py:87-90 | Projecting a vector gives the same as projecting the one-column matrix made of it. |
| `Projection.ColumnsProjectIndependently` | main.py:87-88 | Column j of `U @ X` depends only on sample j: it is `U @ X[:, j]`. |
| `Projection.FirstAxisExample` | main.py:83-90 | Projecting the sample (3, 5) onto the basis `[[1, 0]]` gives `[3]`. |

## Left out

- `np.linalg.eig` (main.py:22) is not computed. Its eigenvalues and
  eigenvector matrix are inputs, assumed real and n x n. Eigenvector signs are
  whatever the input holds.
- Floating point is not modelled: arithmetic is exact over `real`. The
  fall-through `None`, which rounding could reach when the target is close to
  1, is therefore proved unreachable.
- `OptimalBasis`: requires a positive total variance whenever the target lies
  in (0, 1); an invalid target gives `None` for any spectrum. With a zero
  total and a non-empty spectrum, `main.py` divides by zero, and the
  `nan`/`inf` that follows is not modelled. The precondition also excludes the
  empty spectrum (n = 0) with a valid target: there the loop never runs and
  `main.py` falls through to `None`, the one way to reach that `None` under
  exact arithmetic.
- `OptimalBasis`: among equal eigenvalues it fixes the higher index first.
  numpy's default `argsort` does not promise any order among equal values.
  Where it sorts stably, reading it backwards takes the higher index first,
  as the model does. Elsewhere `main.py` may append a different one of the
  tied eigenvectors than the model does. The size of the basis and the variance kept do not depend on
  this (`SizeIgnoresTieOrder`).
- `Project`, `ProjectVector`: for an empty basis `U` they return an empty
  result, whereas numpy gives `np.array([])` the shape `(0,)` and raises on
  `U @ X` when `X` has a row; the script never builds an empty basis.
- The covariance product (main.py:77) is not modelled.
- CSV loading and row filtering by the label column (main.py:67-74) are
  input/output and are not modelled.
- `createPlot2D` (main.py:41-58) is not modelled: it is rendering and file
  output.
- The `U.shape[0] == 2` plotting branch (main.py:85-96) is not modelled; only
  the products `U @ X` are.
- The `print` diagnostics (main.py:19, 35, 96) are console output and are not
  modelled.
- `np.array(None)` is not modelled. A `None` basis reaching main.py:83 gives a
  0-d array, and `U.shape[0]` at main.py:85 then raises `IndexError`; the
  script passes the valid target 0.999, so this does not happen.
