/**
 Sums of eigenvalues and the descending ranking of eigenvalue indices that
 `np.argsort(eVals)[-(i+1)]` yields in `optimalBasis` (main.py).
 */
module Ranking {

  /** `np.sum` over exact reals, accumulated front to back. */
  function Sum(s: seq<real>): real
  {
    if |s| == 0 then 0.0 else Sum(s[..|s| - 1]) + s[|s| - 1]
  }

  /** Every index in `idx` names a position of a sequence of length `n`. */
  predicate InRange(idx: seq<nat>, n: nat)
  {
    forall i :: 0 <= i < |idx| ==> idx[i] < n
  }

  /** The values `vals` holds at the positions `idx` lists, in that order. */
  function Values(vals: seq<real>, idx: seq<nat>): seq<real>
    requires InRange(idx, |vals|)
  {
    seq(|idx|, i requires 0 <= i < |idx| => vals[idx[i]])
  }

  /** The indices 0, 1, ..., n - 1 in ascending order. */
  function Indices(n: nat): seq<nat>
  {
    if n == 0 then [] else Indices(n - 1) + [n - 1]
  }

  predicate NonIncreasing(s: seq<real>)
  {
    forall p, q :: 0 <= p < q < |s| ==> s[p] >= s[q]
  }

  /**
   `order` is what reading `np.argsort(vals)` from its last entry backwards
   can produce: a permutation of the indices of `vals` along which the
   eigenvalues never increase. argsort's default sort is not stable, so
   the order among equal eigenvalues is left open.
   */
  predicate IsRanking(vals: seq<real>, order: seq<nat>)
  {
    && |order| == |vals|
    && InRange(order, |vals|)
    && multiset(order) == multiset(Indices(|vals|))
    && NonIncreasing(Values(vals, order))
  }

  /** Index `a` is ranked before index `b`: a larger eigenvalue, or an equal
      one at a larger index. */
  predicate RankedBefore(vals: seq<real>, a: nat, b: nat)
    requires a < |vals| && b < |vals|
  {
    vals[a] > vals[b] || (vals[a] == vals[b] && a > b)
  }

  predicate TieBroken(vals: seq<real>, order: seq<nat>)
    requires InRange(order, |vals|)
  {
    forall p, q :: 0 <= p < q < |order| ==> RankedBefore(vals, order[p], order[q])
  }

  /** Inserts index `i` after every index whose eigenvalue exceeds `vals[i]`. */
  function Insert(vals: seq<real>, r: seq<nat>, i: nat): (s: seq<nat>)
    requires InRange(r, |vals|) && i < |vals|
    ensures |s| == |r| + 1 && InRange(s, |vals|)
  {
    if r == [] then [i]
    else if vals[r[0]] <= vals[i] then [i] + r
    else [r[0]] + Insert(vals, r[1..], i)
  }

  /** The indices 0 .. m - 1 ranked by descending eigenvalue. */
  function RankPrefix(vals: seq<real>, m: nat): (r: seq<nat>)
    requires m <= |vals|
    ensures InRange(r, m)
  {
    if m == 0 then [] else
      var r := RankPrefix(vals, m - 1);
      InsertInRange(vals, r, m - 1, m);
      Insert(vals, r, m - 1)
  }

  /**
   The ranking the selection walks: all indices by descending eigenvalue,
   equal eigenvalues by descending index: the order a stable ascending sort
   of the eigenvalues gives when it is read from its last entry back.
   */
  function DescendingOrder(vals: seq<real>): (order: seq<nat>)
    ensures IsRanking(vals, order)
  {
    RankPrefixIsRanking(vals, |vals|);
    RankPrefix(vals, |vals|)
  }

  /** Equal eigenvalues appear by descending index in `DescendingOrder`. */
  lemma DescendingOrderBreaksTies(vals: seq<real>)
    ensures TieBroken(vals, DescendingOrder(vals))
  {
    RankPrefixTieBroken(vals, |vals|);
  }

  // ---------------------------------------------------------------------
  // Sums

  lemma {:induction false} SumAppend(a: seq<real>, b: seq<real>)
    ensures Sum(a + b) == Sum(a) + Sum(b)
    decreases |b|
  {
    if |b| == 0 {
      assert a + b == a;
    } else {
      var b' := b[..|b| - 1];
      assert (a + b)[..|a + b| - 1] == a + b';
      SumAppend(a, b');
    }
  }

  /** A sum does not depend on the order of its terms. */
  lemma {:induction false} SumPermutation(s: seq<real>, t: seq<real>)
    requires multiset(s) == multiset(t)
    ensures Sum(s) == Sum(t)
    decreases |s|
  {
    if |s| == 0 {
      assert |t| == |multiset(t)| == 0;
    } else {
      var x := s[|s| - 1];
      assert x in multiset(t);
      var p :| 0 <= p < |t| && t[p] == x;
      MultisetRemove(s, |s| - 1);
      MultisetRemove(t, p);
      assert s[..|s| - 1] + s[|s|..] == s[..|s| - 1];
      SumPermutation(s[..|s| - 1], t[..p] + t[p + 1..]);
      SumRemove(t, p);
    }
  }

  /** Dropping the term at position p takes it off the sum. */
  lemma SumRemove(t: seq<real>, p: nat)
    requires p < |t|
    ensures Sum(t) == Sum(t[..p] + t[p + 1..]) + t[p]
  {
    var pre, x, post := t[..p], t[p], t[p + 1..];
    assert t == (pre + [x]) + post;
    SumAppend(pre + [x], post);
    assert (pre + [x])[..|pre|] == pre;
    assert Sum(pre + [x]) == Sum(pre) + x;
    SumAppend(pre, post);
  }

  lemma MultisetRemove<T>(s: seq<T>, p: nat)
    requires p < |s|
    ensures multiset(s[..p] + s[p + 1..]) == multiset(s) - multiset{s[p]}
  {
    assert s == s[..p] + [s[p]] + s[p + 1..];
  }

  // ---------------------------------------------------------------------
  // Values along index sequences

  lemma ValuesAppend(vals: seq<real>, a: seq<nat>, b: seq<nat>)
    requires InRange(a, |vals|) && InRange(b, |vals|)
    ensures InRange(a + b, |vals|)
    ensures Values(vals, a + b) == Values(vals, a) + Values(vals, b)
  {
  }

  /** Permuting the indices permutes the values they pick. */
  lemma {:induction false} ValuesPermutation(vals: seq<real>, a: seq<nat>, b: seq<nat>)
    requires InRange(a, |vals|) && InRange(b, |vals|)
    requires multiset(a) == multiset(b)
    ensures multiset(Values(vals, a)) == multiset(Values(vals, b))
    decreases |a|
  {
    if |a| == 0 {
      assert |b| == |multiset(b)| == 0;
    } else {
      var x := a[|a| - 1];
      assert x in multiset(b);
      var p :| 0 <= p < |b| && b[p] == x;
      MultisetRemove(a, |a| - 1);
      MultisetRemove(b, p);
      ValuesRemove(vals, a, |a| - 1);
      ValuesRemove(vals, b, p);
      ValuesPermutation(vals, a[..|a| - 1] + a[|a|..], b[..p] + b[p + 1..]);
    }
  }

  /** Dropping the index at position p drops its value from the values picked. */
  lemma ValuesRemove(vals: seq<real>, b: seq<nat>, p: nat)
    requires InRange(b, |vals|) && p < |b|
    ensures InRange(b[..p] + b[p + 1..], |vals|)
    ensures Values(vals, b) == Values(vals, b[..p]) + [vals[b[p]]] + Values(vals, b[p + 1..])
    ensures multiset(Values(vals, b)) ==
            multiset(Values(vals, b[..p] + b[p + 1..])) + multiset{vals[b[p]]}
  {
    ValuesAppend(vals, b[..p], b[p + 1..]);
  }

  lemma {:induction false} IndicesAll(n: nat)
    ensures |Indices(n)| == n
    ensures forall i :: 0 <= i < n ==> Indices(n)[i] == i
  {
    if n > 0 {
      IndicesAll(n - 1);
    }
  }

  lemma {:induction false} IndicesCount(n: nat, x: nat)
    ensures multiset(Indices(n))[x] == if x < n then 1 else 0
  {
    if n > 0 {
      IndicesCount(n - 1, x);
    }
  }

  lemma ValuesOfIndices(vals: seq<real>)
    ensures InRange(Indices(|vals|), |vals|)
    ensures Values(vals, Indices(|vals|)) == vals
  {
    IndicesAll(|vals|);
  }

  // ---------------------------------------------------------------------
  // Properties of every ranking

  /** A ranking lists exactly the eigenvalues, each as often as it occurs. */
  lemma RankingPermutesValues(vals: seq<real>, order: seq<nat>)
    requires IsRanking(vals, order)
    ensures multiset(Values(vals, order)) == multiset(vals)
  {
    ValuesOfIndices(vals);
    ValuesPermutation(vals, order, Indices(|vals|));
  }

  /** Walking the whole ranking accumulates the total variance. */
  lemma RankingSumsToTotal(vals: seq<real>, order: seq<nat>)
    requires IsRanking(vals, order)
    ensures Sum(Values(vals, order)) == Sum(vals)
  {
    RankingPermutesValues(vals, order);
    SumPermutation(Values(vals, order), vals);
  }

  /** No index is used twice. */
  lemma RankingDistinct(vals: seq<real>, order: seq<nat>, p: nat, q: nat)
    requires IsRanking(vals, order)
    requires p < q < |order|
    ensures order[p] != order[q]
  {
    if order[p] == order[q] {
      var x := order[p];
      assert order == order[..q] + order[q..];
      assert x in order[..q] && x in order[q..];
      assert multiset(order)[x] == multiset(order[..q])[x] + multiset(order[q..])[x];
      IndicesCount(|vals|, x);
      assert false;
    }
  }

  /** Step i takes an eigenvalue at least as large as every eigenvalue not
      taken in the steps before it: the (i+1)-th largest. */
  lemma StepTakesLargestRemaining(vals: seq<real>, order: seq<nat>, i: nat, x: nat)
    requires IsRanking(vals, order)
    requires i < |order| && x < |vals| && x !in order[..i]
    ensures vals[order[i]] >= vals[x]
  {
    IndicesCount(|vals|, x);
    assert x in multiset(order);
    var q :| 0 <= q < |order| && order[q] == x;
    if q > i {
      assert Values(vals, order)[i] >= Values(vals, order)[q];
    }
  }

  /** Two non-increasing sequences with the same elements are equal. */
  lemma {:induction false} SortedUnique(a: seq<real>, b: seq<real>)
    requires multiset(a) == multiset(b)
    requires NonIncreasing(a) && NonIncreasing(b)
    ensures a == b
    decreases |a|
  {
    if |a| == 0 {
      assert |b| == |multiset(b)| == 0;
    } else {
      assert |b| == |multiset(b)| == |a|;
      assert a[0] in multiset(b);
      assert b[0] in multiset(a);
      assert a[0] == b[0];
      assert a == [a[0]] + a[1..];
      assert b == [b[0]] + b[1..];
      assert multiset(a) == multiset{a[0]} + multiset(a[1..]);
      assert multiset(b) == multiset{b[0]} + multiset(b[1..]);
      assert multiset(a[1..]) == multiset(a) - multiset{a[0]};
      assert multiset(b[1..]) == multiset(b) - multiset{b[0]};
      SortedUnique(a[1..], b[1..]);
    }
  }

  /**
   However argsort orders equal eigenvalues, the ranked eigenvalues come
   out the same: only the order of equal values can differ.
   */
  lemma RankingsAgree(vals: seq<real>, o1: seq<nat>, o2: seq<nat>)
    requires IsRanking(vals, o1) && IsRanking(vals, o2)
    ensures Values(vals, o1) == Values(vals, o2)
  {
    RankingPermutesValues(vals, o1);
    RankingPermutesValues(vals, o2);
    SortedUnique(Values(vals, o1), Values(vals, o2));
  }

  // ---------------------------------------------------------------------
  // The concrete ranking

  /** Insert adds no index other than i. */
  lemma {:induction false} InsertInRange(vals: seq<real>, r: seq<nat>, i: nat, b: nat)
    requires InRange(r, |vals|) && i < |vals|
    requires InRange(r, b) && i < b
    ensures InRange(Insert(vals, r, i), b)
    decreases |r|
  {
    if r != [] && vals[r[0]] > vals[i] {
      InsertInRange(vals, r[1..], i, b);
    }
  }

  lemma {:induction false} InsertMultiset(vals: seq<real>, r: seq<nat>, i: nat)
    requires InRange(r, |vals|) && i < |vals|
    ensures |Insert(vals, r, i)| == |r| + 1
    ensures multiset(Insert(vals, r, i)) == multiset(r) + multiset{i}
    decreases |r|
  {
    if r != [] && vals[r[0]] > vals[i] {
      InsertMultiset(vals, r[1..], i);
      assert r == [r[0]] + r[1..];
    }
  }

  /** Inserting an index larger than all ranked ones keeps the tie-break. */
  lemma {:induction false} InsertTieBroken(vals: seq<real>, r: seq<nat>, i: nat)
    requires InRange(r, i) && i < |vals|
    requires TieBroken(vals, r)
    ensures TieBroken(vals, Insert(vals, r, i))
    decreases |r|
  {
    var s := Insert(vals, r, i);
    if r == [] {
    } else if vals[r[0]] <= vals[i] {
      forall p, q | 0 <= p < q < |s|
        ensures RankedBefore(vals, s[p], s[q])
      {
        if p == 0 && q > 1 {
          assert RankedBefore(vals, r[0], r[q - 1]);
        }
      }
    } else {
      var t := Insert(vals, r[1..], i);
      InsertTieBroken(vals, r[1..], i);
      HeadRankedFirst(vals, r, i);
      assert s == [r[0]] + t;
      forall p, q | 0 <= p < q < |s|
        ensures RankedBefore(vals, s[p], s[q])
      {
        if p > 0 {
          assert s[p] == t[p - 1] && s[q] == t[q - 1];
        }
      }
    }
  }

  lemma HeadRankedFirst(vals: seq<real>, r: seq<nat>, i: nat)
    requires InRange(r, i) && i < |vals|
    requires TieBroken(vals, r)
    requires r != [] && vals[r[0]] > vals[i]
    ensures forall q :: 0 <= q < |Insert(vals, r[1..], i)| ==>
              RankedBefore(vals, r[0], Insert(vals, r[1..], i)[q])
  {
    var t := Insert(vals, r[1..], i);
    InsertMultiset(vals, r[1..], i);
    forall q | 0 <= q < |t|
      ensures RankedBefore(vals, r[0], t[q])
    {
      if t[q] != i {
        assert t[q] in multiset(t);
        assert t[q] in multiset(r[1..]);
        var q' :| 0 <= q' < |r[1..]| && r[1..][q'] == t[q];
        assert RankedBefore(vals, r[0], r[q' + 1]);
      }
    }
  }

  lemma {:induction false} RankPrefixTieBroken(vals: seq<real>, m: nat)
    requires m <= |vals|
    ensures TieBroken(vals, RankPrefix(vals, m))
  {
    if m > 0 {
      var r := RankPrefix(vals, m - 1);
      RankPrefixTieBroken(vals, m - 1);
      InsertTieBroken(vals, r, m - 1);
      assert RankPrefix(vals, m) == Insert(vals, r, m - 1);
    }
  }

  lemma {:induction false} RankPrefixPermutes(vals: seq<real>, m: nat)
    requires m <= |vals|
    ensures |RankPrefix(vals, m)| == m
    ensures multiset(RankPrefix(vals, m)) == multiset(Indices(m))
  {
    if m > 0 {
      var r := RankPrefix(vals, m - 1);
      RankPrefixPermutes(vals, m - 1);
      InsertMultiset(vals, r, m - 1);
      assert Indices(m) == Indices(m - 1) + [m - 1];
      assert multiset(Indices(m)) == multiset(Indices(m - 1)) + multiset{(m - 1) as nat};
    }
  }

  lemma RankPrefixIsRanking(vals: seq<real>, m: nat)
    requires m == |vals|
    ensures IsRanking(vals, RankPrefix(vals, m))
  {
    RankPrefixPermutes(vals, m);
    RankPrefixTieBroken(vals, m);
    TieBrokenNonIncreasing(vals, RankPrefix(vals, m));
  }

  lemma TieBrokenNonIncreasing(vals: seq<real>, r: seq<nat>)
    requires InRange(r, |vals|) && TieBroken(vals, r)
    ensures NonIncreasing(Values(vals, r))
  {
  }
}
