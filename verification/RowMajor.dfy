/** Matrices stored row after row. */
module RowMajor {
  import opened MixedRadix

  predicate Rows<T>(rows: seq<seq<T>>, K: nat) {
    forall n :: 0 <= n < |rows| ==> |rows[n]| == K
  }

  /** The rows end to end. */
  function Stack<T>(rows: seq<seq<T>>, K: nat): (s: seq<T>)
    requires Rows(rows, K)
    ensures |s| == Area(|rows|, K)
  {
    if |rows| == 0 then []
    else
      NextArea(|rows| - 1, K);
      Stack(rows[..|rows| - 1], K) + rows[|rows| - 1]
  }

  lemma NextArea(n: nat, K: nat)
    ensures Area(n + 1, K) == Area(n, K) + K && Join(n, 0, K) == Area(n, K)
  {
  }

  lemma JoinOffset(n: nat, k: nat, K: nat)
    ensures Join(n, k, K) == Area(n, K) + k
  {
  }

  /** Every row of a stack fits. */
  lemma RowFits(r: nat, K: nat, N: nat)
    requires r < N
    ensures Area(r + 1, K) == Area(r, K) + K <= Area(N, K)
  {
    NextArea(r, K);
    AreaMonotone(r + 1, N, K);
  }

  /** Entry `k` of row `n`. */
  lemma {:induction false} StackAt<T>(rows: seq<seq<T>>, K: nat, n: nat, k: nat)
    requires Rows(rows, K) && n < |rows| && k < K
    ensures Join(n, k, K) < Area(|rows|, K) && Stack(rows, K)[Join(n, k, K)] == rows[n][k]
    decreases |rows|
  {
    var m := |rows| - 1;
    JoinBelow(n, k, K, |rows|);
    NextArea(m, K);
    JoinOffset(n, k, K);
    hide Area, Join;
    if n < m {
      StackAt(rows[..m], K, n, k);
    }
  }

  lemma StackNext<T>(rows: seq<seq<T>>, row: seq<T>, K: nat)
    requires Rows(rows, K) && |row| == K
    ensures Rows(rows + [row], K) && Stack(rows + [row], K) == Stack(rows, K) + row
  {
    hide Area;
    assert (rows + [row])[..|rows|] == rows;
  }

  /** Stacks of rows that are themselves stacked. */
  lemma {:induction false} StackConcat<T>(a: seq<seq<T>>, b: seq<seq<T>>, K: nat)
    requires Rows(a, K) && Rows(b, K)
    ensures Rows(a + b, K) && Stack(a + b, K) == Stack(a, K) + Stack(b, K)
    decreases |b|
  {
    hide Area;
    if |b| == 0 {
      assert a + b == a;
    } else {
      var m := |b| - 1;
      StackConcat(a, b[..m], K);
      assert a + b == (a + b[..m]) + [b[m]] && b == b[..m] + [b[m]];
      StackNext(a + b[..m], b[m], K);
    }
  }
}
