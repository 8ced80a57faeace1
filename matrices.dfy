/** Square matrices as sequences of rows, and how an `array2` mirrors one. */
module Matrices {

  type Matrix<T> = seq<seq<T>>

  /** `m` has `n` rows of `n` cells each. */
  ghost predicate IsSquare<T>(m: Matrix<T>, n: nat) {
    |m| == n && forall i :: 0 <= i < n ==> |m[i]| == n
  }

  /** The n-by-n matrix whose cell (i, j) is `f(i, j)`. */
  function Tabulate<T>(n: nat, f: (nat, nat) -> T): (m: Matrix<T>)
    ensures IsSquare(m, n)
    ensures forall i, j :: 0 <= i < n && 0 <= j < n ==> m[i][j] == f(i, j)
  {
    seq(n, (i: int) requires 0 <= i < n => seq(n, (j: int) requires 0 <= j < n => f(i, j)))
  }

  /** Two n-by-n matrices with the same cells are equal. */
  lemma SameMatrix<T>(m: Matrix<T>, m': Matrix<T>, n: nat)
    requires IsSquare(m, n) && IsSquare(m', n)
    requires forall a, b :: 0 <= a < n && 0 <= b < n ==> m[a][b] == m'[a][b]
    ensures m == m'
  {
    forall a | 0 <= a < n
      ensures m[a] == m'[a]
    {
      assert forall b :: 0 <= b < n ==> m[a][b] == m'[a][b];
    }
  }

  /** `m` with cell (i, j) replaced by `x`. */
  function Update<T>(m: Matrix<T>, i: nat, j: nat, x: T): (r: Matrix<T>)
    requires i < |m| && j < |m[i]|
    ensures |r| == |m| && forall a :: 0 <= a < |m| ==> |r[a]| == |m[a]|
    ensures forall a, b :: 0 <= a < |m| && 0 <= b < |m[a]| ==>
              r[a][b] == if a == i && b == j then x else m[a][b]
  {
    m[i := m[i][j := x]]
  }

  /** The array `a` holds exactly the cells of `m`. */
  ghost predicate Mirrors<T>(a: array2<T>, m: Matrix<T>)
    reads a
  {
    && |m| == a.Length0
    && (forall i :: 0 <= i < |m| ==> |m[i]| == a.Length1)
    && (forall i, j :: 0 <= i < a.Length0 && 0 <= j < a.Length1 ==> a[i, j] == m[i][j])
  }
}
