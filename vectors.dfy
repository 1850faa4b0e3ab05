/**
 * Resource vectors and the users-by-resources matrix, as the simulator keeps
 * them with numpy: one `real` per resource type, no rounding.
 */
module Vectors {

  type Vector = seq<real>
  type Matrix = seq<seq<real>>

  function Zeros(n: nat): (z: Vector)
    ensures |z| == n && forall r :: 0 <= r < n ==> z[r] == 0.0
  {
    seq(n, _ => 0.0)
  }

  /** Componentwise sum, numpy's `a + b` on two vectors of one length. */
  function Plus(a: Vector, b: Vector): (c: Vector)
    requires |a| == |b|
    ensures |c| == |a| && forall r :: 0 <= r < |a| ==> c[r] == a[r] + b[r]
  {
    seq(|a|, r requires 0 <= r < |a| => a[r] + b[r])
  }

  /** Componentwise difference, numpy's `a - b`. */
  function Minus(a: Vector, b: Vector): (c: Vector)
    requires |a| == |b|
    ensures |c| == |a| && forall r :: 0 <= r < |a| ==> c[r] == a[r] - b[r]
  {
    seq(|a|, r requires 0 <= r < |a| => a[r] - b[r])
  }

  predicate NonNegative(a: Vector) {
    forall r :: 0 <= r < |a| ==> 0.0 <= a[r]
  }

  predicate Positive(a: Vector) {
    forall r :: 0 <= r < |a| ==> 0.0 < a[r]
  }

  predicate IsMatrix(m: Matrix, rows: nat, cols: nat) {
    |m| == rows && forall u :: 0 <= u < rows ==> |m[u]| == cols
  }

  function ZeroMatrix(rows: nat, cols: nat): (m: Matrix)
    ensures IsMatrix(m, rows, cols)
    ensures forall u :: 0 <= u < rows ==> m[u] == Zeros(cols)
  {
    seq(rows, _ => Zeros(cols))
  }

  /** Column `r` of `m` summed over its rows: one entry of `m.sum(axis=0)`. */
  function ColumnSum(m: Matrix, r: nat): real
    requires forall u :: 0 <= u < |m| ==> r < |m[u]|
  {
    if m == [] then 0.0 else m[0][r] + ColumnSum(m[1..], r)
  }

  /** `c` is `m.sum(axis=0)` for an `n`-column matrix `m`. */
  predicate SumsColumns(c: Vector, m: Matrix, n: nat)
    requires IsMatrix(m, |m|, n)
  {
    |c| == n && forall r :: 0 <= r < n ==> c[r] == ColumnSum(m, r)
  }

  /** Adding `d` to one row adds `d[r]` to column `r`'s sum. */
  lemma {:induction false} ColumnSumPlusRow(m: Matrix, n: nat, u: nat, d: Vector, r: nat)
    requires IsMatrix(m, |m|, n) && u < |m| && |d| == n && r < n
    ensures IsMatrix(m[u := Plus(m[u], d)], |m|, n)
    ensures ColumnSum(m[u := Plus(m[u], d)], r) == ColumnSum(m, r) + d[r]
  {
    var m' := m[u := Plus(m[u], d)];
    if u == 0 {
      assert m'[1..] == m[1..];
    } else {
      assert m'[1..] == m[1..][u - 1 := Plus(m[1..][u - 1], d)];
      ColumnSumPlusRow(m[1..], n, u - 1, d, r);
    }
  }

  /** Subtracting `d` from one row subtracts `d[r]` from column `r`'s sum. */
  lemma {:induction false} ColumnSumMinusRow(m: Matrix, n: nat, u: nat, d: Vector, r: nat)
    requires IsMatrix(m, |m|, n) && u < |m| && |d| == n && r < n
    ensures IsMatrix(m[u := Minus(m[u], d)], |m|, n)
    ensures ColumnSum(m[u := Minus(m[u], d)], r) == ColumnSum(m, r) - d[r]
  {
    var m' := m[u := Minus(m[u], d)];
    if u == 0 {
      assert m'[1..] == m[1..];
    } else {
      assert m'[1..] == m[1..][u - 1 := Minus(m[1..][u - 1], d)];
      ColumnSumMinusRow(m[1..], n, u - 1, d, r);
    }
  }

  /** Every column of a zero matrix sums to zero. */
  lemma {:induction false} ColumnSumOfZero(rows: nat, n: nat, r: nat)
    requires r < n
    ensures ColumnSum(ZeroMatrix(rows, n), r) == 0.0
  {
    if rows > 0 {
      assert ZeroMatrix(rows, n)[1..] == ZeroMatrix(rows - 1, n);
      ColumnSumOfZero(rows - 1, n, r);
    }
  }

  /** Adding `d` to one row adds `d` to the column sums. */
  lemma SumsColumnsPlusRow(c: Vector, m: Matrix, n: nat, u: nat, d: Vector)
    requires IsMatrix(m, |m|, n) && SumsColumns(c, m, n) && u < |m| && |d| == n
    ensures IsMatrix(m[u := Plus(m[u], d)], |m|, n)
    ensures SumsColumns(Plus(c, d), m[u := Plus(m[u], d)], n)
  {
    forall r | 0 <= r < n
      ensures Plus(c, d)[r] == ColumnSum(m[u := Plus(m[u], d)], r)
    {
      ColumnSumPlusRow(m, n, u, d, r);
    }
  }

  /** Subtracting `d` from one row subtracts `d` from the column sums. */
  lemma SumsColumnsMinusRow(c: Vector, m: Matrix, n: nat, u: nat, d: Vector)
    requires IsMatrix(m, |m|, n) && SumsColumns(c, m, n) && u < |m| && |d| == n
    ensures IsMatrix(m[u := Minus(m[u], d)], |m|, n)
    ensures SumsColumns(Minus(c, d), m[u := Minus(m[u], d)], n)
  {
    forall r | 0 <= r < n
      ensures Minus(c, d)[r] == ColumnSum(m[u := Minus(m[u], d)], r)
    {
      ColumnSumMinusRow(m, n, u, d, r);
    }
  }

  /** A zero matrix has zero column sums. */
  lemma SumsColumnsOfZero(rows: nat, n: nat)
    ensures SumsColumns(Zeros(n), ZeroMatrix(rows, n), n)
  {
    forall r | 0 <= r < n
      ensures ColumnSum(ZeroMatrix(rows, n), r) == 0.0
    {
      ColumnSumOfZero(rows, n, r);
    }
  }

  /** Taking away what was just added gives back the original vector. */
  lemma MinusUndoesPlus(a: Vector, d: Vector)
    requires |a| == |d|
    ensures Minus(Plus(a, d), d) == a
  {
  }

  /** numpy's `np.max` over a non-empty vector. */
  function Max(s: Vector): (m: real)
    requires |s| > 0
    ensures forall r :: 0 <= r < |s| ==> s[r] <= m
    ensures exists r :: 0 <= r < |s| && s[r] == m
  {
    if |s| == 1 then s[0]
    else
      var rest := Max(s[1..]);
      assert forall r :: 1 <= r < |s| ==> s[r] == s[1..][r - 1];
      if s[0] >= rest then s[0] else rest
  }

  /** `x` is one of the entries of `row`. */
  predicate Attains(row: Vector, x: real) {
    exists r :: 0 <= r < |row| && row[r] == x
  }

  /** Two vectors that agree everywhere have the same maximum. */
  lemma MaxExtensional(a: Vector, b: Vector)
    requires |a| == |b| > 0
    requires forall r :: 0 <= r < |a| ==> a[r] == b[r]
    ensures Max(a) == Max(b)
  {
    assert a == b;
  }
}
