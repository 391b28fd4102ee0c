/** Dense Gaussian elimination with partial pivoting, over exact reals. */
module Dense {
  import opened Options

  type Vector = seq<real>
  type Matrix = seq<seq<real>>

  predicate Square(a: Matrix, n: nat) {
    |a| == n && forall r :: 0 <= r < n ==> |a[r]| == n
  }

  function DotTo(x: Vector, y: Vector, k: nat): real
    requires k <= |x| && k <= |y|
  {
    if k == 0 then 0.0 else DotTo(x, y, k - 1) + x[k - 1] * y[k - 1]
  }

  function Dot(x: Vector, y: Vector): real
    requires |x| == |y|
  {
    DotTo(x, y, |x|)
  }

  /** Every row of `a` at `v` is `t` times its right-hand side: `t` is 1 for a solution, 0 for a kernel vector. */
  ghost predicate Satisfies(a: Matrix, b: Vector, v: Vector, t: real) {
    Square(a, |b|) && |v| == |b| && forall r :: 0 <= r < |b| ==> Dot(a[r], v) == b[r] * t
  }

  ghost predicate Solution(a: Matrix, b: Vector, v: Vector) {
    Satisfies(a, b, v, 1.0)
  }

  /** `w` is a nonzero vector that `a` sends to zero. */
  ghost predicate KernelVector(a: Matrix, w: Vector) {
    && Square(a, |w|)
    && (exists k :: 0 <= k < |w| && w[k] != 0.0)
    && forall r :: 0 <= r < |w| ==> Dot(a[r], w) == 0.0
  }

  ghost predicate Singular(a: Matrix) {
    exists w :: KernelVector(a, w)
  }

  ghost predicate Equivalent(a: Matrix, b: Vector, a': Matrix, b': Vector) {
    && |b| == |b'| && Square(a, |b|) && Square(a', |b|)
    && forall v, t :: Satisfies(a, b, v, t) <==> Satisfies(a', b', v, t)
  }

  // ----- dot products -----

  lemma {:induction false} DotCombine(x: Vector, p: Vector, f: real, y: Vector, z: Vector, k: nat)
    requires |x| == |p| == |y| == |z| && k <= |x|
    requires forall j :: 0 <= j < k ==> z[j] == x[j] - f * p[j]
    ensures DotTo(z, y, k) == DotTo(x, y, k) - f * DotTo(p, y, k)
  {
    if k > 0 {
      DotCombine(x, p, f, y, z, k - 1);
      assert z[k - 1] * y[k - 1] == x[k - 1] * y[k - 1] - f * (p[k - 1] * y[k - 1]);
    }
  }

  lemma {:induction false} DotDifference(x: Vector, v: Vector, w: Vector, d: Vector, k: nat)
    requires |x| == |v| == |w| == |d| && k <= |x|
    requires forall j :: 0 <= j < k ==> d[j] == v[j] - w[j]
    ensures DotTo(x, d, k) == DotTo(x, v, k) - DotTo(x, w, k)
  {
    if k > 0 {
      DotDifference(x, v, w, d, k - 1);
      assert x[k - 1] * d[k - 1] == x[k - 1] * v[k - 1] - x[k - 1] * w[k - 1];
    }
  }

  /** A prefix sees only its own entries, and a factor of zero hides the other. */
  lemma {:induction false} DotAgree(x: Vector, v: Vector, w: Vector, k: nat)
    requires |x| == |v| == |w| && k <= |x|
    requires forall j :: 0 <= j < k ==> x[j] == 0.0 || v[j] == w[j]
    ensures DotTo(x, v, k) == DotTo(x, w, k)
  {
    if k > 0 {
      DotAgree(x, v, w, k - 1);
    }
  }

  lemma {:induction false} DotZero(x: Vector, v: Vector, k: nat)
    requires |x| == |v| && k <= |x|
    requires forall j :: 0 <= j < k ==> x[j] == 0.0 || v[j] == 0.0
    ensures DotTo(x, v, k) == 0.0
  {
    if k > 0 {
      DotZero(x, v, k - 1);
    }
  }

  /** Changing one entry of a row changes the dot product by the change times that coordinate. */
  lemma {:induction false} DotBump(x: Vector, y: Vector, at: nat, change: real, k: nat)
    requires |x| == |y| && at < |x| && k <= |x|
    ensures DotTo(x[at := x[at] + change], y, k) == DotTo(x, y, k) + if at < k then change * y[at] else 0.0
  {
    if k > 0 {
      DotBump(x, y, at, change, k - 1);
      if at == k - 1 {
        assert (x[at] + change) * y[at] == x[at] * y[at] + change * y[at];
      }
    }
  }

  // ----- row operations keep the solutions -----

  lemma EquivalentSelf(a: Matrix, b: Vector)
    requires Square(a, |b|)
    ensures Equivalent(a, b, a, b)
  {
  }

  lemma EquivalentTransitive(a: Matrix, b: Vector, a': Matrix, b': Vector, a'': Matrix, b'': Vector)
    requires Equivalent(a, b, a', b') && Equivalent(a', b', a'', b'')
    ensures Equivalent(a, b, a'', b'')
  {
    forall v, t ensures Satisfies(a, b, v, t) <==> Satisfies(a'', b'', v, t) {
      assert Satisfies(a, b, v, t) <==> Satisfies(a', b', v, t);
    }
  }

  lemma SwapEquivalent(a: Matrix, b: Vector, i: nat, j: nat)
    requires Square(a, |b|) && i < |b| && j < |b|
    ensures Equivalent(a, b, a[i := a[j]][j := a[i]], b[i := b[j]][j := b[i]])
  {
    var a', b' := a[i := a[j]][j := a[i]], b[i := b[j]][j := b[i]];
    forall v, t ensures Satisfies(a, b, v, t) <==> Satisfies(a', b', v, t) {
      if Satisfies(a', b', v, t) {
        forall r | 0 <= r < |b| ensures Dot(a[r], v) == b[r] * t {
          var s := if r == i then j else if r == j then i else r;
          assert Dot(a'[s], v) == b'[s] * t;
        }
      }
    }
  }

  ghost predicate IsCombined(x: Vector, p: Vector, f: real, z: Vector) {
    |x| == |p| == |z| && forall j :: 0 <= j < |x| ==> z[j] == x[j] - f * p[j]
  }

  lemma CombineKeeps(a: Matrix, b: Vector, row: nat, pivot: nat, f: real, z: Vector, v: Vector, t: real)
    requires Square(a, |b|) && row < |b| && pivot < |b| && row != pivot
    requires IsCombined(a[row], a[pivot], f, z)
    requires Satisfies(a, b, v, t)
    ensures Satisfies(a[row := z], b[row := b[row] - f * b[pivot]], v, t)
  {
    DotCombine(a[row], a[pivot], f, v, z, |v|);
    assert Dot(a[row], v) == b[row] * t && Dot(a[pivot], v) == b[pivot] * t;
    assert Dot(z, v) == (b[row] - f * b[pivot]) * t;
  }

  lemma CombineEquivalent(a: Matrix, b: Vector, row: nat, pivot: nat, f: real, z: Vector)
    requires Square(a, |b|) && row < |b| && pivot < |b| && row != pivot
    requires IsCombined(a[row], a[pivot], f, z)
    ensures Equivalent(a, b, a[row := z], b[row := b[row] - f * b[pivot]])
  {
    var a', b' := a[row := z], b[row := b[row] - f * b[pivot]];
    assert IsCombined(z, a'[pivot], -f, a[row]);
    assert a'[row := a[row]] == a;
    assert b'[row] - (-f) * b'[pivot] == b[row];
    assert b'[row := b'[row] - (-f) * b'[pivot]] == b;
    forall v, t ensures Satisfies(a, b, v, t) <==> Satisfies(a', b', v, t) {
      if Satisfies(a, b, v, t) {
        CombineKeeps(a, b, row, pivot, f, z, v, t);
      } else if Satisfies(a', b', v, t) {
        CombineKeeps(a', b', row, pivot, -f, a[row], v, t);
      }
    }
  }

  // ----- the elimination -----

  function Abs(x: real): real {
    if x < 0.0 then -x else x
  }

  /** The first `col` columns are reduced: nonzero pivots, nothing below them. */
  ghost predicate Reduced(a: Matrix, n: nat, col: nat) {
    && Square(a, n) && col <= n
    && (forall k :: 0 <= k < col ==> a[k][k] != 0.0)
    && (forall r, c :: 0 <= c < col && c < r < n ==> a[r][c] == 0.0)
  }

  /** The row at or below `col` with the largest entry in that column, the last of equals. */
  method PivotRow(a: Matrix, col: nat) returns (pivot: nat)
    requires Square(a, |a|) && col < |a|
    ensures col <= pivot < |a|
    ensures forall r :: col <= r < |a| ==> Abs(a[r][col]) <= Abs(a[pivot][col])
    ensures forall r :: pivot < r < |a| ==> Abs(a[r][col]) < Abs(a[pivot][col])
  {
    pivot := col;
    for r := col + 1 to |a|
      invariant col <= pivot < r
      invariant forall s :: col <= s < r ==> Abs(a[s][col]) <= Abs(a[pivot][col])
      invariant forall s :: pivot < s < r ==> Abs(a[s][col]) < Abs(a[pivot][col])
    {
      if Abs(a[r][col]) >= Abs(a[pivot][col]) {
        pivot := r;
      }
    }
  }

  /** `row` less `factor` times the pivot row, from column `col` on. */
  method SubtractFrom(row: Vector, pivot: Vector, factor: real, col: nat) returns (z: Vector)
    requires |row| == |pivot| && col <= |row|
    requires forall j :: 0 <= j < col ==> pivot[j] == 0.0
    ensures IsCombined(row, pivot, factor, z)
  {
    z := row;
    for j := col to |row|
      invariant |z| == |row|
      invariant forall i :: 0 <= i < j ==> z[i] == row[i] - factor * pivot[i]
      invariant forall i :: j <= i < |row| ==> z[i] == row[i]
    {
      z := z[j := z[j] - factor * pivot[j]];
    }
  }

  /** Clear column `col` below its pivot. */
  method EliminateBelow(a0: Matrix, b0: Vector, col: nat) returns (a: Matrix, b: Vector)
    requires col < |b0| && Reduced(a0, |b0|, col) && a0[col][col] != 0.0
    ensures |b| == |b0| && Reduced(a, |b|, col + 1)
    ensures Equivalent(a0, b0, a, b)
  {
    a, b := a0, b0;
    EquivalentSelf(a, b);
    for r := col + 1 to |b0|
      invariant |b| == |b0| && Reduced(a, |b|, col) && a[col] == a0[col]
      invariant forall s :: col < s < r ==> a[s][col] == 0.0
      invariant Equivalent(a0, b0, a, b)
    {
      var factor := a[r][col] / a[col][col];
      if factor != 0.0 {
        var z := SubtractFrom(a[r], a[col], factor, col);
        CombineEquivalent(a, b, r, col, factor, z);
        EquivalentTransitive(a0, b0, a, b, a[r := z], b[r := b[r] - factor * b[col]]);
        assert factor * a[col][col] == a[r][col];
        a, b := a[r := z], b[r := b[r] - factor * b[col]];
      }
    }
  }

  /** The unknowns of an upper-triangular system, from the last row up. */
  method BackSubstitute(a: Matrix, b: Vector) returns (v: Vector)
    requires Reduced(a, |b|, |b|)
    ensures Solution(a, b, v)
  {
    v := seq(|b|, _ => 0.0);
    var row := |b|;
    while row > 0
      invariant 0 <= row <= |b| == |v|
      invariant forall r :: row <= r < |b| ==> Dot(a[r], v) == b[r]
      invariant forall j :: 0 <= j < row ==> v[j] == 0.0
    {
      row := row - 1;
      var acc := b[row];
      DotZero(a[row], v, row + 1);
      for j := row + 1 to |b|
        invariant acc == b[row] - DotTo(a[row], v, j)
      {
        acc := acc - a[row][j] * v[j];
      }
      var w := v[row := acc / a[row][row]];
      forall r | row < r < |b| ensures Dot(a[r], w) == b[r] {
        DotAgree(a[r], w, v, |b|);
      }
      SolvesRow(a[row], v, w, row, acc);
      v := w;
    }
  }

  lemma {:induction false} SolvesRow(x: Vector, v: Vector, w: Vector, at: nat, acc: real)
    requires |x| == |v| && at < |x| && x[at] != 0.0 && v[at] == 0.0 && w == v[at := acc / x[at]]
    ensures Dot(x, w) == Dot(x, v) + acc
  {
    SolvesRowTo(x, v, w, at, acc, |x|);
  }

  lemma {:induction false} SolvesRowTo(x: Vector, v: Vector, w: Vector, at: nat, acc: real, k: nat)
    requires |x| == |v| && at < |x| && x[at] != 0.0 && v[at] == 0.0 && w == v[at := acc / x[at]]
    requires k <= |x|
    ensures DotTo(x, w, k) == DotTo(x, v, k) + if at < k then acc else 0.0
  {
    if k > 0 {
      SolvesRowTo(x, v, w, at, acc, k - 1);
    }
  }

  // ----- existence and uniqueness -----

  /** With nonzero pivots, a triangular system sends only zero to zero. */
  lemma {:induction false} TriangularTrivial(a: Matrix, w: Vector, from: nat)
    requires Reduced(a, |w|, |w|) && from <= |w|
    requires forall r :: 0 <= r < |w| ==> Dot(a[r], w) == 0.0
    ensures forall j :: from <= j < |w| ==> w[j] == 0.0
    decreases |w| - from
  {
    if from < |w| {
      TriangularTrivial(a, w, from + 1);
      DotSingle(a[from], w, from, |w|);
    }
  }

  lemma {:induction false} DotSingle(x: Vector, w: Vector, at: nat, k: nat)
    requires |x| == |w| && at < |x| && k <= |x|
    requires forall j :: 0 <= j < k && j != at ==> x[j] == 0.0 || w[j] == 0.0
    ensures DotTo(x, w, k) == if at < k then x[at] * w[at] else 0.0
  {
    if k > 0 {
      DotSingle(x, w, at, k - 1);
    }
  }

  /** A column with no pivot left gives a kernel vector: 1 in that column, back-substituted above it. */
  lemma {:induction false} StuckColumn(a: Matrix, n: nat, col: nat, row: nat) returns (w: Vector)
    requires Reduced(a, n, col) && row <= col < n
    ensures |w| == n && w[col] == 1.0
    ensures forall j :: 0 <= j < row || col < j < n ==> w[j] == 0.0
    ensures forall r :: row <= r < col ==> Dot(a[r], w) == 0.0
    decreases col - row
  {
    if row == col {
      w := seq(n, j => if j == col then 1.0 else 0.0);
    } else {
      var u := StuckColumn(a, n, col, row + 1);
      var acc := 0.0 - Dot(a[row], u);
      w := u[row := acc / a[row][row]];
      SolvesRow(a[row], u, w, row, acc);
      forall r | row < r < col ensures Dot(a[r], w) == 0.0 {
        DotAgree(a[r], w, u, n);
      }
    }
  }

  lemma StuckIsSingular(a: Matrix, b: Vector, col: nat)
    requires Reduced(a, |b|, col) && col < |b|
    requires forall r :: col <= r < |b| ==> a[r][col] == 0.0
    ensures exists w :: w != seq(|b|, _ => 0.0) && Satisfies(a, b, w, 0.0)
  {
    var w := StuckColumn(a, |b|, col, 0);
    forall r | 0 <= r < |b| ensures Dot(a[r], w) == b[r] * 0.0 {
      if r >= col {
        DotZero(a[r], w, |b|);
      }
    }
    assert Satisfies(a, b, w, 0.0);
    assert w[col] != (seq(|b|, _ => 0.0))[col];
  }

  lemma KernelIsSingular(a: Matrix, b: Vector, w: Vector)
    requires Satisfies(a, b, w, 0.0) && w != seq(|b|, _ => 0.0)
    ensures KernelVector(a, w)
  {
    var zero := seq(|b|, _ => 0.0);
    var k :| 0 <= k < |w| && w[k] != zero[k];
    forall r | 0 <= r < |w| ensures Dot(a[r], w) == 0.0 {
      assert Dot(a[r], w) == b[r] * 0.0;
    }
  }

  /** Two solutions differ by a kernel vector or not at all. */
  lemma SolutionsDiffer(a: Matrix, b: Vector, v: Vector, w: Vector)
    requires Solution(a, b, v) && Solution(a, b, w) && v != w
    ensures Singular(a)
  {
    var d := seq(|v|, j requires 0 <= j < |v| == |w| => v[j] - w[j]);
    forall r | 0 <= r < |b| ensures Dot(a[r], d) == 0.0 {
      DotDifference(a[r], v, w, d, |b|);
      assert Dot(a[r], v) == b[r] * 1.0 && Dot(a[r], w) == b[r] * 1.0;
    }
    var k :| 0 <= k < |v| && v[k] != w[k];
    assert d[k] != 0.0;
    assert KernelVector(a, d);
  }

  lemma ReducedNotSingular(a0: Matrix, a: Matrix, b0: Vector, b: Vector)
    requires Reduced(a, |b|, |b|) && Equivalent(a0, b0, a, b)
    ensures !Singular(a0)
  {
    if Singular(a0) {
      var w :| KernelVector(a0, w);
      assert |w| == |b0|;
      forall r | 0 <= r < |b0| ensures Dot(a0[r], w) == b0[r] * 0.0 {
      }
      assert Satisfies(a0, b0, w, 0.0);
      assert Satisfies(a, b, w, 0.0);
      forall r | 0 <= r < |w| ensures Dot(a[r], w) == 0.0 {
        assert Dot(a[r], w) == b[r] * 0.0;
      }
      TriangularTrivial(a, w, 0);
    }
  }

  /**
   * Gaussian elimination finds the solution exactly when there is one and only one: a pivot column
   * that collapses to zero means some nonzero vector is sent to zero.
   */
  method SolveDense(matrix: Matrix, rhs: Vector) returns (solved: Option<Vector>)
    requires Square(matrix, |rhs|)
    ensures solved.Some? ==> Solution(matrix, rhs, solved.value)
    ensures solved.Some? ==> forall w :: Solution(matrix, rhs, w) ==> w == solved.value
    ensures solved.None? <==> Singular(matrix)
  {
    var a, b := matrix, rhs;
    EquivalentSelf(a, b);
    for col := 0 to |rhs|
      invariant |b| == |rhs| && Reduced(a, |b|, col)
      invariant Equivalent(matrix, rhs, a, b)
    {
      var pivot := PivotRow(a, col);
      if Abs(a[pivot][col]) == 0.0 {
        forall r | col <= r < |b| ensures a[r][col] == 0.0 {
          assert Abs(a[r][col]) <= Abs(a[pivot][col]);
        }
        StuckIsSingular(a, b, col);
        ghost var w :| w != seq(|b|, _ => 0.0) && Satisfies(a, b, w, 0.0);
        KernelIsSingular(matrix, rhs, w);
        return None;
      }
      SwapEquivalent(a, b, col, pivot);
      EquivalentTransitive(matrix, rhs, a, b, a[col := a[pivot]][pivot := a[col]], b[col := b[pivot]][pivot := b[col]]);
      a, b := a[col := a[pivot]][pivot := a[col]], b[col := b[pivot]][pivot := b[col]];
      ghost var swapped, swappedRhs := a, b;
      a, b := EliminateBelow(a, b, col);
      EquivalentTransitive(matrix, rhs, swapped, swappedRhs, a, b);
    }
    ReducedNotSingular(matrix, a, rhs, b);
    var v := BackSubstitute(a, b);
    assert Solution(matrix, rhs, v);
    forall w | Solution(matrix, rhs, w) ensures w == v {
      if w != v {
        SolutionsDiffer(matrix, rhs, v, w);
      }
    }
    solved := Some(v);
  }
}
