/** Dense matrices and vectors as values, the way the factor layer copies and
    multiplies its weighting matrix and its Jacobian blocks. */
module Matrices {

  datatype Mat<E> = Mat(rows: nat, cols: nat, entries: seq<seq<E>>) {
    /** Every row holds exactly `cols` entries and there are `rows` rows. */
    ghost predicate WellFormed() {
      |entries| == rows && forall i :: 0 <= i < |entries| ==> |entries[i]| == cols
    }
  }

  type Matrix<E> = m: Mat<E> | m.WellFormed() witness Mat(0, 0, [])

  /** Sum of a[i] * b[i] over the first k positions. */
  function DotUpTo(a: seq<real>, b: seq<real>, k: nat): real
    requires k <= |a| && k <= |b|
  {
    if k == 0 then 0.0 else DotUpTo(a, b, k - 1) + a[k - 1] * b[k - 1]
  }

  /** Column j of m as a vector. */
  function Column(m: Matrix<real>, j: nat): (v: seq<real>)
    requires j < m.cols
    ensures |v| == m.rows && forall i :: 0 <= i < m.rows ==> v[i] == m.entries[i][j]
  {
    seq(m.rows, i requires 0 <= i < m.rows => m.entries[i][j])
  }

  /** The matrix product a * b. */
  function Mul(a: Matrix<real>, b: Matrix<real>): (p: Matrix<real>)
    requires a.cols == b.rows
    ensures p.rows == a.rows && p.cols == b.cols
  {
    Mat(a.rows, b.cols,
        seq(a.rows, i requires 0 <= i < a.rows =>
          seq(b.cols, j requires 0 <= j < b.cols => DotUpTo(a.entries[i], Column(b, j), a.cols))))
  }

  /** The matrix-vector product m * v. */
  function MulVec(m: Matrix<real>, v: seq<real>): (r: seq<real>)
    requires |v| == m.cols
    ensures |r| == m.rows
  {
    seq(m.rows, i requires 0 <= i < m.rows => DotUpTo(m.entries[i], v, m.cols))
  }

  /** The n x n identity matrix. */
  function Identity(n: nat): (e: Matrix<real>)
    ensures e.rows == n && e.cols == n
    ensures forall i, j :: 0 <= i < n && 0 <= j < n ==> e.entries[i][j] == if i == j then 1.0 else 0.0
  {
    Mat(n, n, seq(n, i requires 0 <= i < n => seq(n, j requires 0 <= j < n => if i == j then 1.0 else 0.0)))
  }

  function Zeros(n: nat): (z: seq<real>)
    ensures |z| == n && forall i :: 0 <= i < n ==> z[i] == 0.0
  {
    seq(n, _ => 0.0)
  }

  /** Against a unit vector, a dot product picks out one entry. */
  lemma {:induction false} DotWithUnit(a: seq<real>, u: seq<real>, j: nat, k: nat)
    requires k <= |a| && k <= |u| && j < |u|
    requires forall l :: 0 <= l < |u| ==> u[l] == if l == j then 1.0 else 0.0
    ensures DotUpTo(a, u, k) == if j < k then a[j] else 0.0
  {
    if k > 0 {
      DotWithUnit(a, u, j, k - 1);
    }
  }

  /** Against the zero vector, a dot product is zero. */
  lemma {:induction false} DotWithZeros(a: seq<real>, k: nat)
    requires k <= |a|
    ensures DotUpTo(a, Zeros(|a|), k) == 0.0
  {
    if k > 0 {
      DotWithZeros(a, k - 1);
    }
  }

  /** Multiplying by the identity on the right leaves a matrix unchanged. */
  lemma MulIdentity(m: Matrix<real>)
    ensures Mul(m, Identity(m.cols)) == m
  {
    var p := Mul(m, Identity(m.cols));
    forall i, j | 0 <= i < m.rows && 0 <= j < m.cols
      ensures p.entries[i][j] == m.entries[i][j]
    {
      DotWithUnit(m.entries[i], Column(Identity(m.cols), j), j, m.cols);
    }
    assert forall i :: 0 <= i < m.rows ==> p.entries[i] == m.entries[i];
  }

  /** A matrix maps the zero vector to the zero vector. */
  lemma MulVecZeros(m: Matrix<real>)
    ensures MulVec(m, Zeros(m.cols)) == Zeros(m.rows)
  {
    forall i | 0 <= i < m.rows
      ensures MulVec(m, Zeros(m.cols))[i] == 0.0
    {
      DotWithZeros(m.entries[i], m.cols);
    }
  }
}
