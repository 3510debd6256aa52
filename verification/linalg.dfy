/** Exact linear algebra over `real` for the small dense matrices and vectors
    that the generated derivative code manipulates. Sums are accumulated from
    index 0 upwards, which is the order in which the generated loops add. */
module LinAlg {

  type Vector = seq<real>
  type Matrix = seq<seq<real>>

  /** `a` has exactly `rows` rows of exactly `cols` entries each. */
  predicate IsMatrix(a: Matrix, rows: nat, cols: nat) {
    |a| == rows && forall i :: 0 <= i < rows ==> |a[i]| == cols
  }

  /** Entry (i, j) of `a`; reads as zero outside the stored range. */
  function At(a: Matrix, i: int, j: int): real {
    if 0 <= i < |a| && 0 <= j < |a[i]| then a[i][j] else 0.0
  }

  /** Entry i of `v`; reads as zero outside the stored range. */
  function Get(v: Vector, i: int): real {
    if 0 <= i < |v| then v[i] else 0.0
  }

  /** f(0) + f(1) + ... + f(n - 1), added left to right. */
  function Sum(n: nat, f: nat -> real): real {
    if n == 0 then 0.0 else Sum(n - 1, f) + f(n - 1)
  }

  lemma {:induction false} SumExt(n: nat, f: nat -> real, g: nat -> real)
    requires forall k :: 0 <= k < n ==> f(k) == g(k)
    ensures Sum(n, f) == Sum(n, g)
  {
    if n > 0 {
      SumExt(n - 1, f, g);
    }
  }

  lemma {:induction false} SumAdd(n: nat, f: nat -> real, g: nat -> real, h: nat -> real)
    requires forall k :: 0 <= k < n ==> h(k) == f(k) + g(k)
    ensures Sum(n, h) == Sum(n, f) + Sum(n, g)
  {
    if n > 0 {
      SumAdd(n - 1, f, g, h);
    }
  }

  lemma {:induction false} SumScale(n: nat, c: real, f: nat -> real, g: nat -> real)
    requires forall k :: 0 <= k < n ==> g(k) == c * f(k)
    ensures Sum(n, g) == c * Sum(n, f)
  {
    if n > 0 {
      SumScale(n - 1, c, f, g);
    }
  }

  /** A sum with at most one non-zero term is that term. */
  lemma {:induction false} SumSingle(n: nat, j: nat, f: nat -> real)
    requires j < n
    requires forall k :: 0 <= k < n && k != j ==> f(k) == 0.0
    ensures Sum(n, f) == f(j)
  {
    if n - 1 == j {
      SumZero(n - 1, f);
    } else {
      SumSingle(n - 1, j, f);
    }
  }

  lemma {:induction false} SumZero(n: nat, f: nat -> real)
    requires forall k :: 0 <= k < n ==> f(k) == 0.0
    ensures Sum(n, f) == 0.0
  {
    if n > 0 {
      SumZero(n - 1, f);
    }
  }

  /** Row sum of a two-index family, as a named function so that the
      inductive steps of SumSwap refer to the same term. */
  function RowSums(m: nat, f: (nat, nat) -> real): nat -> real {
    (i: nat) => Sum(m, (j: nat) => f(i, j))
  }

  function ColSums(n: nat, f: (nat, nat) -> real): nat -> real {
    (j: nat) => Sum(n, (i: nat) => f(i, j))
  }

  /** The order of a finite double sum does not matter. */
  lemma {:induction false} SumSwap(n: nat, m: nat, f: (nat, nat) -> real)
    ensures Sum(n, RowSums(m, f)) == Sum(m, ColSums(n, f))
  {
    if n > 0 {
      SumSwap(n - 1, m, f);
      SumAdd(m, ColSums(n - 1, f), (j: nat) => f(n - 1, j), ColSums(n, f));
    } else {
      SumZero(m, ColSums(0, f));
    }
  }

  function Identity(m: nat): (id: Matrix)
    ensures IsMatrix(id, m, m)
  {
    seq(m, i requires 0 <= i < m => seq(m, j requires 0 <= j < m => if i == j then 1.0 else 0.0))
  }

  function Zero(rows: nat, cols: nat): (z: Matrix)
    ensures IsMatrix(z, rows, cols)
  {
    seq(rows, i requires 0 <= i < rows => seq(cols, j requires 0 <= j < cols => 0.0))
  }

  /** Transpose of the m x m top-left block of `a`. */
  function Transpose(m: nat, a: Matrix): (t: Matrix)
    ensures IsMatrix(t, m, m)
  {
    seq(m, i requires 0 <= i < m => seq(m, j requires 0 <= j < m => At(a, j, i)))
  }

  /** Product of the m x m top-left blocks of `a` and `b`. */
  function MatMul(m: nat, a: Matrix, b: Matrix): (c: Matrix)
    ensures IsMatrix(c, m, m)
  {
    seq(m, i requires 0 <= i < m => seq(m, j requires 0 <= j < m => Sum(m, (k: nat) => At(a, i, k) * At(b, k, j))))
  }

  lemma MatMulEntry(m: nat, a: Matrix, b: Matrix, i: nat, j: nat)
    requires i < m && j < m
    ensures MatMul(m, a, b)[i][j] == Sum(m, (k: nat) => At(a, i, k) * At(b, k, j))
  {
  }

  /** The terms a[i][k] * b[k][l] * c[l][j] of entry (i, j) of a triple product. */
  function Triple(a: Matrix, b: Matrix, c: Matrix, i: nat, j: nat): (nat, nat) -> real {
    (k: nat, l: nat) => At(a, i, k) * At(b, k, l) * At(c, l, j)
  }

  /** Entry (i, j) of (a b) c sums the triple terms over k inside, l outside. */
  lemma AssocLeft(m: nat, a: Matrix, b: Matrix, c: Matrix, i: nat, j: nat)
    requires i < m && j < m
    ensures MatMul(m, MatMul(m, a, b), c)[i][j] == Sum(m, ColSums(m, Triple(a, b, c, i, j)))
  {
    var ab := MatMul(m, a, b);
    var f := Triple(a, b, c, i, j);
    MatMulEntry(m, ab, c, i, j);
    forall l: nat | l < m
      ensures At(ab, i, l) * At(c, l, j) == ColSums(m, f)(l)
    {
      ColTerm(m, a, b, c, i, j, l);
    }
    SumExt(m, (l: nat) => At(ab, i, l) * At(c, l, j), ColSums(m, f));
  }

  lemma ColTerm(m: nat, a: Matrix, b: Matrix, c: Matrix, i: nat, j: nat, l: nat)
    requires i < m && l < m
    ensures At(MatMul(m, a, b), i, l) * At(c, l, j) == ColSums(m, Triple(a, b, c, i, j))(l)
  {
    var f := Triple(a, b, c, i, j);
    var x := At(c, l, j);
    MatMulEntry(m, a, b, i, l);
    forall k: nat | k < m
      ensures f(k, l) == x * (At(a, i, k) * At(b, k, l))
    {
    }
    SumScale(m, x, (k: nat) => At(a, i, k) * At(b, k, l), (k: nat) => f(k, l));
  }

  lemma RowTerm(m: nat, a: Matrix, b: Matrix, c: Matrix, i: nat, j: nat, k: nat)
    requires k < m && j < m
    ensures At(a, i, k) * At(MatMul(m, b, c), k, j) == RowSums(m, Triple(a, b, c, i, j))(k)
  {
    var f := Triple(a, b, c, i, j);
    var x := At(a, i, k);
    MatMulEntry(m, b, c, k, j);
    forall l: nat | l < m
      ensures f(k, l) == x * (At(b, k, l) * At(c, l, j))
    {
    }
    SumScale(m, x, (l: nat) => At(b, k, l) * At(c, l, j), (l: nat) => f(k, l));
  }

  /** Entry (i, j) of a (b c) sums the triple terms over l inside, k outside. */
  lemma AssocRight(m: nat, a: Matrix, b: Matrix, c: Matrix, i: nat, j: nat)
    requires i < m && j < m
    ensures MatMul(m, a, MatMul(m, b, c))[i][j] == Sum(m, RowSums(m, Triple(a, b, c, i, j)))
  {
    var bc := MatMul(m, b, c);
    var f := Triple(a, b, c, i, j);
    MatMulEntry(m, a, bc, i, j);
    forall k: nat | k < m
      ensures At(a, i, k) * At(bc, k, j) == RowSums(m, f)(k)
    {
      RowTerm(m, a, b, c, i, j, k);
    }
    SumExt(m, (k: nat) => At(a, i, k) * At(bc, k, j), RowSums(m, f));
  }

  /** Multiplication of m x m blocks is associative. */
  lemma MatMulAssoc(m: nat, a: Matrix, b: Matrix, c: Matrix)
    ensures MatMul(m, MatMul(m, a, b), c) == MatMul(m, a, MatMul(m, b, c))
  {
    var lhs := MatMul(m, MatMul(m, a, b), c);
    var rhs := MatMul(m, a, MatMul(m, b, c));
    forall i, j | 0 <= i < m && 0 <= j < m
      ensures lhs[i][j] == rhs[i][j]
    {
      AssocLeft(m, a, b, c, i, j);
      AssocRight(m, a, b, c, i, j);
      SumSwap(m, m, Triple(a, b, c, i, j));
    }
    assert forall i :: 0 <= i < m ==> lhs[i] == rhs[i];
  }

  lemma MatMulIdentityLeft(m: nat, a: Matrix)
    requires IsMatrix(a, m, m)
    ensures MatMul(m, Identity(m), a) == a
  {
    forall i, j | 0 <= i < m && 0 <= j < m
      ensures MatMul(m, Identity(m), a)[i][j] == a[i][j]
    {
      SumSingle(m, i, (k: nat) => At(Identity(m), i, k) * At(a, k, j));
    }
    assert forall i :: 0 <= i < m ==> MatMul(m, Identity(m), a)[i] == a[i];
  }

  lemma MatMulIdentityRight(m: nat, a: Matrix)
    requires IsMatrix(a, m, m)
    ensures MatMul(m, a, Identity(m)) == a
  {
    forall i, j | 0 <= i < m && 0 <= j < m
      ensures MatMul(m, a, Identity(m))[i][j] == a[i][j]
    {
      SumSingle(m, j, (k: nat) => At(a, i, k) * At(Identity(m), k, j));
    }
    assert forall i :: 0 <= i < m ==> MatMul(m, a, Identity(m))[i] == a[i];
  }

  /** A non-zero integer multiple of a positive n is at least n away from 0. */
  lemma MulMonotone(k: int, n: int)
    requires n > 0
    ensures k >= 1 ==> k * n >= n
    ensures k <= -1 ==> k * n <= -n
  {
  }
}
