/** Number of derivatives of order n, the table of derivative combinations and
    the geometric transformation matrix built from it
    (ffc/evaluatebasisderivatives.py, `_compute_num_derivatives`,
    `_generate_combinations`, `_generate_transform`). */
module Combinations {
  import opened Wrappers
  import opened LinAlg

  /** d to the power n. */
  function Pow(d: nat, n: nat): nat {
    if n == 0 then 1 else d * Pow(d, n - 1)
  }

  lemma {:induction false} PowPositive(d: nat, n: nat)
    requires d >= 1
    ensures Pow(d, n) >= 1
  {
    if n > 0 {
      PowPositive(d, n - 1);
    }
  }

  /** The generated code computes num_derivatives = 1 and then multiplies it by
      the topological dimension once per derivative order, instead of calling
      a floating-point power function. */
  method ComputeNumDerivatives(tdim: nat, n: nat) returns (numDerivatives: nat)
    ensures numDerivatives == Pow(tdim, n)
    ensures n == 0 ==> numDerivatives == 1
    ensures tdim == 1 ==> numDerivatives == 1
    ensures tdim >= 1 ==> numDerivatives >= 1
  {
    numDerivatives := 1;
    var r := 0;
    while r < n
      invariant 0 <= r <= n
      invariant numDerivatives == Pow(tdim, r)
    {
      numDerivatives := numDerivatives * tdim;
      r := r + 1;
    }
    if tdim >= 1 {
      PowPositive(tdim, n);
    }
    if tdim == 1 {
      PowOne(n);
    }
  }

  lemma {:induction false} PowOne(n: nat)
    ensures Pow(1, n) == 1
  {
    if n > 0 {
      PowOne(n - 1);
    }
  }

  /** All digit strings of length n over {0, ..., d - 1}. */
  predicate IsCombination(d: nat, n: nat, c: seq<nat>) {
    |c| == n && forall k :: 0 <= k < |c| ==> c[k] < d
  }

  lemma DivBelow(r: nat, d: nat, p: nat)
    requires d > 0 && r < d * p
    ensures r / d < p
  {
  }

  lemma DivMod(r: nat, d: nat)
    requires d > 0
    ensures (r / d) * d + r % d == r
    ensures r % d < d
  {
  }

  /** Euclidean division recovers quotient and digit. */
  lemma DivModOf(q: nat, d: nat, x: nat)
    requires x < d
    ensures (q * d + x) / d == q && (q * d + x) % d == x
  {
    var a := q * d + x;
    var q', x' := a / d, a % d;
    assert q' * d + x' == q * d + x;
    assert (q' - q) * d == x - x';
    MulMonotone(q' - q, d);
  }

  /** Entry r of the combination table: r written in base d with n digits,
      the most significant digit first. */
  function Combination(d: nat, n: nat, r: nat): (c: seq<nat>)
    requires r < Pow(d, n)
    ensures IsCombination(d, n, c)
    decreases n
  {
    if n == 0 then []
    else
      assert d > 0;
      DivBelow(r, d, Pow(d, n - 1));
      Combination(d, n - 1, r / d) + [r % d]
  }

  /** The base-d value of a digit string, most significant digit first. */
  function Encode(d: nat, c: seq<nat>): nat {
    if |c| == 0 then 0 else Encode(d, c[..|c| - 1]) * d + c[|c| - 1]
  }

  lemma {:induction false} EncodeBelow(d: nat, n: nat, c: seq<nat>)
    requires IsCombination(d, n, c)
    ensures Encode(d, c) < Pow(d, n)
  {
    if n > 0 {
      var init := c[..n - 1];
      assert IsCombination(d, n - 1, init);
      EncodeBelow(d, n - 1, init);
      DigitBelow(Encode(d, init), c[n - 1], d, Pow(d, n - 1));
    }
  }

  /** Appending a digit below d to a value below p gives a value below p * d. */
  lemma DigitBelow(e: nat, x: nat, d: nat, p: nat)
    requires e < p && x < d
    ensures e * d + x < d * p
  {
    MulMonotone(p - e, d);
    assert (p - e) * d == d * p - e * d;
  }

  /** Decoding a table index and encoding it again gives the index back. */
  lemma {:induction false} EncodeCombination(d: nat, n: nat, r: nat)
    requires r < Pow(d, n)
    ensures Encode(d, Combination(d, n, r)) == r
    decreases n
  {
    if n > 0 {
      assert d > 0;
      DivBelow(r, d, Pow(d, n - 1));
      var q := r / d;
      EncodeCombination(d, n - 1, q);
      var c := Combination(d, n, r);
      assert c[..n - 1] == Combination(d, n - 1, q);
      assert Encode(d, c) == Encode(d, c[..n - 1]) * d + c[n - 1];
      DivMod(r, d);
    }
  }

  /** Every digit string is in the table, at the index it encodes. */
  lemma {:induction false} CombinationEncode(d: nat, n: nat, c: seq<nat>)
    requires IsCombination(d, n, c)
    ensures Encode(d, c) < Pow(d, n)
    ensures Combination(d, n, Encode(d, c)) == c
    decreases n
  {
    EncodeBelow(d, n, c);
    if n > 0 {
      var init := c[..n - 1];
      CombinationEncode(d, n - 1, init);
      var e := Encode(d, c);
      assert d > 0;
      assert e == Encode(d, init) * d + c[n - 1];
      DivModOf(Encode(d, init), d, c[n - 1]);
      assert c == init + [c[n - 1]];
    }
  }

  /** The table of `_generate_combinations`: Pow(d, n) entries, entry r being
      the base-d expansion of r. */
  function CombinationTable(d: nat, n: nat): (table: seq<seq<nat>>)
    ensures |table| == Pow(d, n)
  {
    seq(Pow(d, n), r requires 0 <= r < Pow(d, n) => Combination(d, n, r))
  }

  /** The table is a bijection between [0, Pow(d, n)) and the digit strings of
      length n: distinct rows differ, and every digit string is a row. For
      n = 0 it holds the single empty combination. */
  lemma CombinationTableBijective(d: nat, n: nat)
    ensures forall r :: 0 <= r < Pow(d, n) ==> IsCombination(d, n, CombinationTable(d, n)[r])
    ensures forall r, s :: 0 <= r < s < Pow(d, n) ==> CombinationTable(d, n)[r] != CombinationTable(d, n)[s]
    ensures forall c :: IsCombination(d, n, c) ==> exists r :: 0 <= r < Pow(d, n) && CombinationTable(d, n)[r] == c
    ensures n == 0 ==> CombinationTable(d, n) == [[]]
  {
    var table := CombinationTable(d, n);
    forall r, s | 0 <= r < s < Pow(d, n)
      ensures table[r] != table[s]
    {
      EncodeCombination(d, n, r);
      EncodeCombination(d, n, s);
    }
    forall c | IsCombination(d, n, c)
      ensures exists r :: 0 <= r < Pow(d, n) && table[r] == c
    {
      CombinationEncode(d, n, c);
      assert table[Encode(d, c)] == c;
    }
  }

  /** One entry of the geometric transformation matrix, for the physical
      derivative combination `a` (its row) and the reference derivative
      combination `b` (its column): the product over the derivative order of
      Jinv[b[k]][a[k]], multiplied in index order. Jinv is indexed
      [reference direction][physical direction], as the covariant Piola code
      of lines 498-508 reads it, so each factor is the chain-rule weight
      dX_b[k] / dx_a[k]. */
  function TransformEntry(jinv: Matrix, a: seq<nat>, b: seq<nat>): real
    requires |a| == |b|
  {
    if |a| == 0 then 1.0
    else TransformEntry(jinv, a[..|a| - 1], b[..|b| - 1]) * At(jinv, b[|b| - 1], a[|a| - 1])
  }

  /** The N x N chain-rule matrix with N = Pow(d, n), row r and column s
      indexed by derivative combinations. */
  function TransformMatrix(d: nat, n: nat, jinv: Matrix): (t: Matrix)
    ensures IsMatrix(t, Pow(d, n), Pow(d, n))
  {
    var table := CombinationTable(d, n);
    seq(Pow(d, n), r requires 0 <= r < Pow(d, n) =>
      seq(Pow(d, n), s requires 0 <= s < Pow(d, n) => TransformEntry(jinv, table[r], table[s])))
  }

  datatype TransformError = UnsupportedCell(domain: string)

  /** The transformation matrix is only generated for the three simplex
      reference cells; any other cell domain is a code-generation error. */
  function GenerateTransform(cell: string, d: nat, n: nat, jinv: Matrix): (r: Result<Matrix, TransformError>)
    ensures r.Ok? <==> cell in ["interval", "triangle", "tetrahedron"]
    ensures r.Ok? ==> r.value == TransformMatrix(d, n, jinv)
    ensures r.Err? ==> r.error == UnsupportedCell(cell)
  {
    if cell == "interval" || cell == "triangle" || cell == "tetrahedron" then Ok(TransformMatrix(d, n, jinv))
    else Err(UnsupportedCell(cell))
  }

  lemma {:induction false} TransformEntryIdentity(d: nat, a: seq<nat>, b: seq<nat>)
    requires IsCombination(d, |a|, a) && IsCombination(d, |a|, b)
    ensures TransformEntry(Identity(d), a, b) == if a == b then 1.0 else 0.0
  {
    if |a| > 0 {
      var n := |a|;
      var x, y := a[n - 1], b[n - 1];
      assert IsCombination(d, n - 1, a[..n - 1]) && IsCombination(d, n - 1, b[..n - 1]);
      TransformEntryIdentity(d, a[..n - 1], b[..n - 1]);
      assert x < d && y < d;
      assert At(Identity(d), y, x) == if x == y then 1.0 else 0.0;
      assert a == a[..n - 1] + [x] && b == b[..n - 1] + [y];
      if a[..n - 1] == b[..n - 1] && a[n - 1] == b[n - 1] {
        assert a == b;
      }
    }
  }

  /** With no coordinate distortion (Jinv the identity) the transformation
      matrix is the identity, for every order and dimension: physical
      derivatives equal reference derivatives. */
  lemma TransformOfIdentity(d: nat, n: nat)
    ensures TransformMatrix(d, n, Identity(d)) == Identity(Pow(d, n))
  {
    var t := TransformMatrix(d, n, Identity(d));
    var table := CombinationTable(d, n);
    var size := Pow(d, n);
    CombinationTableBijective(d, n);
    forall r, s | 0 <= r < size && 0 <= s < size
      ensures t[r][s] == Identity(size)[r][s]
    {
      TransformEntryIdentity(d, table[r], table[s]);
    }
    assert forall r :: 0 <= r < size ==> t[r] == Identity(size)[r];
  }

  /** The first-order table is the digits themselves: row r is [r]. */
  lemma FirstOrderCombination(d: nat, r: nat)
    requires r < d
    ensures Pow(d, 1) == d
    ensures CombinationTable(d, 1)[r] == [r]
  {
    assert Combination(d, 1, r) == Combination(d, 0, r / d) + [r % d];
  }

  /** The chain rule at order one: the physical derivative along x_r picks up
      the reference derivative along X_s with weight Jinv[s][r] = dX_s / dx_r. */
  lemma FirstOrderTransform(d: nat, jinv: Matrix, r: nat, s: nat)
    requires r < d && s < d
    ensures Pow(d, 1) == d
    ensures TransformMatrix(d, 1, jinv)[r][s] == At(jinv, s, r)
  {
    FirstOrderCombination(d, r);
    FirstOrderCombination(d, s);
    assert TransformEntry(jinv, [r], [s]) == TransformEntry(jinv, [], []) * At(jinv, s, r);
  }

  /** A sheared triangle, Jinv = [[1, 2], [0, 1]]: d/dx_0 = d/dX_0 (the
      weight of d/dX_1 is Jinv[1][0] = 0), while d/dx_1 = 2 d/dX_0 + d/dX_1. */
  lemma ShearedTriangle()
    ensures TransformMatrix(2, 1, [[1.0, 2.0], [0.0, 1.0]]) == [[1.0, 0.0], [2.0, 1.0]]
  {
    var jinv := [[1.0, 2.0], [0.0, 1.0]];
    var t := TransformMatrix(2, 1, jinv);
    FirstOrderTransform(2, jinv, 0, 0);
    FirstOrderTransform(2, jinv, 0, 1);
    FirstOrderTransform(2, jinv, 1, 0);
    FirstOrderTransform(2, jinv, 1, 1);
    assert t[0] == [1.0, 0.0] && t[1] == [2.0, 1.0];
  }

  /** Order zero: the single combination is empty and the transform is the
      1 x 1 identity, whatever the inverse Jacobian. */
  lemma OrderZeroTables(d: nat, jinv: Matrix)
    ensures CombinationTable(d, 0) == [[]]
    ensures TransformMatrix(d, 0, jinv) == [[1.0]]
  {
    CombinationTableBijective(d, 0);
    var t := TransformMatrix(d, 0, jinv);
    assert t[0][0] == TransformEntry(jinv, [], []) == 1.0;
    assert t[0] == [1.0];
  }
}
