/** The matrix chain that the generated code builds, for one derivative
    combination, in the coefficient space of the expansion basis
    (ffc/evaluatebasisderivatives.py, `_reset_dmats`, `_update_dmats`,
    `_dmats_product`, `_compute_dmats`). The working matrix is called `dmats`
    and the auxiliary one `dmatsOld`, as in the generated code. */
module DmatsChain {
  import opened LinAlg

  /** The factor contributed by reference direction c: the emitted table of
      that direction, or the zero matrix when no table has index c (then no
      branch of the generated `if (combinations[r][s] == i)` fires and the
      freshly zeroed working matrix stays zero). */
  function Direction(m: nat, tables: seq<Matrix>, c: nat): Matrix {
    if c < |tables| then tables[c] else Zero(m, m)
  }

  /** Every table is an m x m matrix. */
  predicate AllSquare(m: nat, tables: seq<Matrix>) {
    forall i :: 0 <= i < |tables| ==> IsMatrix(tables[i], m, m)
  }

  /** The derivative operator of a combination: differentiate along comb[0]
      first, then apply the operator of the remaining directions. Unfolded,
      this is Direction(comb[n-1]) * ... * Direction(comb[0]). */
  function Chain(m: nat, tables: seq<Matrix>, comb: seq<nat>): (op: Matrix)
    ensures IsMatrix(op, m, m)
  {
    if |comb| == 0 then Identity(m)
    else MatMul(m, Chain(m, tables, comb[1..]), Direction(m, tables, comb[0]))
  }

  /** Taking one more derivative along c left-multiplies the operator by the
      table of c; this is the step the generated loop performs. */
  lemma {:induction false} ChainSnoc(m: nat, tables: seq<Matrix>, comb: seq<nat>, c: nat)
    requires AllSquare(m, tables)
    ensures Chain(m, tables, comb + [c]) == MatMul(m, Direction(m, tables, c), Chain(m, tables, comb))
  {
    var d := Direction(m, tables, c);
    if |comb| == 0 {
      assert comb + [c] == [c];
      assert ([c])[1..] == [];
      MatMulIdentityLeft(m, d);
      MatMulIdentityRight(m, d);
    } else {
      var rest := comb[1..];
      var d0 := Direction(m, tables, comb[0]);
      assert (comb + [c])[1..] == rest + [c];
      ChainSnoc(m, tables, rest, c);
      MatMulAssoc(m, d, Chain(m, tables, rest), d0);
    }
  }

  /** Taking the derivatives of `a` and then those of `b` composes the two
      operators. */
  lemma {:induction false} ChainAppend(m: nat, tables: seq<Matrix>, a: seq<nat>, b: seq<nat>)
    requires AllSquare(m, tables)
    ensures Chain(m, tables, a + b) == MatMul(m, Chain(m, tables, b), Chain(m, tables, a))
    decreases |b|
  {
    if |b| == 0 {
      assert a + b == a;
      MatMulIdentityLeft(m, Chain(m, tables, a));
    } else {
      var init := b[..|b| - 1];
      var c := b[|b| - 1];
      assert b == init + [c];
      assert a + b == (a + init) + [c];
      ChainAppend(m, tables, a, init);
      ChainSnoc(m, tables, a + init, c);
      ChainSnoc(m, tables, init, c);
      MatMulAssoc(m, Direction(m, tables, c), Chain(m, tables, init), Chain(m, tables, a));
    }
  }

  /** Lines 324-334: every entry of the working matrix is set to 0 and then,
      on the diagonal, to 1. */
  method ResetDmats(m: nat, dmats: Matrix) returns (reset: Matrix)
    requires IsMatrix(dmats, m, m)
    ensures reset == Identity(m)
  {
    reset := dmats;
    var t := 0;
    while t < m
      invariant 0 <= t <= m
      invariant IsMatrix(reset, m, m)
      invariant forall a :: 0 <= a < t ==> reset[a] == Identity(m)[a]
    {
      var u := 0;
      while u < m
        invariant 0 <= u <= m
        invariant IsMatrix(reset, m, m)
        invariant forall a :: 0 <= a < t ==> reset[a] == Identity(m)[a]
        invariant forall b :: 0 <= b < u ==> reset[t][b] == Identity(m)[t][b]
      {
        reset := reset[t := reset[t][u := 0.0]];
        if t == u {
          reset := reset[t := reset[t][u := 1.0]];
        }
        u := u + 1;
      }
      assert reset[t] == Identity(m)[t];
      t := t + 1;
    }
  }

  /** Lines 336-344: copy the working matrix into dmatsOld and zero it. */
  method UpdateDmats(m: nat, dmats: Matrix, dmatsOld: Matrix) returns (zeroed: Matrix, copied: Matrix)
    requires IsMatrix(dmats, m, m) && IsMatrix(dmatsOld, m, m)
    ensures copied == dmats
    ensures zeroed == Zero(m, m)
  {
    zeroed, copied := dmats, dmatsOld;
    var t := 0;
    while t < m
      invariant 0 <= t <= m
      invariant IsMatrix(zeroed, m, m) && IsMatrix(copied, m, m)
      invariant forall a :: 0 <= a < t ==> copied[a] == dmats[a] && zeroed[a] == Zero(m, m)[a]
      invariant forall a :: t <= a < m ==> zeroed[a] == dmats[a]
    {
      var u := 0;
      while u < m
        invariant 0 <= u <= m
        invariant IsMatrix(zeroed, m, m) && IsMatrix(copied, m, m)
        invariant forall a :: 0 <= a < t ==> copied[a] == dmats[a] && zeroed[a] == Zero(m, m)[a]
        invariant forall a :: t < a < m ==> zeroed[a] == dmats[a]
        invariant forall b :: 0 <= b < u ==> copied[t][b] == dmats[t][b] && zeroed[t][b] == 0.0
        invariant forall b :: u <= b < m ==> zeroed[t][b] == dmats[t][b]
      {
        copied := copied[t := copied[t][u := zeroed[t][u]]];
        zeroed := zeroed[t := zeroed[t][u := 0.0]];
        u := u + 1;
      }
      assert copied[t] == dmats[t];
      assert zeroed[t] == Zero(m, m)[t];
      t := t + 1;
    }
  }

  /** Innermost loop of lines 369-381: entry (t, u) accumulates
      d[t][k] * prev[k][u] for k = 0 .. m-1. */
  method AccumulateEntry(m: nat, x: real, d: Matrix, prev: Matrix, t: nat, u: nat) returns (y: real)
    requires IsMatrix(d, m, m) && IsMatrix(prev, m, m)
    requires t < m && u < m
    ensures y == x + MatMul(m, d, prev)[t][u]
  {
    y := x;
    var k := 0;
    while k < m
      invariant 0 <= k <= m
      invariant y == x + Sum(k, (j: nat) => At(d, t, j) * At(prev, j, u))
    {
      y := y + d[t][k] * prev[k][u];
      k := k + 1;
    }
  }

  /** Lines 369-381: dmats[t][u] += d[t][k] * prev[k][u] over all t, u, k. */
  method AccumulateProduct(m: nat, dmats: Matrix, d: Matrix, prev: Matrix) returns (acc: Matrix)
    requires IsMatrix(dmats, m, m) && IsMatrix(d, m, m) && IsMatrix(prev, m, m)
    ensures IsMatrix(acc, m, m)
    ensures forall t, u :: 0 <= t < m && 0 <= u < m ==> acc[t][u] == dmats[t][u] + MatMul(m, d, prev)[t][u]
  {
    acc := dmats;
    var t := 0;
    while t < m
      invariant 0 <= t <= m
      invariant IsMatrix(acc, m, m)
      invariant forall a, b :: 0 <= a < t && 0 <= b < m ==> acc[a][b] == dmats[a][b] + MatMul(m, d, prev)[a][b]
      invariant forall a :: t <= a < m ==> acc[a] == dmats[a]
    {
      var u := 0;
      while u < m
        invariant 0 <= u <= m
        invariant IsMatrix(acc, m, m)
        invariant forall a, b :: 0 <= a < t && 0 <= b < m ==> acc[a][b] == dmats[a][b] + MatMul(m, d, prev)[a][b]
        invariant forall a :: t < a < m ==> acc[a] == dmats[a]
        invariant forall b :: 0 <= b < u ==> acc[t][b] == dmats[t][b] + MatMul(m, d, prev)[t][b]
        invariant forall b :: u <= b < m ==> acc[t][b] == dmats[t][b]
      {
        var y := AccumulateEntry(m, acc[t][u], d, prev, t, u);
        acc := acc[t := acc[t][u := y]];
        u := u + 1;
      }
      t := t + 1;
    }
  }

  /** Lines 362-363 and 380: for each direction i the product is added only
      when combinations[r][s] == i. The working matrix has just been zeroed. */
  method DmatsProduct(m: nat, tables: seq<Matrix>, c: nat, dmats: Matrix, prev: Matrix) returns (next: Matrix)
    requires AllSquare(m, tables)
    requires IsMatrix(prev, m, m)
    requires dmats == Zero(m, m)
    ensures next == MatMul(m, Direction(m, tables, c), prev)
  {
    next := dmats;
    var i := 0;
    while i < |tables|
      invariant 0 <= i <= |tables|
      invariant next == if c < i then MatMul(m, tables[c], prev) else Zero(m, m)
    {
      if c == i {
        next := AccumulateProduct(m, next, tables[i], prev);
        assert forall a :: 0 <= a < m ==> next[a] == MatMul(m, tables[c], prev)[a];
      }
      i := i + 1;
    }
    if c >= |tables| {
      MatMulZeroLeft(m, prev);
    }
  }

  lemma MatMulZeroLeft(m: nat, a: Matrix)
    ensures MatMul(m, Zero(m, m), a) == Zero(m, m)
  {
    forall i, j | 0 <= i < m && 0 <= j < m
      ensures MatMul(m, Zero(m, m), a)[i][j] == 0.0
    {
      SumZero(m, (k: nat) => At(Zero(m, m), i, k) * At(a, k, j));
    }
    assert forall i :: 0 <= i < m ==> MatMul(m, Zero(m, m), a)[i] == Zero(m, m)[i];
  }

  /** Lines 346-367 for combination `comb`: reset the working matrix to the
      identity, then for s = 0 .. n-1 move it to dmatsOld, zero it and add
      table[comb[s]] * dmatsOld. The result is the derivative operator of the
      combination, and the identity for order 0. */
  method ComputeDmats(m: nat, tables: seq<Matrix>, comb: seq<nat>, dmats: Matrix, dmatsOld: Matrix)
    returns (op: Matrix, prev: Matrix)
    requires AllSquare(m, tables)
    requires IsMatrix(dmats, m, m) && IsMatrix(dmatsOld, m, m)
    ensures op == Chain(m, tables, comb)
    ensures |comb| == 0 ==> op == Identity(m)
    ensures IsMatrix(prev, m, m)
  {
    op := ResetDmats(m, dmats);
    prev := dmatsOld;
    var s := 0;
    while s < |comb|
      invariant 0 <= s <= |comb|
      invariant op == Chain(m, tables, comb[..s])
      invariant IsMatrix(prev, m, m)
    {
      var zeroed;
      zeroed, prev := UpdateDmats(m, op, prev);
      op := DmatsProduct(m, tables, comb[s], zeroed, prev);
      ChainSnoc(m, tables, comb[..s], comb[s]);
      assert comb[..s + 1] == comb[..s] + [comb[s]];
      s := s + 1;
    }
    assert comb[..|comb|] == comb;
  }
}
