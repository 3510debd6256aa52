/** Derivatives on the reference element for one dof of one (sub-)element,
    with the optional Piola mixing of components
    (ffc/evaluatebasisderivatives.py, `_compute_reference_derivatives`).
    The reference buffer stores component i of derivative r at Slot(i, r, N). */
module ReferenceDerivatives {
  import opened Wrappers
  import opened LinAlg
  import opened FiniteElement
  import opened DmatsChain
  import opened Layout

  /** Jacobian, inverse Jacobian and Jacobian determinant at the evaluation
      point; they come from the geometry snippets of the generated code. */
  datatype Geometry = Geometry(jac: Matrix, jacInv: Matrix, detJ: real)

  /** Term t of row s of the contraction coeff[dof][s] * op[s][t] * basis[t]. */
  function Terms(coeff: Matrix, dof: nat, op: Matrix, basis: Vector, s: nat): nat -> real {
    (t: nat) => At(coeff, dof, s) * At(op, s, t) * Get(basis, t)
  }

  function RowTotals(m: nat, coeff: Matrix, dof: nat, op: Matrix, basis: Vector): nat -> real {
    (s: nat) => Sum(m, Terms(coeff, dof, op, basis, s))
  }

  /** sum over s and t (both below m) of coeff[dof][s] * op[s][t] * basis[t]. */
  function Contract(m: nat, coeff: Matrix, dof: nat, op: Matrix, basis: Vector): real {
    Sum(m, RowTotals(m, coeff, dof, op, basis))
  }

  /** Reference values of the nc components before any Piola mixing, for the
      derivative operator `op`. */
  function RawValues(e: ElementData, nc: nat, dof: nat, op: Matrix, basis: Vector): (v: Vector)
    requires nc <= |e.coefficients|
    ensures |v| == nc
  {
    seq(nc, i requires 0 <= i < nc => Contract(e.numExpansionMembers, e.coefficients[i], dof, op, basis))
  }

  /** Contravariant Piola: (1 / det J) * sum over j < tdim of J[i][j] * v[j]. */
  function Contravariant(v: Vector, tdim: nat, geo: Geometry): (w: Vector)
    requires geo.detJ != 0.0
    ensures |w| == |v|
  {
    seq(|v|, i requires 0 <= i < |v| => (1.0 / geo.detJ) * Sum(tdim, (j: nat) => At(geo.jac, i, j) * Get(v, j)))
  }

  /** Covariant Piola: sum over j < tdim of Jinv[j][i] * v[j]. */
  function Covariant(v: Vector, tdim: nat, geo: Geometry): (w: Vector)
    ensures |w| == |v|
  {
    seq(|v|, i requires 0 <= i < |v| => Sum(tdim, (j: nat) => At(geo.jacInv, j, i) * Get(v, j)))
  }

  /** The component mixing selected by the element's mapping; affine leaves the
      values as they are. */
  function Pullback(mapping: Mapping, v: Vector, tdim: nat, geo: Geometry): (w: Vector)
    requires !mapping.OtherMapping?
    requires mapping.ContravariantPiola? ==> geo.detJ != 0.0
    ensures |w| == |v|
  {
    match mapping
    case Affine => v
    case ContravariantPiola => Contravariant(v, tdim, geo)
    case CovariantPiola => Covariant(v, tdim, geo)
  }

  /** Neither Piola mix distorts anything on an undistorted cell: with J the
      identity and det J = 1 (contravariant), or Jinv the identity
      (covariant), and as many components as reference directions, every
      component keeps its value. */
  lemma PiolaOfIdentity(mapping: Mapping, v: Vector, geo: Geometry)
    requires !mapping.OtherMapping?
    requires mapping.ContravariantPiola? ==> geo.jac == Identity(|v|) && geo.detJ == 1.0
    requires mapping.CovariantPiola? ==> geo.jacInv == Identity(|v|)
    ensures Pullback(mapping, v, |v|, geo) == v
  {
    var w := Pullback(mapping, v, |v|, geo);
    forall i | 0 <= i < |v|
      ensures w[i] == v[i]
    {
      if mapping.ContravariantPiola? {
        var f := (j: nat) => At(geo.jac, i, j) * Get(v, j);
        SumSingle(|v|, i, f);
      } else if mapping.CovariantPiola? {
        var f := (j: nat) => At(geo.jacInv, j, i) * Get(v, j);
        SumSingle(|v|, i, f);
      }
    }
  }

  /** What the generated code needs of the geometry for the element's mapping:
      the Jacobian entries it names exist, and det J can be divided by. */
  predicate PiolaFits(mapping: Mapping, nc: nat, tdim: nat, geo: Geometry) {
    && (mapping.ContravariantPiola? ==>
          geo.detJ != 0.0 && |geo.jac| >= nc && forall i :: 0 <= i < nc ==> |geo.jac[i]| >= tdim)
    && (mapping.CovariantPiola? ==>
          |geo.jacInv| >= tdim && forall j :: 0 <= j < tdim ==> |geo.jacInv[j]| >= nc)
  }

  /** Everything the generated code for one element relies on: it passed the
      generation checks with nc components, its coefficient tables have the
      documented shape, the dof is one of its dofs, there is one basis value
      per expansion member, and the geometry fits its mapping. */
  predicate Evaluable(e: ElementData, nc: nat, dof: nat, basis: Vector, geo: Geometry) {
    && CheckElement(e) == Ok(nc)
    && CoefficientsFit(e, nc)
    && dof < e.spaceDimension
    && |basis| == e.numExpansionMembers
    && PiolaFits(e.mapping, nc, e.topologicalDimension, geo)
  }

  /** Reference-cell value of component i of the derivative `comb` of basis
      function `dof`, after Piola mixing. */
  function ReferenceValue(e: ElementData, nc: nat, dof: nat, comb: seq<nat>, basis: Vector, geo: Geometry, i: nat): real
    requires Evaluable(e, nc, dof, basis, geo)
    requires i < nc
  {
    var op := Chain(e.numExpansionMembers, EmittedDmats(e), comb);
    Pullback(e.mapping, RawValues(e, nc, dof, op, basis), e.topologicalDimension, geo)[i]
  }

  /** Term s of the basis value of one component: coefficients[dof][s] * basis[s]. */
  function ValueTerms(coeff: Matrix, dof: nat, basis: Vector): nat -> real {
    (s: nat) => At(coeff, dof, s) * Get(basis, s)
  }

  /** Contracting with the identity operator gives the plain basis value
      sum over s of coeff[dof][s] * basis[s]. */
  lemma {:induction false} ContractIdentity(m: nat, coeff: Matrix, dof: nat, basis: Vector)
    ensures Contract(m, coeff, dof, Identity(m), basis) == Sum(m, ValueTerms(coeff, dof, basis))
  {
    forall s | 0 <= s < m
      ensures RowTotals(m, coeff, dof, Identity(m), basis)(s) == ValueTerms(coeff, dof, basis)(s)
    {
      SumSingle(m, s, Terms(coeff, dof, Identity(m), basis, s));
    }
    SumExt(m, RowTotals(m, coeff, dof, Identity(m), basis), ValueTerms(coeff, dof, basis));
  }

  /** The derivative of order zero of an affinely mapped element is the basis
      function value that `evaluate_basis` computes: the coefficients of the
      dof contracted with the expansion basis values. */
  lemma ReferenceOrderZero(e: ElementData, nc: nat, dof: nat, basis: Vector, geo: Geometry, i: nat)
    requires Evaluable(e, nc, dof, basis, geo) && i < nc && e.mapping.Affine?
    ensures ReferenceValue(e, nc, dof, [], basis, geo, i) ==
            Sum(e.numExpansionMembers, ValueTerms(e.coefficients[i], dof, basis))
  {
    ContractIdentity(e.numExpansionMembers, e.coefficients[i], dof, basis);
  }

  /** Column r of the reference buffer: the nc component values of derivative r. */
  function Column(buf: Vector, nc: nat, r: nat, n: nat): (col: Vector)
    requires r < n && Fits(nc, n, |buf|)
    ensures |col| == nc
  {
    seq(nc, i requires 0 <= i < nc => buf[Slot(i, r, n)])
  }

  /** Innermost loop of lines 458-468: for fixed (s, t), every component i
      adds coefficients_i[dof][s] * dmats[s][t] * basisvalues[t] into its slot
      of derivative r. */
  method AccumulateComponents(buf: Vector, e: ElementData, nc: nat, dof: nat, op: Matrix, basis: Vector,
                              r: nat, n: nat, s: nat, t: nat) returns (out: Vector)
    requires CoefficientsFit(e, nc) && dof < e.spaceDimension
    requires IsMatrix(op, e.numExpansionMembers, e.numExpansionMembers) && |basis| == e.numExpansionMembers
    requires s < e.numExpansionMembers && t < e.numExpansionMembers
    requires r < n && Fits(nc, n, |buf|)
    ensures |out| == |buf|
    ensures forall i :: 0 <= i < nc ==>
      out[Slot(i, r, n)] == buf[Slot(i, r, n)] + Terms(e.coefficients[i], dof, op, basis, s)(t)
    ensures forall i, q :: 0 <= i < nc && 0 <= q < n && q != r ==> out[Slot(i, q, n)] == buf[Slot(i, q, n)]
  {
    SlotsDistinct(n);
    out := buf;
    var i := 0;
    while i < nc
      invariant 0 <= i <= nc
      invariant |out| == |buf|
      invariant forall c :: 0 <= c < i ==>
        out[Slot(c, r, n)] == buf[Slot(c, r, n)] + Terms(e.coefficients[c], dof, op, basis, s)(t)
      invariant forall c :: i <= c < nc ==> out[Slot(c, r, n)] == buf[Slot(c, r, n)]
      invariant forall c, q :: 0 <= c < nc && 0 <= q < n && q != r ==> out[Slot(c, q, n)] == buf[Slot(c, q, n)]
    {
      out := out[Slot(i, r, n) := out[Slot(i, r, n)] + e.coefficients[i][dof][s] * op[s][t] * basis[t]];
      i := i + 1;
    }
  }

  /** Middle loop of lines 458-468: row s of the contraction, t = 0 .. m-1. */
  method AccumulateRow(buf: Vector, e: ElementData, nc: nat, dof: nat, op: Matrix, basis: Vector,
                       r: nat, n: nat, s: nat) returns (out: Vector)
    requires CoefficientsFit(e, nc) && dof < e.spaceDimension
    requires IsMatrix(op, e.numExpansionMembers, e.numExpansionMembers) && |basis| == e.numExpansionMembers
    requires s < e.numExpansionMembers
    requires r < n && Fits(nc, n, |buf|)
    ensures |out| == |buf|
    ensures forall i :: 0 <= i < nc ==>
      out[Slot(i, r, n)] == buf[Slot(i, r, n)] + RowTotals(e.numExpansionMembers, e.coefficients[i], dof, op, basis)(s)
    ensures forall i, q :: 0 <= i < nc && 0 <= q < n && q != r ==> out[Slot(i, q, n)] == buf[Slot(i, q, n)]
  {
    var m := e.numExpansionMembers;
    out := buf;
    var t := 0;
    while t < m
      invariant 0 <= t <= m
      invariant |out| == |buf|
      invariant forall c :: 0 <= c < nc ==>
        out[Slot(c, r, n)] == buf[Slot(c, r, n)] + Sum(t, Terms(e.coefficients[c], dof, op, basis, s))
      invariant forall c, q :: 0 <= c < nc && 0 <= q < n && q != r ==> out[Slot(c, q, n)] == buf[Slot(c, q, n)]
    {
      out := AccumulateComponents(out, e, nc, dof, op, basis, r, n, s, t);
      t := t + 1;
    }
  }

  /** Lines 458-468 for derivative r: every component's slot receives the full
      contraction sum over s and t. */
  method AccumulateReference(buf: Vector, e: ElementData, nc: nat, dof: nat, op: Matrix, basis: Vector,
                             r: nat, n: nat) returns (out: Vector)
    requires CoefficientsFit(e, nc) && dof < e.spaceDimension
    requires IsMatrix(op, e.numExpansionMembers, e.numExpansionMembers) && |basis| == e.numExpansionMembers
    requires r < n && Fits(nc, n, |buf|)
    ensures |out| == |buf|
    ensures forall i :: 0 <= i < nc ==>
      out[Slot(i, r, n)] == buf[Slot(i, r, n)] + Contract(e.numExpansionMembers, e.coefficients[i], dof, op, basis)
    ensures forall i, q :: 0 <= i < nc && 0 <= q < n && q != r ==> out[Slot(i, q, n)] == buf[Slot(i, q, n)]
  {
    var m := e.numExpansionMembers;
    out := buf;
    var s := 0;
    while s < m
      invariant 0 <= s <= m
      invariant |out| == |buf|
      invariant forall c :: 0 <= c < nc ==>
        out[Slot(c, r, n)] == buf[Slot(c, r, n)] + Sum(s, RowTotals(m, e.coefficients[c], dof, op, basis))
      invariant forall c, q :: 0 <= c < nc && 0 <= q < n && q != r ==> out[Slot(c, q, n)] == buf[Slot(c, q, n)]
    {
      out := AccumulateRow(out, e, nc, dof, op, basis, r, n, s);
      s := s + 1;
    }
  }

  /** Lines 470-513 for derivative r: the component values are first copied
      into temporaries, then every component slot is overwritten with the
      mixed value computed from the temporaries only. Affine does nothing. */
  method ApplyPullback(buf: Vector, mapping: Mapping, nc: nat, tdim: nat, geo: Geometry, r: nat, n: nat)
    returns (out: Vector)
    requires !mapping.OtherMapping? && TemporariesDeclared(mapping, nc, tdim) && PiolaFits(mapping, nc, tdim, geo)
    requires r < n && Fits(nc, n, |buf|)
    ensures |out| == |buf|
    ensures forall i :: 0 <= i < nc ==> out[Slot(i, r, n)] == Pullback(mapping, Column(buf, nc, r, n), tdim, geo)[i]
    ensures forall i, q :: 0 <= i < nc && 0 <= q < n && q != r ==> out[Slot(i, q, n)] == buf[Slot(i, q, n)]
  {
    out := buf;
    if mapping.Affine? {
      return;
    }
    SlotsDistinct(n);
    var tmp := Column(buf, nc, r, n);
    var mixed := Pullback(mapping, tmp, tdim, geo);
    var i := 0;
    while i < nc
      invariant 0 <= i <= nc
      invariant |out| == |buf|
      invariant forall c :: 0 <= c < i ==> out[Slot(c, r, n)] == mixed[c]
      invariant forall c, q :: 0 <= c < nc && 0 <= q < n && q != r ==> out[Slot(c, q, n)] == buf[Slot(c, q, n)]
    {
      out := out[Slot(i, r, n) := mixed[i]];
      i := i + 1;
    }
  }

  /** Lines 415-516: the reference buffer of nc * N values is zeroed, the
      working matrices start as the identity, and for every combination r the
      chain is rebuilt, contracted with coefficients and basis values, and
      mixed. Slot (i, r) ends up holding the reference value of component i
      for combination r. */
  method ComputeReferenceDerivatives(e: ElementData, nc: nat, dof: nat, combinations: seq<seq<nat>>,
                                     basis: Vector, geo: Geometry, scratch: Vector) returns (buf: Vector)
    requires Evaluable(e, nc, dof, basis, geo)
    requires |scratch| == nc * |combinations|
    ensures |buf| == nc * |combinations|
    ensures Fits(nc, |combinations|, |buf|)
    ensures forall i, r :: 0 <= i < nc && 0 <= r < |combinations| ==>
      buf[Slot(i, r, |combinations|)] == ReferenceValue(e, nc, dof, combinations[r], basis, geo, i)
  {
    var n := |combinations|;
    var m := e.numExpansionMembers;
    var tables := EmittedDmats(e);
    FitsProduct(nc, n, nc * n);
    buf := ZeroFill(scratch, nc * n);
    var op, prev := Identity(m), Identity(m);
    var r := 0;
    while r < n
      invariant 0 <= r <= n
      invariant |buf| == nc * n
      invariant IsMatrix(op, m, m) && IsMatrix(prev, m, m)
      invariant forall i, q :: 0 <= i < nc && 0 <= q < r ==>
        buf[Slot(i, q, n)] == ReferenceValue(e, nc, dof, combinations[q], basis, geo, i)
      invariant forall i, q :: 0 <= i < nc && r <= q < n ==> buf[Slot(i, q, n)] == 0.0
    {
      op, prev := ComputeDmats(m, tables, combinations[r], op, prev);
      var raw := AccumulateReference(buf, e, nc, dof, op, basis, r, n);
      assert Column(raw, nc, r, n) == RawValues(e, nc, dof, op, basis);
      buf := ApplyPullback(raw, e.mapping, nc, e.topologicalDimension, geo, r, n);
      r := r + 1;
    }
  }
}
