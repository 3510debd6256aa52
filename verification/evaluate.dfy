/** What the generated `evaluate_basis_derivatives` and
    `evaluate_basis_derivatives_all` compute
    (ffc/evaluatebasisderivatives.py, `_evaluate_basis_derivatives`,
    `_evaluate_basis_derivatives_all`, `_reset_values`, `_mixed_elements`,
    `_generate_element_code`). The output of one dof holds, for value
    component c and derivative combination r, its value at Slot(c, r, N). */
module EvaluateBasis {
  import opened Wrappers
  import opened LinAlg
  import opened FiniteElement
  import opened Combinations
  import opened Layout
  import opened ReferenceDerivatives
  import opened PhysicalDerivatives
  import opened MixedElement

  /** The checks every sub-element must pass, in order; the first failing
      sub-element decides the error. On success: the component count of
      each sub-element. */
  function CheckAll(elements: seq<ElementData>): (r: Result<seq<nat>, GenError>)
    ensures r.Ok? <==> forall k :: 0 <= k < |elements| ==> CheckElement(elements[k]).Ok?
    ensures r.Ok? ==> |r.value| == |elements| && forall k :: 0 <= k < |elements| ==> r.value[k] == ValueDim(elements[k])
    ensures r.Err? ==> exists k :: 0 <= k < |elements| && CheckElement(elements[k]) == Err(r.error) &&
                                   forall j :: 0 <= j < k ==> CheckElement(elements[j]).Ok?
  {
    if |elements| == 0 then Ok([])
    else
      var nc :- CheckElement(elements[0]);
      var rest :- CheckAll(elements[1..]);
      Ok([nc] + rest)
  }

  /** Code generation for the whole element: the first sub-element supplies
      cell and dimensions (an empty list has none), the transform is only
      available for simplices, then every sub-element is checked. */
  function Generate(elements: seq<ElementData>): (r: Result<seq<nat>, GenError>)
    ensures r.Ok? <==> |elements| > 0 && elements[0].cellDomain in ["interval", "triangle", "tetrahedron"]
                         && CheckAll(elements).Ok?
    ensures |elements| == 0 ==> r == Err(NoElements)
    ensures |elements| > 0 && elements[0].cellDomain !in ["interval", "triangle", "tetrahedron"] ==>
      r == Err(GenError.UnsupportedCell(elements[0].cellDomain))
    ensures r.Ok? ==> r == CheckAll(elements)
  {
    if |elements| == 0 then Err(NoElements)
    else
      var e := elements[0];
      match GenerateTransform(e.cellDomain, e.topologicalDimension, 0, [])
      case Err(_) => Err(GenError.UnsupportedCell(e.cellDomain))
      case Ok(_) => CheckAll(elements)
  }

  /** What the generated code relies on without checking: one vector of
      basis values per sub-element with one value per expansion member,
      coefficient tables of the documented shape, and a geometry that fits
      each sub-element's mapping. */
  predicate Inputs(elements: seq<ElementData>, geo: Geometry, basis: seq<Vector>) {
    && |basis| == |elements|
    && forall k :: 0 <= k < |elements| && CheckElement(elements[k]).Ok? ==>
         && CoefficientsFit(elements[k], ValueDim(elements[k]))
         && |basis[k]| == elements[k].numExpansionMembers
         && PiolaFits(elements[k].mapping, ValueDim(elements[k]), elements[k].topologicalDimension, geo)
  }

  /** num_derivatives: tdim of the first sub-element to the power n. */
  function NumDerivatives(elements: seq<ElementData>, n: nat): nat
    requires |elements| > 0
  {
    Pow(elements[0].topologicalDimension, n)
  }

  /** Number of output values of one dof. */
  function NumVals(elements: seq<ElementData>, n: nat): nat
    requires |elements| > 0
  {
    TotalValueDim(elements) * NumDerivatives(elements, n)
  }

  /** Everything needed for a call with this dof to be meaningful: the code
      was generated, the inputs fit, and (for a single element, where the
      dof is used without a guard) the dof is one of the element's dofs. */
  predicate Ready(elements: seq<ElementData>, dof: nat, geo: Geometry, basis: seq<Vector>) {
    && Generate(elements).Ok?
    && Inputs(elements, geo, basis)
    && (|elements| == 1 ==> dof < elements[0].spaceDimension)
  }

  lemma OwnerEvaluable(elements: seq<ElementData>, dof: nat, geo: Geometry, basis: seq<Vector>, o: nat)
    requires Ready(elements, dof, geo, basis) && Owner(elements, dof) == Some(o)
    ensures Owns(elements, o, dof)
    ensures Evaluable(elements[o], ValueDim(elements[o]), dof - SpaceOffset(elements, o), basis[o], geo)
  {
    if |elements| != 1 {
      MixedOwner(elements, dof, o);
    }
  }

  function PhysicalTerms(e: ElementData, nc: nat, dof: nat, t: Matrix, combinations: seq<seq<nat>>,
                         basis: Vector, geo: Geometry, i: nat, r: nat): nat -> real
    requires Evaluable(e, nc, dof, basis, geo) && i < nc
  {
    (s: nat) => At(t, r, s) * (if s < |combinations| then ReferenceValue(e, nc, dof, combinations[s], basis, geo, i) else 0.0)
  }

  /** Physical derivative r of component i of one (sub-)element: the chain
      rule transform applied to the reference derivatives of all
      combinations. */
  function PhysicalDerivative(e: ElementData, nc: nat, dof: nat, t: Matrix, combinations: seq<seq<nat>>,
                              basis: Vector, geo: Geometry, i: nat, r: nat): real
    requires Evaluable(e, nc, dof, basis, geo) && i < nc
  {
    Sum(|combinations|, PhysicalTerms(e, nc, dof, t, combinations, basis, geo, i, r))
  }

  /** The physical derivatives of components 0 .. rows-1 of one
      (sub-)element, one row per component and one column per combination
      (empty for an element that cannot be evaluated). */
  function PhysicalBlock(e: ElementData, nc: nat, dof: nat, t: Matrix, combinations: seq<seq<nat>>,
                         basis: Vector, geo: Geometry, rows: nat): (phys: Matrix)
    ensures Evaluable(e, nc, dof, basis, geo) && rows <= nc ==> IsMatrix(phys, rows, |combinations|)
    decreases rows
  {
    if rows == 0 || rows > nc || !Evaluable(e, nc, dof, basis, geo) then []
    else
      PhysicalBlock(e, nc, dof, t, combinations, basis, geo, rows - 1) +
      [seq(|combinations|, r requires 0 <= r < |combinations| => PhysicalDerivative(e, nc, dof, t, combinations, basis, geo, rows - 1, r))]
  }

  lemma {:induction false} PhysicalBlockEntry(e: ElementData, nc: nat, dof: nat, t: Matrix, combinations: seq<seq<nat>>,
                                              basis: Vector, geo: Geometry, rows: nat, i: nat, r: nat)
    requires Evaluable(e, nc, dof, basis, geo) && i < rows <= nc && r < |combinations|
    ensures PhysicalBlock(e, nc, dof, t, combinations, basis, geo, rows)[i][r] ==
            PhysicalDerivative(e, nc, dof, t, combinations, basis, geo, i, r)
    decreases rows
  {
    if i < rows - 1 {
      PhysicalBlockEntry(e, nc, dof, t, combinations, basis, geo, rows - 1, i, r);
    }
  }

  /** Slot k of a buffer whose components off .. off+nc-1 hold the rows of
      `phys`: with N values per component, slot k is entry k % N of
      component k / N; every other slot is zero. */
  function BlockEntry(phys: Matrix, off: nat, nc: nat, n: nat, k: nat): real {
    if n == 0 || !(off <= k / n < off + nc) then 0.0 else At(phys, k / n - off, k % n)
  }

  /** Slot k of the output as far as one (sub-)element's code is concerned:
      the element fills components off .. off+nc-1 with its physical
      derivatives and leaves every other slot at zero. */
  function BlockValue(e: ElementData, nc: nat, dof: nat, off: nat, combinations: seq<seq<nat>>, t: Matrix,
                      basis: Vector, geo: Geometry, k: nat): real
    requires Evaluable(e, nc, dof, basis, geo)
  {
    BlockEntry(PhysicalBlock(e, nc, dof, t, combinations, basis, geo, nc), off, nc, |combinations|, k)
  }

  /** A slot inside the element's block holds the physical derivative of its
      component and combination. */
  lemma BlockValueInside(e: ElementData, nc: nat, dof: nat, off: nat, combinations: seq<seq<nat>>, t: Matrix,
                         basis: Vector, geo: Geometry, k: nat)
    requires Evaluable(e, nc, dof, basis, geo)
    requires |combinations| > 0 && off <= k / |combinations| < off + nc
    ensures BlockValue(e, nc, dof, off, combinations, t, basis, geo, k) ==
            PhysicalDerivative(e, nc, dof, t, combinations, basis, geo, k / |combinations| - off, k % |combinations|)
  {
    PhysicalBlockEntry(e, nc, dof, t, combinations, basis, geo, nc, k / |combinations| - off, k % |combinations|);
  }

  /** Output slot k of one dof, for the derivative combinations and the
      transform matrix of the call: the owning sub-element decides it, and
      with no owner every slot is zero. */
  function ExpectedWith(elements: seq<ElementData>, dof: nat, geo: Geometry, basis: seq<Vector>,
                        combinations: seq<seq<nat>>, t: Matrix, k: nat): real
    requires Ready(elements, dof, geo, basis)
  {
    match Owner(elements, dof)
    case None => 0.0
    case Some(o) =>
      OwnerEvaluable(elements, dof, geo, basis, o);
      BlockValue(elements[o], ValueDim(elements[o]), dof - SpaceOffset(elements, o), ValueOffset(elements, o),
                 combinations, t, basis[o], geo, k)
  }

  /** Output slot k of one dof for derivative order n: the combinations are
      the base-tdim digit strings of length n and the transform is built
      from the inverse Jacobian. */
  function Expected(elements: seq<ElementData>, n: nat, dof: nat, geo: Geometry, basis: seq<Vector>, k: nat): real
    requires Ready(elements, dof, geo, basis)
  {
    var tdim := elements[0].topologicalDimension;
    ExpectedWith(elements, dof, geo, basis, CombinationTable(tdim, n), TransformMatrix(tdim, n, geo.jacInv), k)
  }

  /** The effect of one sub-element's code on the output: component
      off + i of the value block has gained row i of `phys` (its physical
      derivatives), and nothing outside the block changed. */
  predicate BlockWritten(out: Vector, values: Vector, phys: Matrix, off: nat, nc: nat, n: nat) {
    && |out| == |values|
    && IsMatrix(phys, nc, n)
    && Fits(off + nc, n, |values|)
    && (forall i, r :: 0 <= i < nc && 0 <= r < n ==>
          out[BlockSlot(off, i, r, n)] == values[BlockSlot(off, i, r, n)] + phys[i][r])
    && (forall k :: 0 <= k < |values| && OutsideBlock(k, off, nc, n) ==> out[k] == values[k])
  }

  /** The physical derivatives of the dof's owner. */
  function OwnerBlock(elements: seq<ElementData>, dof: nat, geo: Geometry, basis: seq<Vector>,
                      combinations: seq<seq<nat>>, t: Matrix, o: nat): Matrix
    requires o < |elements| == |basis| && SpaceOffset(elements, o) <= dof
  {
    PhysicalBlock(elements[o], ValueDim(elements[o]), dof - SpaceOffset(elements, o), t, combinations, basis[o], geo,
                  ValueDim(elements[o]))
  }

  /** Row r of the transform applied to a buffer of reference values is the
      physical derivative. */
  lemma {:induction false} TransformOfReference(t: Matrix, ref: Vector, e: ElementData, nc: nat, dof: nat,
                                                combinations: seq<seq<nat>>, basis: Vector, geo: Geometry, i: nat, r: nat)
    requires Evaluable(e, nc, dof, basis, geo) && i < nc
    requires Fits(nc, |combinations|, |ref|)
    requires forall s :: 0 <= s < |combinations| ==>
      ref[Slot(i, s, |combinations|)] == ReferenceValue(e, nc, dof, combinations[s], basis, geo, i)
    ensures PhysicalValue(t, ref, i, r, |combinations|) == PhysicalDerivative(e, nc, dof, t, combinations, basis, geo, i, r)
  {
    var bigN := |combinations|;
    var f, g := TransformTerms(t, ref, i, r, bigN), PhysicalTerms(e, nc, dof, t, combinations, basis, geo, i, r);
    forall s | 0 <= s < bigN
      ensures f(s) == g(s)
    {
      assert Get(ref, Slot(i, s, bigN)) == ReferenceValue(e, nc, dof, combinations[s], basis, geo, i);
    }
    SumExt(bigN, f, g);
  }

  /** Lines 226-250 of one sub-element: basis values, coefficients and dmats
      are given; the reference derivatives are computed into a fresh buffer
      and transformed into the value block starting at component `off`. */
  method ElementCode(values: Vector, e: ElementData, nc: nat, dof: nat, off: nat, combinations: seq<seq<nat>>,
                     t: Matrix, basis: Vector, geo: Geometry) returns (out: Vector)
    requires Evaluable(e, nc, dof, basis, geo)
    requires IsMatrix(t, |combinations|, |combinations|)
    requires Fits(off + nc, |combinations|, |values|)
    ensures BlockWritten(out, values, PhysicalBlock(e, nc, dof, t, combinations, basis, geo, nc), off, nc, |combinations|)
  {
    var bigN := |combinations|;
    // The reference buffer is allocated uninitialised.
    assert |seq(nc * bigN, _ => 0.0)| == nc * bigN;
    var scratch: Vector :| |scratch| == nc * bigN;
    var ref := ComputeReferenceDerivatives(e, nc, dof, combinations, basis, geo, scratch);
    out := TransformDerivatives(values, t, ref, off, nc, bigN);
    forall i, r | 0 <= i < nc && 0 <= r < bigN
      ensures PhysicalValue(t, ref, i, r, bigN) == PhysicalBlock(e, nc, dof, t, combinations, basis, geo, nc)[i][r]
    {
      TransformOfReference(t, ref, e, nc, dof, combinations, basis, geo, i, r);
      PhysicalBlockEntry(e, nc, dof, t, combinations, basis, geo, nc, i, r);
    }
  }

  /** The effect of the mixed-element code on the output, given which
      sub-element owns the dof. */
  predicate OwnerWritten(out: Vector, values: Vector, elements: seq<ElementData>, dof: nat, geo: Geometry,
                         basis: seq<Vector>, combinations: seq<seq<nat>>, t: Matrix)
    requires |basis| == |elements|
  {
    match Owner(elements, dof)
    case None => out == values
    case Some(o) =>
      BlockWritten(out, values, OwnerBlock(elements, dof, geo, basis, combinations, t, o), ValueOffset(elements, o),
                   ValueDim(elements[o]), |combinations|)
  }

  /** The mixed-element blocks 0 .. k-1 have run: the owner's block has been
      written if the owner is among them, and otherwise nothing changed. */
  predicate MixedProgress(out: Vector, values: Vector, elements: seq<ElementData>, dof: nat, geo: Geometry,
                          basis: seq<Vector>, combinations: seq<seq<nat>>, t: Matrix, k: nat)
    requires |basis| == |elements|
  {
    if Owner(elements, dof).Some? && Owner(elements, dof).value < k then
      OwnerWritten(out, values, elements, dof, geo, basis, combinations, t)
    else out == values
  }

  lemma MixedStepOwner(written: Vector, out: Vector, values: Vector, elements: seq<ElementData>, dof: nat,
                       geo: Geometry, basis: seq<Vector>, combinations: seq<seq<nat>>, t: Matrix, k: nat)
    requires |basis| == |elements|
    requires Owner(elements, dof) == Some(k)
    requires MixedProgress(out, values, elements, dof, geo, basis, combinations, t, k)
    requires BlockWritten(written, out, OwnerBlock(elements, dof, geo, basis, combinations, t, k), ValueOffset(elements, k),
                          ValueDim(elements[k]), |combinations|)
    ensures MixedProgress(written, values, elements, dof, geo, basis, combinations, t, k + 1)
  {
  }

  /** Restates the effect of sub-element k's code in terms of the element
      list. */
  lemma BlockWrittenOf(written: Vector, out: Vector, elements: seq<ElementData>, dof: nat, geo: Geometry,
                       basis: seq<Vector>, combinations: seq<seq<nat>>, t: Matrix, k: nat,
                       e: ElementData, nc: nat, ldof: nat, off: nat)
    requires k < |elements| == |basis| && SpaceOffset(elements, k) <= dof
    requires e == elements[k] && nc == ValueDim(e) && ldof == dof - SpaceOffset(elements, k)
    requires off == ValueOffset(elements, k)
    requires BlockWritten(written, out, PhysicalBlock(e, nc, ldof, t, combinations, basis[k], geo, nc), off, nc, |combinations|)
    ensures BlockWritten(written, out, OwnerBlock(elements, dof, geo, basis, combinations, t, k), ValueOffset(elements, k),
                         ValueDim(elements[k]), |combinations|)
  {
    assert OwnerBlock(elements, dof, geo, basis, combinations, t, k) == PhysicalBlock(e, nc, ldof, t, combinations, basis[k], geo, nc);
  }

  lemma MixedStepOther(out: Vector, values: Vector, elements: seq<ElementData>, dof: nat,
                       geo: Geometry, basis: seq<Vector>, combinations: seq<seq<nat>>, t: Matrix, k: nat)
    requires Ready(elements, dof, geo, basis) && |elements| != 1
    requires !Owns(elements, k, dof)
    requires MixedProgress(out, values, elements, dof, geo, basis, combinations, t, k)
    ensures MixedProgress(out, values, elements, dof, geo, basis, combinations, t, k + 1)
  {
    MixedOwner(elements, dof, k);
  }

  /** The emitted block of sub-element k: its guard, and when the guard
      holds, the mapping to the local dof and the sub-element's code. */
  method GuardedElement(out: Vector, values: Vector, elements: seq<ElementData>, dof: nat, geo: Geometry,
                        basis: seq<Vector>, combinations: seq<seq<nat>>, t: Matrix, k: nat) returns (next: Vector)
    requires Ready(elements, dof, geo, basis) && |elements| > 1 && k < |elements|
    requires IsMatrix(t, |combinations|, |combinations|)
    requires |values| >= TotalValueDim(elements) * |combinations|
    requires MixedProgress(out, values, elements, dof, geo, basis, combinations, t, k)
    ensures MixedProgress(next, values, elements, dof, geo, basis, combinations, t, k + 1)
  {
    MixedOwner(elements, dof, k);
    if SpaceOffset(elements, k) <= dof && dof <= SpaceOffset(elements, k) + elements[k].spaceDimension - 1 {
      var bigN := |combinations|;
      OwnerEvaluable(elements, dof, geo, basis, k);
      ValueBlockInside(elements, k);
      FitsProduct(TotalValueDim(elements), bigN, |values|);
      FitsWithin(ValueOffset(elements, k) + ValueDim(elements[k]), TotalValueDim(elements), bigN, |values|);
      var e, nc, ldof, off := elements[k], ValueDim(elements[k]), dof - SpaceOffset(elements, k), ValueOffset(elements, k);
      next := ElementCode(out, e, nc, ldof, off, combinations, t, basis[k], geo);
      BlockWrittenOf(next, out, elements, dof, geo, basis, combinations, t, k, e, nc, ldof, off);
      MixedStepOwner(next, out, values, elements, dof, geo, basis, combinations, t, k);
    } else {
      next := out;
      MixedStepOther(out, values, elements, dof, geo, basis, combinations, t, k);
    }
  }

  /** Lines 252-288: one guarded block per sub-element; a block whose guard
      holds maps the dof to the local dof and runs the sub-element's code at
      its value offset. */
  method MixedElements(values: Vector, elements: seq<ElementData>, dof: nat, geo: Geometry, basis: seq<Vector>,
                       combinations: seq<seq<nat>>, t: Matrix) returns (out: Vector)
    requires Ready(elements, dof, geo, basis) && |elements| > 1
    requires IsMatrix(t, |combinations|, |combinations|)
    requires |values| >= TotalValueDim(elements) * |combinations|
    ensures OwnerWritten(out, values, elements, dof, geo, basis, combinations, t)
  {
    out := values;
    var k := 0;
    while k < |elements|
      invariant 0 <= k <= |elements|
      invariant MixedProgress(out, values, elements, dof, geo, basis, combinations, t, k)
    {
      out := GuardedElement(out, values, elements, dof, geo, basis, combinations, t, k);
      k := k + 1;
    }
    MixedOwner(elements, dof, 0);
  }

  lemma FitsWithin(rows: nat, total: nat, n: nat, len: nat)
    requires rows <= total && Fits(total, n, len)
    ensures Fits(rows, n, len)
  {
  }

  /** Lines 143-150: a single element runs its code for the dof unguarded,
      at value offset 0. */
  method SingleElement(values: Vector, elements: seq<ElementData>, dof: nat, geo: Geometry, basis: seq<Vector>,
                       combinations: seq<seq<nat>>, t: Matrix) returns (out: Vector)
    requires Ready(elements, dof, geo, basis) && |elements| == 1
    requires IsMatrix(t, |combinations|, |combinations|)
    requires |values| >= TotalValueDim(elements) * |combinations|
    ensures OwnerWritten(out, values, elements, dof, geo, basis, combinations, t)
  {
    OwnerEvaluable(elements, dof, geo, basis, 0);
    ValueBlockInside(elements, 0);
    FitsProduct(TotalValueDim(elements), |combinations|, |values|);
    FitsWithin(ValueOffset(elements, 0) + ValueDim(elements[0]), TotalValueDim(elements), |combinations|, |values|);
    var e, nc, ldof, off := elements[0], ValueDim(elements[0]), dof - SpaceOffset(elements, 0), ValueOffset(elements, 0);
    out := ElementCode(values, e, nc, ldof, off, combinations, t, basis[0], geo);
    BlockWrittenOf(out, values, elements, dof, geo, basis, combinations, t, 0, e, nc, ldof, off);
    SingleOwnerWritten(out, values, elements, dof, geo, basis, combinations, t);
  }

  /** A single element runs its code unguarded at value offset 0. */
  lemma SingleOwnerWritten(out: Vector, values: Vector, elements: seq<ElementData>, dof: nat, geo: Geometry,
                           basis: seq<Vector>, combinations: seq<seq<nat>>, t: Matrix)
    requires |basis| == |elements| == 1
    requires BlockWritten(out, values, OwnerBlock(elements, dof, geo, basis, combinations, t, 0), ValueOffset(elements, 0),
                          ValueDim(elements[0]), |combinations|)
    ensures OwnerWritten(out, values, elements, dof, geo, basis, combinations, t)
  {
  }

  /** Reading the output of one element's code slot by slot, when the
      first numVals slots were reset to zero and the block lies inside
      them. */
  lemma BlockSlots(out: Vector, zeroed: Vector, values: Vector, phys: Matrix, off: nat, nc: nat, n: nat, total: nat,
                   numVals: nat)
    requires off + nc <= total && numVals == total * n && numVals <= |values|
    requires |zeroed| == |values|
    requires forall k :: 0 <= k < numVals ==> zeroed[k] == 0.0
    requires forall k :: numVals <= k < |values| ==> zeroed[k] == values[k]
    requires BlockWritten(out, zeroed, phys, off, nc, n)
    ensures |out| == |values|
    ensures forall k :: 0 <= k < numVals ==> out[k] == BlockEntry(phys, off, nc, n, k)
    ensures forall k :: numVals <= k < |values| ==> out[k] == values[k]
  {
    MulLe(off + nc, total, n);
    forall k | 0 <= k < |values|
      ensures k < numVals ==> out[k] == BlockEntry(phys, off, nc, n, k)
      ensures k >= numVals ==> out[k] == values[k]
    {
      if n == 0 {
        assert OutsideBlock(k, off, nc, n);
      } else {
        BlockOfIndex(k, off, nc, n);
      }
    }
  }

  /** Reading the output slot by slot: after the reset and the owner's code,
      slot k below the reset range holds ExpectedWith(k), and every slot after
      the reset range still holds what the caller passed in. */
  lemma SlotsFromBlocks(out: Vector, zeroed: Vector, values: Vector, elements: seq<ElementData>, dof: nat,
                        geo: Geometry, basis: seq<Vector>, combinations: seq<seq<nat>>, t: Matrix, numVals: nat)
    requires Ready(elements, dof, geo, basis)
    requires numVals == TotalValueDim(elements) * |combinations| && numVals <= |values|
    requires |zeroed| == |values|
    requires forall k :: 0 <= k < numVals ==> zeroed[k] == 0.0
    requires forall k :: numVals <= k < |values| ==> zeroed[k] == values[k]
    requires OwnerWritten(out, zeroed, elements, dof, geo, basis, combinations, t)
    ensures |out| == |values|
    ensures forall k :: 0 <= k < numVals ==> out[k] == ExpectedWith(elements, dof, geo, basis, combinations, t, k)
    ensures forall k :: numVals <= k < |values| ==> out[k] == values[k]
  {
    match Owner(elements, dof)
    case None =>
    case Some(o) =>
      OwnerBlockSlots(out, zeroed, values, elements, dof, geo, basis, combinations, t, numVals, o);
      forall k | 0 <= k < numVals
        ensures out[k] == ExpectedWith(elements, dof, geo, basis, combinations, t, k)
      {
        ExpectedOfOwner(elements, dof, geo, basis, combinations, t, o, k);
      }
  }

  /** Slot reading for the owner's block, which lies inside the reset range. */
  lemma OwnerBlockSlots(out: Vector, zeroed: Vector, values: Vector, elements: seq<ElementData>, dof: nat,
                        geo: Geometry, basis: seq<Vector>, combinations: seq<seq<nat>>, t: Matrix, numVals: nat, o: nat)
    requires o < |elements| == |basis| && SpaceOffset(elements, o) <= dof
    requires numVals == TotalValueDim(elements) * |combinations| && numVals <= |values|
    requires |zeroed| == |values|
    requires forall k :: 0 <= k < numVals ==> zeroed[k] == 0.0
    requires forall k :: numVals <= k < |values| ==> zeroed[k] == values[k]
    requires BlockWritten(out, zeroed, OwnerBlock(elements, dof, geo, basis, combinations, t, o), ValueOffset(elements, o),
                          ValueDim(elements[o]), |combinations|)
    ensures |out| == |values|
    ensures forall k :: 0 <= k < numVals ==>
      out[k] == BlockEntry(OwnerBlock(elements, dof, geo, basis, combinations, t, o), ValueOffset(elements, o),
                           ValueDim(elements[o]), |combinations|, k)
    ensures forall k :: numVals <= k < |values| ==> out[k] == values[k]
  {
    ValueBlockInside(elements, o);
    BlockSlots(out, zeroed, values, OwnerBlock(elements, dof, geo, basis, combinations, t, o), ValueOffset(elements, o),
               ValueDim(elements[o]), |combinations|, TotalValueDim(elements), numVals);
  }

  /** The owner's block decides every slot. */
  lemma ExpectedOfOwner(elements: seq<ElementData>, dof: nat, geo: Geometry, basis: seq<Vector>,
                        combinations: seq<seq<nat>>, t: Matrix, o: nat, k: nat)
    requires Ready(elements, dof, geo, basis) && Owner(elements, dof) == Some(o)
    ensures Owns(elements, o, dof)
    ensures ExpectedWith(elements, dof, geo, basis, combinations, t, k) ==
            BlockEntry(OwnerBlock(elements, dof, geo, basis, combinations, t, o), ValueOffset(elements, o),
                       ValueDim(elements[o]), |combinations|, k)
  {
    OwnerEvaluable(elements, dof, geo, basis, o);
  }

  /** The combinations and transform of a call with derivative order n. */
  lemma ExpectedOfOrder(elements: seq<ElementData>, n: nat, dof: nat, geo: Geometry, basis: seq<Vector>,
                        combinations: seq<seq<nat>>, t: Matrix, k: nat)
    requires Ready(elements, dof, geo, basis)
    requires combinations == CombinationTable(elements[0].topologicalDimension, n)
    requires t == TransformMatrix(elements[0].topologicalDimension, n, geo.jacInv)
    ensures Expected(elements, n, dof, geo, basis, k) == ExpectedWith(elements, dof, geo, basis, combinations, t, k)
  {
  }

  /** Lines 105-156: the generated `evaluate_basis_derivatives(i, n, values,
      coordinates, c)`. Generation fails for an empty element list, for a
      cell without a transform, and for a sub-element that fails its checks;
      otherwise the first num_vals outputs hold the physical derivatives of
      order n of basis function `dof` (zero outside the owner's value
      block, and everywhere when no sub-element owns the dof), and the rest
      of `values` is untouched. */
  method EvaluateBasisDerivatives(elements: seq<ElementData>, n: nat, dof: nat, values: Vector, geo: Geometry,
                                  basis: seq<Vector>) returns (res: Result<Vector, GenError>)
    requires Inputs(elements, geo, basis)
    requires |elements| == 1 ==> dof < elements[0].spaceDimension
    requires |elements| > 0 ==> |values| >= NumVals(elements, n)
    ensures res.Ok? <==> Generate(elements).Ok?
    ensures res.Err? ==> res.error == Generate(elements).error
    ensures res.Ok? ==> |res.value| == |values|
    ensures res.Ok? ==> forall k :: 0 <= k < NumVals(elements, n) ==> res.value[k] == Expected(elements, n, dof, geo, basis, k)
    ensures res.Ok? ==> forall k :: NumVals(elements, n) <= k < |values| ==> res.value[k] == values[k]
  {
    var generated := Generate(elements);
    if generated.Err? {
      return Err(generated.error);
    }
    var tdim := elements[0].topologicalDimension;
    var numDerivatives := ComputeNumDerivatives(tdim, n);
    var combinations := CombinationTable(tdim, n);
    var t := TransformMatrix(tdim, n, geo.jacInv);
    var numVals := TotalValueDim(elements) * numDerivatives;
    var zeroed := ZeroFill(values, numVals);
    var out;
    if |elements| == 1 {
      out := SingleElement(zeroed, elements, dof, geo, basis, combinations, t);
    } else {
      out := MixedElements(zeroed, elements, dof, geo, basis, combinations, t);
    }
    SlotsFromBlocks(out, zeroed, values, elements, dof, geo, basis, combinations, t, numVals);
    forall k | 0 <= k < numVals
      ensures out[k] == Expected(elements, n, dof, geo, basis, k)
    {
      ExpectedOfOrder(elements, n, dof, geo, basis, combinations, t, k);
    }
    res := Ok(out);
  }

  /** Lines 88-91 for one dof: the inner loop over s copies the dof's
      values into row r of the output. */
  method CopyRow(out: Vector, dofValues: Vector, r: nat, numVals: nat) returns (next: Vector)
    requires |dofValues| == numVals && (r + 1) * numVals <= |out|
    ensures |next| == |out|
    ensures forall s :: 0 <= s < numVals ==> next[Slot(r, s, numVals)] == dofValues[s]
    ensures forall k :: 0 <= k < |out| && (k < r * numVals || k >= (r + 1) * numVals) ==> next[k] == out[k]
  {
    next := out;
    var s := 0;
    while s < numVals
      invariant 0 <= s <= numVals
      invariant |next| == |out|
      invariant forall j :: 0 <= j < s ==> next[Slot(r, j, numVals)] == dofValues[j]
      invariant forall k :: 0 <= k < |out| && (k < r * numVals || k >= r * numVals + s) ==> next[k] == out[k]
    {
      SlotBound(r, s, numVals, r + 1);
      next := next[Slot(r, s, numVals) := dofValues[s]];
      s := s + 1;
    }
  }

  /** Row `dof` of a buffer with numVals values per dof holds the output of
      `evaluate_basis_derivatives` for that dof. */
  predicate RowHolds(out: Vector, elements: seq<ElementData>, n: nat, dof: nat, geo: Geometry, basis: seq<Vector>,
                     numVals: nat)
    requires Ready(elements, dof, geo, basis)
  {
    forall s :: 0 <= s < numVals ==> Slot(dof, s, numVals) < |out| && out[Slot(dof, s, numVals)] == Expected(elements, n, dof, geo, basis, s)
  }

  /** Rows 0 .. rows-1 of the buffer hold the outputs of their dofs. */
  predicate RowsHold(out: Vector, elements: seq<ElementData>, n: nat, geo: Geometry, basis: seq<Vector>,
                     numVals: nat, rows: nat)
    requires Generate(elements).Ok? && Inputs(elements, geo, basis) && rows <= TotalSpaceDim(elements)
  {
    SingleSpaceDim(elements);
    forall dof :: 0 <= dof < rows ==> RowHolds(out, elements, n, dof, geo, basis, numVals)
  }

  /** Rows below r only read slots below r * numVals, which a later row
      leaves alone. */
  lemma RowKept(out: Vector, next: Vector, elements: seq<ElementData>, n: nat, dof: nat, geo: Geometry,
                basis: seq<Vector>, numVals: nat, r: nat)
    requires Ready(elements, dof, geo, basis) && dof < r
    requires RowHolds(out, elements, n, dof, geo, basis, numVals)
    requires |next| == |out| && forall k :: 0 <= k < r * numVals && k < |out| ==> next[k] == out[k]
    ensures RowHolds(next, elements, n, dof, geo, basis, numVals)
  {
    forall s | 0 <= s < numVals
      ensures Slot(dof, s, numVals) < r * numVals
    {
      SlotBound(dof, s, numVals, r);
    }
  }

  /** Writing row r leaves rows 0 .. r-1 in place. */
  lemma RowsExtend(out: Vector, next: Vector, elements: seq<ElementData>, n: nat, geo: Geometry,
                   basis: seq<Vector>, numVals: nat, r: nat)
    requires Generate(elements).Ok? && Inputs(elements, geo, basis) && r < TotalSpaceDim(elements)
    requires RowsHold(out, elements, n, geo, basis, numVals, r)
    requires (SingleSpaceDim(elements); RowHolds(next, elements, n, r, geo, basis, numVals))
    requires |next| == |out| && forall k :: 0 <= k < |out| && k < r * numVals ==> next[k] == out[k]
    ensures RowsHold(next, elements, n, geo, basis, numVals, r + 1)
  {
    SingleSpaceDim(elements);
    forall dof | 0 <= dof < r
      ensures RowHolds(next, elements, n, dof, geo, basis, numVals)
    {
      RowKept(out, next, elements, n, dof, geo, basis, numVals, r);
    }
  }

  /** One iteration of the loop over dofs: evaluate dof r into the per-dof
      buffer and copy it into row r. */
  method DofRow(out: Vector, dofValues: Vector, elements: seq<ElementData>, n: nat, geo: Geometry,
                basis: seq<Vector>, r: nat, numVals: nat) returns (next: Vector, nextDofValues: Vector)
    requires Generate(elements).Ok? && Inputs(elements, geo, basis)
    requires r < TotalSpaceDim(elements)
    requires numVals == NumVals(elements, n) && |dofValues| == numVals
    requires TotalSpaceDim(elements) * numVals <= |out|
    ensures |next| == |out| && |nextDofValues| == numVals
    ensures (SingleSpaceDim(elements); RowHolds(next, elements, n, r, geo, basis, numVals))
    ensures forall k :: 0 <= k < |out| && (k < r * numVals || k >= (r + 1) * numVals) ==> next[k] == out[k]
  {
    SingleSpaceDim(elements);
    var single := EvaluateBasisDerivatives(elements, n, r, dofValues, geo, basis);
    nextDofValues := single.value;
    MulLe(r + 1, TotalSpaceDim(elements), numVals);
    next := CopyRow(out, nextDofValues, r, numVals);
    forall s | 0 <= s < numVals
      ensures Slot(r, s, numVals) < |next|
    {
      SlotBound(r, s, numVals, r + 1);
    }
  }

  /** A single element has as many dofs as the whole element. */
  lemma SingleSpaceDim(elements: seq<ElementData>)
    ensures |elements| == 1 ==> TotalSpaceDim(elements) == elements[0].spaceDimension
  {
    if |elements| == 1 {
      assert SpaceOffset(elements, 1) == SpaceOffset(elements, 0) + elements[0].spaceDimension;
    }
  }

  /** An element with a single dof: the output of dof 0 is row 0. */
  lemma ConstantRow(out: Vector, elements: seq<ElementData>, n: nat, geo: Geometry, basis: seq<Vector>, numVals: nat)
    requires Generate(elements).Ok? && Inputs(elements, geo, basis) && TotalSpaceDim(elements) == 1
    requires numVals <= |out|
    requires (SingleSpaceDim(elements);
              forall k :: 0 <= k < numVals ==> out[k] == Expected(elements, n, 0, geo, basis, k))
    ensures RowsHold(out, elements, n, geo, basis, numVals, 1)
  {
    SingleSpaceDim(elements);
    RowZero(out, elements, n, geo, basis, numVals);
  }

  /** The output of dof 0, read as row 0. */
  lemma RowZero(out: Vector, elements: seq<ElementData>, n: nat, geo: Geometry, basis: seq<Vector>, numVals: nat)
    requires Ready(elements, 0, geo, basis)
    requires numVals <= |out|
    requires forall k :: 0 <= k < numVals ==> out[k] == Expected(elements, n, 0, geo, basis, k)
    ensures RowHolds(out, elements, n, 0, geo, basis, numVals)
  {
    forall s | 0 <= s < numVals
      ensures Slot(0, s, numVals) < |out| && out[Slot(0, s, numVals)] == Expected(elements, n, 0, geo, basis, s)
    {
      assert out[s] == Expected(elements, n, 0, geo, basis, s);
      SlotOfFirstRow(s, numVals);
    }
  }

  /** Lines 66-68: with a single dof, `evaluate_basis_derivatives` for dof 0
      writes the output directly. */
  method OneDof(elements: seq<ElementData>, n: nat, values: Vector, geo: Geometry, basis: seq<Vector>)
    returns (out: Vector)
    requires Generate(elements).Ok? && Inputs(elements, geo, basis) && TotalSpaceDim(elements) == 1
    requires |values| >= NumVals(elements, n)
    ensures |out| == |values|
    ensures RowsHold(out, elements, n, geo, basis, NumVals(elements, n), 1)
    ensures forall k :: TotalSpaceDim(elements) * NumVals(elements, n) <= k < |values| ==> out[k] == values[k]
  {
    SingleSpaceDim(elements);
    var res := EvaluateBasisDerivatives(elements, n, 0, values, geo, basis);
    out := res.value;
    ConstantRow(out, elements, n, geo, basis, NumVals(elements, n));
  }

  /** Lines 74-96: reset the per-dof buffer, then for every dof evaluate it
      into the buffer and copy the buffer into the dof's row. */
  method AllDofs(values: Vector, elements: seq<ElementData>, n: nat, geo: Geometry, basis: seq<Vector>,
                 numVals: nat) returns (out: Vector)
    requires Generate(elements).Ok? && Inputs(elements, geo, basis)
    requires numVals == NumVals(elements, n)
    requires |values| >= TotalSpaceDim(elements) * numVals
    ensures |out| == |values|
    ensures RowsHold(out, elements, n, geo, basis, numVals, TotalSpaceDim(elements))
    ensures forall k :: TotalSpaceDim(elements) * numVals <= k < |values| ==> out[k] == values[k]
  {
    var spaceDim := TotalSpaceDim(elements);
    // The per-dof buffer is allocated uninitialised, then reset.
    assert |seq(numVals, _ => 0.0)| == numVals;
    var dofValues: Vector :| |dofValues| == numVals;
    dofValues := ZeroFill(dofValues, numVals);
    out := values;
    var r := 0;
    while r < spaceDim
      invariant 0 <= r <= spaceDim
      invariant |out| == |values| && |dofValues| == numVals
      invariant RowsHold(out, elements, n, geo, basis, numVals, r)
      invariant forall k :: r * numVals <= k < |values| ==> out[k] == values[k]
    {
      var next;
      next, dofValues := DofRow(out, dofValues, elements, n, geo, basis, r, numVals);
      RowsExtend(out, next, elements, n, geo, basis, numVals, r);
      out := next;
      r := r + 1;
    }
  }

  /** Lines 21-103: the generated `evaluate_basis_derivatives_all(n, values,
      coordinates, c)`. Row `dof` of the output (num_vals values per dof)
      holds what `evaluate_basis_derivatives` computes for that dof; every
      slot after the last row is untouched. An element with a single dof
      calls `evaluate_basis_derivatives` for dof 0 on the output directly,
      which is the same thing. */
  method EvaluateBasisDerivativesAll(elements: seq<ElementData>, n: nat, values: Vector, geo: Geometry,
                                     basis: seq<Vector>) returns (res: Result<Vector, GenError>)
    requires Inputs(elements, geo, basis)
    requires |elements| > 0 ==> |values| >= TotalSpaceDim(elements) * NumVals(elements, n)
    ensures res.Ok? <==> Generate(elements).Ok?
    ensures res.Err? ==> res.error == Generate(elements).error
    ensures res.Ok? ==> |res.value| == |values|
    ensures res.Ok? ==> RowsHold(res.value, elements, n, geo, basis, NumVals(elements, n), TotalSpaceDim(elements))
    ensures res.Ok? ==> forall k :: TotalSpaceDim(elements) * NumVals(elements, n) <= k < |values| ==> res.value[k] == values[k]
  {
    var generated := Generate(elements);
    if generated.Err? {
      return Err(generated.error);
    }
    var out := AllRows(elements, n, values, geo, basis);
    res := Ok(out);
  }

  /** Lines 64-100 once code generation has succeeded: the constant-element
      shortcut, or the loop over all dofs. */
  method AllRows(elements: seq<ElementData>, n: nat, values: Vector, geo: Geometry, basis: seq<Vector>)
    returns (out: Vector)
    requires Generate(elements).Ok? && Inputs(elements, geo, basis)
    requires |values| >= TotalSpaceDim(elements) * NumVals(elements, n)
    ensures |out| == |values|
    ensures RowsHold(out, elements, n, geo, basis, NumVals(elements, n), TotalSpaceDim(elements))
    ensures forall k :: TotalSpaceDim(elements) * NumVals(elements, n) <= k < |values| ==> out[k] == values[k]
  {
    if TotalSpaceDim(elements) == 1 {
      out := OneDof(elements, n, values, geo, basis);
    } else {
      var numDerivatives := ComputeNumDerivatives(elements[0].topologicalDimension, n);
      out := AllDofs(values, elements, n, geo, basis, TotalValueDim(elements) * numDerivatives);
    }
  }

  /** A dof that no guard of a mixed element accepts leaves every output
      value at zero. */
  lemma NoOwnerIsZero(elements: seq<ElementData>, dof: nat, geo: Geometry, basis: seq<Vector>,
                      combinations: seq<seq<nat>>, t: Matrix, k: nat)
    requires Ready(elements, dof, geo, basis) && |elements| != 1
    requires dof >= TotalSpaceDim(elements)
    ensures ExpectedWith(elements, dof, geo, basis, combinations, t, k) == 0.0
  {
    MixedOwner(elements, dof, 0);
  }

  /** With the identity transform the physical derivative is the reference
      derivative of the same combination. */
  lemma PhysicalOfIdentity(e: ElementData, nc: nat, dof: nat, combinations: seq<seq<nat>>, basis: Vector,
                           geo: Geometry, i: nat, r: nat)
    requires Evaluable(e, nc, dof, basis, geo) && i < nc && r < |combinations|
    ensures PhysicalDerivative(e, nc, dof, Identity(|combinations|), combinations, basis, geo, i, r) ==
            ReferenceValue(e, nc, dof, combinations[r], basis, geo, i)
  {
    SumSingle(|combinations|, r, PhysicalTerms(e, nc, dof, Identity(|combinations|), combinations, basis, geo, i, r));
  }

  /** With the identity transform, a slot of an element's block holds the
      reference derivative of its combination. */
  lemma BlockValueOfIdentity(e: ElementData, nc: nat, dof: nat, off: nat, combinations: seq<seq<nat>>,
                             basis: Vector, geo: Geometry, k: nat)
    requires Evaluable(e, nc, dof, basis, geo)
    requires |combinations| > 0 && off <= k / |combinations| < off + nc
    ensures BlockValue(e, nc, dof, off, combinations, Identity(|combinations|), basis, geo, k) ==
            ReferenceValue(e, nc, dof, combinations[k % |combinations|], basis, geo, k / |combinations| - off)
  {
    BlockValueInside(e, nc, dof, off, combinations, Identity(|combinations|), basis, geo, k);
    PhysicalOfIdentity(e, nc, dof, combinations, basis, geo, k / |combinations| - off, k % |combinations|);
  }

  /** When the inverse Jacobian is the identity (the physical cell is the
      reference cell), the transform is the identity; with
      BlockValueOfIdentity, every output slot is then an untransformed
      reference derivative. */
  lemma IdentityJacobian(elements: seq<ElementData>, n: nat, dof: nat, geo: Geometry, basis: seq<Vector>, k: nat)
    requires Ready(elements, dof, geo, basis)
    requires geo.jacInv == Identity(elements[0].topologicalDimension)
    ensures Expected(elements, n, dof, geo, basis, k) ==
            ExpectedWith(elements, dof, geo, basis, CombinationTable(elements[0].topologicalDimension, n),
                         Identity(NumDerivatives(elements, n)), k)
  {
    TransformOfIdentity(elements[0].topologicalDimension, n);
  }

  /** Order zero for one element: a slot of its block holds the reference
      value of its component, which for an affinely mapped element is the
      basis function value. */
  lemma BlockValueOrderZero(e: ElementData, nc: nat, dof: nat, off: nat, basis: Vector, geo: Geometry, k: nat)
    requires Evaluable(e, nc, dof, basis, geo) && off <= k < off + nc
    ensures BlockValue(e, nc, dof, off, [[]], [[1.0]], basis, geo, k) == ReferenceValue(e, nc, dof, [], basis, geo, k - off)
    ensures e.mapping.Affine? ==>
      BlockValue(e, nc, dof, off, [[]], [[1.0]], basis, geo, k) ==
      Sum(e.numExpansionMembers, ValueTerms(e.coefficients[k - off], dof, basis))
  {
    assert k / 1 == k && k % 1 == 0;
    BlockValueInside(e, nc, dof, off, [[]], [[1.0]], basis, geo, k);
    assert Sum(1, PhysicalTerms(e, nc, dof, [[1.0]], [[]], basis, geo, k - off, 0)) ==
           ReferenceValue(e, nc, dof, [], basis, geo, k - off);
    if e.mapping.Affine? {
      ReferenceOrderZero(e, nc, dof, basis, geo, k - off);
    }
  }

  /** Derivatives of order zero: one empty combination and a 1 x 1 identity
      transform; with BlockValueOrderZero, the output is the owner's basis
      function value. */
  lemma OrderZero(elements: seq<ElementData>, dof: nat, geo: Geometry, basis: seq<Vector>, k: nat)
    requires Ready(elements, dof, geo, basis)
    ensures Expected(elements, 0, dof, geo, basis, k) == ExpectedWith(elements, dof, geo, basis, [[]], [[1.0]], k)
  {
    OrderZeroTables(elements[0].topologicalDimension, geo.jacInv);
  }
}
