/** The tabulated description of one finite element (or one sub-element of a
    mixed element) that the code generator receives in its `data` dictionaries,
    and the generation-time checks applied to it
    (ffc/evaluatebasisderivatives.py). */
module FiniteElement {
  import opened Wrappers
  import opened LinAlg

  /** The `mapping` entry; any string other than the three known ones is kept
      as `OtherMapping` and rejected when code is generated. */
  datatype Mapping = Affine | ContravariantPiola | CovariantPiola | OtherMapping(name: string)

  datatype ElementData = ElementData(
    family: string,
    cellDomain: string,
    valueShape: seq<nat>,
    spaceDimension: nat,
    topologicalDimension: nat,
    numExpansionMembers: nat,
    /** One matrix per reference direction, as tabulated (not yet transposed). */
    dmats: seq<Matrix>,
    /** One (space dimension x expansion members) matrix per value component. */
    coefficients: seq<Matrix>,
    mapping: Mapping)

  /** Code-generation errors: every one aborts generation for the element. */
  datatype GenError =
    | NoElements
    | UnsupportedCell(domain: string)
    | DmatsShape
    | TensorValued(family: string)
    | NoDmats
    | UnknownMapping(name: string)
    | UndeclaredTemporary(components: nat, tdim: nat)

  function SumNat(s: seq<nat>): nat {
    if |s| == 0 then 0 else SumNat(s[..|s| - 1]) + s[|s| - 1]
  }

  /** sum(value_shape or (1,)): a scalar (empty shape) counts as one value. */
  function ValueDim(e: ElementData): nat {
    if |e.valueShape| == 0 then 1 else SumNat(e.valueShape)
  }

  /** Number of components handled by the reference-derivative code: 1 for a
      scalar, shape[0] for a vector, and an error for tensor-valued shapes. */
  function NumComponents(e: ElementData): (r: Result<nat, GenError>)
    ensures r.Ok? <==> |e.valueShape| <= 1
    ensures r.Ok? ==> r.value == ValueDim(e)
    ensures r.Err? ==> r.error == TensorValued(e.family)
  {
    if |e.valueShape| == 0 then Ok(1)
    else if |e.valueShape| == 1 then
      assert e.valueShape[..0] == [];
      assert SumNat(e.valueShape) == SumNat(e.valueShape[..0]) + e.valueShape[0];
      Ok(e.valueShape[0])
    else Err(TensorValued(e.family))
  }

  /** Every derivative table is square with one row per expansion member. */
  predicate DmatsWellShaped(e: ElementData) {
    forall i :: 0 <= i < |e.dmats| ==> IsMatrix(e.dmats[i], e.numExpansionMembers, e.numExpansionMembers)
  }

  /** A Piola mapping reads the temporaries tmp_0 .. tmp_{tdim-1} but only
      tmp_0 .. tmp_{nc-1} are declared (lines 478-489 and 498-508), so the
      emitted code names only declared variables exactly when tdim <= nc. */
  predicate TemporariesDeclared(mapping: Mapping, nc: nat, tdim: nat) {
    mapping.Affine? || tdim <= nc
  }

  /** The generation-time checks for one element, in the order in which the
      generator meets them: the shape assertion while tabulating the dmats,
      the tensor-valued rejection, the lookup of dmats[0] and the mapping
      dispatch. On success it yields the number of components. The generator
      itself emits a Piola mix with fewer components than reference
      directions; that code reads undeclared temporaries and does not
      compile, which is reported here as the last check. */
  function CheckElement(e: ElementData): (r: Result<nat, GenError>)
    ensures r.Ok? <==>
      && DmatsWellShaped(e) && |e.valueShape| <= 1 && |e.dmats| > 0 && !e.mapping.OtherMapping?
      && TemporariesDeclared(e.mapping, ValueDim(e), e.topologicalDimension)
    ensures r.Ok? ==> r.value == ValueDim(e)
    ensures !DmatsWellShaped(e) ==> r == Err(DmatsShape)
    ensures DmatsWellShaped(e) && |e.valueShape| > 1 ==> r == Err(TensorValued(e.family))
    ensures DmatsWellShaped(e) && |e.valueShape| <= 1 && |e.dmats| > 0 && !e.mapping.OtherMapping? &&
            !TemporariesDeclared(e.mapping, ValueDim(e), e.topologicalDimension) ==>
      r == Err(UndeclaredTemporary(ValueDim(e), e.topologicalDimension))
  {
    if !DmatsWellShaped(e) then Err(DmatsShape)
    else
      var nc :- NumComponents(e);
      if |e.dmats| == 0 then Err(NoDmats)
      else if e.mapping.OtherMapping? then Err(UnknownMapping(e.mapping.name))
      else if !TemporariesDeclared(e.mapping, nc, e.topologicalDimension) then
        Err(UndeclaredTemporary(nc, e.topologicalDimension))
      else Ok(nc)
  }

  /** The coefficient tables hold, for each of the `nc` components, one row per
      dof and one column per expansion member. This is a property of the
      element tabulation that the generator relies on without checking. */
  predicate CoefficientsFit(e: ElementData, nc: nat) {
    && |e.coefficients| >= nc
    && forall c :: 0 <= c < nc ==> IsMatrix(e.coefficients[c], e.spaceDimension, e.numExpansionMembers)
  }

  /** The derivative tables as emitted: each is the transpose of the tabulated
      matrix. */
  function EmittedDmats(e: ElementData): (tables: seq<Matrix>)
    ensures |tables| == |e.dmats|
    ensures forall i :: 0 <= i < |tables| ==> IsMatrix(tables[i], e.numExpansionMembers, e.numExpansionMembers)
    ensures forall i :: 0 <= i < |tables| ==> tables[i] == Transpose(e.numExpansionMembers, e.dmats[i])
  {
    seq(|e.dmats|, i requires 0 <= i < |e.dmats| => Transpose(e.numExpansionMembers, e.dmats[i]))
  }

  /** Transposing an emitted table gives back the tabulated matrix: entry
      [a][b] of the emitted table is entry [b][a] of the tabulated one. */
  lemma EmittedDmatsRoundTrip(e: ElementData, k: nat)
    requires DmatsWellShaped(e) && k < |e.dmats|
    ensures forall a, b :: 0 <= a < e.numExpansionMembers && 0 <= b < e.numExpansionMembers ==>
      EmittedDmats(e)[k][a][b] == e.dmats[k][b][a]
    ensures Transpose(e.numExpansionMembers, EmittedDmats(e)[k]) == e.dmats[k]
  {
    var m := e.numExpansionMembers;
    var t := Transpose(m, EmittedDmats(e)[k]);
    assert forall a :: 0 <= a < m ==> t[a] == e.dmats[k][a];
  }
}
