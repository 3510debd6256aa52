# Derivatives of finite element basis functions, FFC 0.9 style

FFC generates, for every finite element, a C++ routine
`evaluate_basis_derivatives(i, n, values, coordinates, c)`. It returns all
derivatives of order `n` of basis function `i` at a point of the physical
cell. A companion routine, `evaluate_basis_derivatives_all`, returns them for
every basis function. This project models what that emitted code computes,
with Dafny `real` in place of `double`. It does not model the Python that
builds the C++ text.

The model is layered like the generator:

- `Combinations` (combinations.dfy): `num_derivatives = tdim^n`. It also has
  the table of derivative combinations, each a base-`tdim` digit string of
  length `n`, and the chain-rule transform matrix. That matrix is only
  generated for intervals, triangles and tetrahedra.
- `DmatsChain` (dmats.dfy): the loops that reset, update and multiply the
  `dmats` working matrices. `Chain` is their closed form: the product
  `D[c_{n-1}] ... D[c_0]` of the transposed derivative tables.
- `FiniteElement` (element.dfy): the element data the generator reads, and
  its generation-time checks. These reject a wrong dmats shape, tensor-valued
  elements, elements without dmats and unknown mappings. The generator does
  not check one more case: a Piola mapping with fewer components than
  reference directions. Its emitted code reads temporaries it never declares
  and does not compile. The model reports that case as a generation error,
  `UndeclaredTemporary`.
- `ReferenceDerivatives` (reference.dfy): the contraction
  `sum_s sum_t coeff_i[dof][s] * M[s][t] * basis[t]` on the reference cell.
  It is followed by the affine, contravariant Piola or covariant Piola mix of
  the components.
- `PhysicalDerivatives` (transform.dfy): the chain-rule transform that
  accumulates the reference derivatives into the output block of a
  sub-element.
- `Layout` (layout.dfy): the flat "option 1" index `i * N + r`, its
  injectivity, and the reset loop.
- `MixedElement` (mixed.dfy): how a mixed element routes a global dof to one
  sub-element through contiguous dof ranges and running value offsets.
- `EvaluateBasis` (evaluate.dfy): both generated routines end to end.
  `Expected` is an independent slot-by-slot definition of the output, and
  both routines are proved to produce it.
- `SequenceUtils` (utils.dfy): `product`, `all_equal`, `pick_first` and
  `compute_permutations`.
- `TabulateBasis` (tabulate_basis.dfy): `insert_nested_dict`,
  `domain_to_entity_dim`, and the branch selection of `_map_entity_points`.

Some inputs are parameters of the model rather than computed values:

- the Jacobian, its inverse and its determinant (`Geometry`);
- the basis values of the expansion basis at the point (`basis`);
- the element tables: coefficients, dmats, shapes and mapping (`ElementData`).

Two pieces of the emitted code come from the generator's format tables,
which are not part of this model; they are given explicit definitions here.
The combination table lists the base-`tdim` expansions of
`0 .. tdim^n - 1`, most significant digit first. The transform entry for
the physical combination `a` (row) and the reference combination `b`
(column) is `prod_k Jinv[b[k]][a[k]]`. `Jinv` is indexed
[reference direction][physical direction], the way the covariant Piola code
reads it, so each factor is the chain-rule weight `dX_b[k] / dx_a[k]`
(`Combinations.FirstOrderTransform`).

A mixed element emits one guarded block per sub-element and no fallback, so
a dof outside every sub-element's range leaves the zeroed output as it is
(`EvaluateBasis.NoOwnerIsZero`).

## Model

| member | source | states |
|---|---|---|
| Combinations.ComputeNumDerivatives | ffc/evaluatebasisderivatives.py:158-171 | the loop that multiplies by tdim once per order yields tdim^n; it is 1 for n = 0 and for tdim = 1, and at least 1 when tdim >= 1 |
| Combinations.CombinationTableBijective | ffc/evaluatebasisderivatives.py:173-182 | every row is a length-n string of digits at most tdim-1, the rows are pairwise distinct, and every such string is some row; order 0 has the single empty combination |
| Combinations.EncodeCombination | ffc/evaluatebasisderivatives.py:173-182 | reading row r back as a base-tdim number gives r |
| Combinations.CombinationEncode | ffc/evaluatebasisderivatives.py:173-182 | every digit string is the row whose index is its base-tdim value |
| Combinations.GenerateTransform | ffc/evaluatebasisderivatives.py:184-199 | a transform exists exactly for interval, triangle and tetrahedron cells, and it is the chain-rule matrix with entry prod_k Jinv[b[k]][a[k]]; any other cell is an error naming the cell |
| Combinations.FirstOrderTransform | ffc/evaluatebasisderivatives.py:184-199 | at order 1, the weight of the reference derivative along X_s in the physical derivative along x_r is Jinv[s][r] = dX_s/dx_r |
| Combinations.ShearedTriangle | ffc/evaluatebasisderivatives.py:184-199 | for the sheared triangle Jinv = [[1, 2], [0, 1]] the order-1 transform is [[1, 0], [2, 1]]: d/dx_0 = d/dX_0 and d/dx_1 = 2 d/dX_0 + d/dX_1 |
| Combinations.TransformOfIdentity | ffc/evaluatebasisderivatives.py:184-199 | with the identity as inverse Jacobian, the transform matrix is the identity for every order and dimension |
| Combinations.OrderZeroTables | ffc/evaluatebasisderivatives.py:173-199 | for order 0 the only combination is empty and the transform is the 1 x 1 identity, whatever the Jacobian |
| DmatsChain.ChainSnoc | ffc/evaluatebasisderivatives.py:346-383 | one more derivative direction left-multiplies the operator by that direction's table |
| DmatsChain.ChainAppend | ffc/evaluatebasisderivatives.py:346-383 | the operator of a concatenation of combinations is the product of the two operators, the later one on the left |
| DmatsChain.ResetDmats | ffc/evaluatebasisderivatives.py:324-334 | the reset loop leaves the identity in the working matrix |
| DmatsChain.UpdateDmats | ffc/evaluatebasisderivatives.py:336-344 | dmats_old receives the working matrix and the working matrix becomes zero |
| DmatsChain.AccumulateProduct | ffc/evaluatebasisderivatives.py:369-383 | the triple loop adds the matrix product of the table and dmats_old into the working matrix |
| DmatsChain.DmatsProduct | ffc/evaluatebasisderivatives.py:360-383 | of the guarded products only the one whose index equals the combination digit fires; a digit with no table leaves zero |
| DmatsChain.ComputeDmats | ffc/evaluatebasisderivatives.py:346-367 | after the loop over the order, the working matrix is the chain product of the combination, and the identity for order 0 |
| FiniteElement.NumComponents | ffc/evaluatebasisderivatives.py:407-414 | a scalar has one component, a vector shape (d,) has d, and a shape of rank 2 or more is the tensor-valued error |
| FiniteElement.CheckElement | ffc/evaluatebasisderivatives.py:303-322 | generation succeeds exactly when the dmats are square with one row per expansion member, the shape has rank at most 1, some dmats exist, the mapping is known and a Piola mapping has at least tdim components (lines 478-508 read tmp_0 .. tmp_{tdim-1} but declare only one per component); the first failing check decides the error |
| FiniteElement.EmittedDmatsRoundTrip | ffc/evaluatebasisderivatives.py:308-320 | entry [a][b] of each emitted table is entry [b][a] of the tabulated matrix, and transposing the emitted table gives the tabulated matrix back |
| ReferenceDerivatives.AccumulateReference | ffc/evaluatebasisderivatives.py:457-468 | for derivative r, each component slot gains the full double sum coeff_i[dof][s] * dmats[s][t] * basis[t]; other derivatives' slots are unchanged |
| ReferenceDerivatives.PiolaOfIdentity | ffc/evaluatebasisderivatives.py:474-511 | on an undistorted cell (J the identity and det J = 1, or Jinv the identity) with as many components as directions, both Piola mixes leave every component unchanged |
| ReferenceDerivatives.ApplyPullback | ffc/evaluatebasisderivatives.py:470-513 | the mix reads only the temporaries taken before any write: affine leaves the values, contravariant sets (1/detJ) sum_j J[i][j] tmp[j], covariant sets sum_j Jinv[j][i] tmp[j] |
| ReferenceDerivatives.ComputeReferenceDerivatives | ffc/evaluatebasisderivatives.py:385-518 | starting from one zero reset, slot (i, r) of the reference buffer ends as the mixed contraction of the chain operator of combination r |
| ReferenceDerivatives.ContractIdentity | ffc/evaluatebasisderivatives.py:457-468 | contracting with the identity operator gives sum_s coeff[dof][s] * basis[s] |
| ReferenceDerivatives.ReferenceOrderZero | ffc/evaluatebasisderivatives.py:457-468 | the order-0 derivative of an affine element is the basis function value |
| PhysicalDerivatives.TransformDerivatives | ffc/evaluatebasisderivatives.py:520-557 | values[(off+i)*N + r] gains sum_s T[r][s] * ref[i*N + s] for every component and derivative; every slot outside the block of components off .. off+nc-1 is unchanged |
| PhysicalDerivatives.PhysicalValueOfIdentity | ffc/evaluatebasisderivatives.py:547-556 | with the identity transform, the added value is the reference derivative itself |
| Layout.SlotsDistinct | ffc/evaluatebasisderivatives.py:48-54 | distinct (component, derivative) pairs have distinct flat indices i*N + r |
| Layout.BlockOfIndex | ffc/evaluatebasisderivatives.py:48-54 | a flat index either is the slot of one component of a block, or lies outside the block's range |
| Layout.ZeroFill | ffc/evaluatebasisderivatives.py:201-224 | the reset writes 0 to exactly the first value_dim * num_derivatives entries and leaves the rest |
| MixedElement.FindOwner | ffc/evaluatebasisderivatives.py:252-288 | the search returns a sub-element whose guard holds, or none exactly when no later guard holds |
| MixedElement.OwnersDisjoint | ffc/evaluatebasisderivatives.py:252-288 | the dof ranges S_k .. S_k+dim_k-1 are pairwise disjoint, so at most one guarded block runs |
| MixedElement.OwnersCover | ffc/evaluatebasisderivatives.py:252-288 | every dof below the running total lies in some sub-element's range |
| MixedElement.MixedOwner | ffc/evaluatebasisderivatives.py:252-288 | sub-element k runs exactly when its guard holds, and none runs exactly when the dof is at least the total space dimension |
| MixedElement.OwnerOfRange | ffc/evaluatebasisderivatives.py:266-287 | sub-element k owns exactly the dofs from its space offset up to the next one's |
| MixedElement.LocalDof | ffc/evaluatebasisderivatives.py:270-271 | the local dof dof - S_k of the owner is one of its own dofs |
| MixedElement.ValueBlockInside | ffc/evaluatebasisderivatives.py:285-287 | the value block of sub-element k ends where the next one starts and lies inside the total value dimension |
| MixedElement.OwnerExample | ffc/evaluatebasisderivatives.py:252-288 | with 3, 4 and 2 dofs, dofs 2, 3, 6 and 7 go to sub-elements 0, 1, 1 and 2, and dof 9 to none |
| EvaluateBasis.CheckAll | ffc/evaluatebasisderivatives.py:252-288 | code generation succeeds exactly when every sub-element passes its checks; the first failing sub-element decides the error |
| EvaluateBasis.Generate | ffc/evaluatebasisderivatives.py:105-156 | generation fails for an empty element list and for a cell without a transform, and otherwise exactly when some sub-element fails |
| EvaluateBasis.ElementCode | ffc/evaluatebasisderivatives.py:226-250 | one sub-element's code adds the physical derivatives of its dof into its value block and changes nothing else |
| EvaluateBasis.SingleElement | ffc/evaluatebasisderivatives.py:143-150 | a single element runs its code without a guard at value offset 0, writing the physical derivatives of the dof into its block and nothing else |
| EvaluateBasis.GuardedElement | ffc/evaluatebasisderivatives.py:266-287 | one guarded block runs the sub-element code exactly when the guard holds, with the local dof and value offset |
| EvaluateBasis.MixedElements | ffc/evaluatebasisderivatives.py:252-288 | after all guarded blocks, the owner's block is written and nothing else changed; with no owner the output is unchanged |
| EvaluateBasis.SlotsFromBlocks | ffc/evaluatebasisderivatives.py:201-224 | after the reset and the owner's code, each slot below num_vals holds the owner's value of its component and derivative, zero elsewhere |
| EvaluateBasis.EvaluateBasisDerivatives | ffc/evaluatebasisderivatives.py:105-156 | the routine fails exactly when generation fails, with the same error; otherwise the first num_vals outputs equal the independent definition Expected and the rest of values is untouched |
| EvaluateBasis.CopyRow | ffc/evaluatebasisderivatives.py:88-91 | the inner loop puts the single-dof values into row r at r*num_vals + s and changes nothing outside that row |
| EvaluateBasis.DofRow | ffc/evaluatebasisderivatives.py:88-96 | one iteration of the dof loop leaves the single-dof result of dof r in row r and changes no other row |
| EvaluateBasis.AllDofs | ffc/evaluatebasisderivatives.py:74-96 | row r of the output holds the single-dof result of dof r, for every dof |
| EvaluateBasis.ConstantRow | ffc/evaluatebasisderivatives.py:64-68 | for an element with one dof, the single-dof call on the output fills row 0 |
| EvaluateBasis.OneDof | ffc/evaluatebasisderivatives.py:64-68 | for a constant element, the one call with dof 0 fills row 0 and leaves the rest of the output as it was |
| EvaluateBasis.AllRows | ffc/evaluatebasisderivatives.py:64-100 | in both branches, every row r below the space dimension holds the single-dof result of dof r, and the slots after the table are unchanged |
| EvaluateBasis.EvaluateBasisDerivativesAll | ffc/evaluatebasisderivatives.py:21-103 | the routine fails exactly when generation fails; otherwise out[r*num_vals + s] is the single-dof result of dof r at slot s for all r < space_dim and s < num_vals, and later slots are untouched |
| EvaluateBasis.NoOwnerIsZero | ffc/evaluatebasisderivatives.py:252-288 | in a mixed element, a dof past the total space dimension yields an all-zero output |
| EvaluateBasis.PhysicalOfIdentity | ffc/evaluatebasisderivatives.py:520-557 | with the identity transform the physical derivative is the reference derivative of the same combination |
| EvaluateBasis.BlockValueOfIdentity | ffc/evaluatebasisderivatives.py:520-557 | with the identity transform, each slot of an element's block is the untransformed reference derivative |
| EvaluateBasis.IdentityJacobian | ffc/evaluatebasisderivatives.py:184-199 | an identity inverse Jacobian makes the output the one computed with the identity transform |
| EvaluateBasis.BlockValueOrderZero | ffc/evaluatebasisderivatives.py:158-171 | at order 0, each slot of an element's block is the reference value, which for affine elements is the basis function value |
| EvaluateBasis.OrderZero | ffc/evaluatebasisderivatives.py:158-199 | at order 0 the output is the one computed with one empty combination and the 1 x 1 identity transform |
| SequenceUtils.ProductAgrees | ffc/utils.py:15-18 | the left fold of reduce, starting from 1, equals the product taken from the front, x0 * (x1 * (... * 1)), for every sequence |
| SequenceUtils.ProductAppend | ffc/utils.py:15-18 | the product of a concatenation is the product of the two products |
| SequenceUtils.ProductZero | ffc/utils.py:15-18 | the product is 0 exactly when some factor is 0 |
| SequenceUtils.AllEqualAdjacent | ffc/utils.py:20-22 | comparing the two shifted slices holds exactly when every adjacent pair is equal, and always for length 0 and 1 |
| SequenceUtils.AllEqualPairs | ffc/utils.py:20-22 | all_equal holds exactly when every two items are equal |
| SequenceUtils.PickFirstAsWritten | ffc/utils.py:24-28 | as written: the first item when all items are equal and there is one; a NameError when they differ; an index error for the empty sequence |
| SequenceUtils.PickFirstLosesValues | ffc/utils.py:24-28 | on [1, 2] the call as written fails with the NameError, not with the report of the values |
| SequenceUtils.PickFirst | ffc/utils.py:24-28 | as intended: the common value when all items agree, otherwise an error carrying the values |
| SequenceUtils.ComputePermutations | ffc/utils.py:38-51 | the call succeeds exactly for k >= 1, and the result is in rising lexicographic order; k < 1 never reaches the base case |
| SequenceUtils.PermutationsRising | ffc/utils.py:38-51 | for every k >= 1 the tuples come out in strictly rising lexicographic order |
| SequenceUtils.SplitFirst | ffc/utils.py:45-50 | a tuple of the result for k >= 2 is an allowed first entry i followed by a tuple of the k - 1 result whose first entry exceeds i |
| SequenceUtils.JoinFirst | ffc/utils.py:45-50 | conversely, an allowed first entry below the first entry of a tuple of the k - 1 result gives a tuple of the k result |
| SequenceUtils.PermutationsSound | ffc/utils.py:38-51 | every returned tuple has k entries, is strictly increasing, and has its entries in range(n) and not in skip |
| SequenceUtils.PermutationsComplete | ffc/utils.py:38-51 | every strictly increasing k-tuple over range(n) minus skip is returned |
| SequenceUtils.ComputePermutationsSpec | ffc/utils.py:38-51 | the result is exactly the valid tuples, each listed once |
| SequenceUtils.ExtendedRising | ffc/utils.py:45-50 | the loop over i and p emits its tuples in rising lexicographic order |
| SequenceUtils.PermutationsOfOne | ffc/utils.py:41-42 | for k = 1 the result is the singletons (i,) for i in range(n) not in skip, in ascending order |
| TabulateBasis.InsertNested | ffc/quadrature/tabulate_basis.py:137-144 | insertion succeeds exactly for a non-empty key path whose intermediate entries are missing, None or dicts; other top-level keys are unchanged |
| TabulateBasis.InsertThenLookup | ffc/quadrature/tabulate_basis.py:137-144 | after insertion, following the keys yields the value, overwriting any old entry |
| TabulateBasis.InsertKeepsOthers | ffc/quadrature/tabulate_basis.py:137-144 | any path that parts from the key path at some level reads the same entry as before |
| TabulateBasis.InsertLevels | ffc/quadrature/tabulate_basis.py:138-143 | a missing or None level becomes a new dict holding only the next key; an existing dict is reused, keeping its keys and gaining the next one |
| TabulateBasis.DomainToEntityDim | ffc/quadrature/tabulate_basis.py:78-88 | cell gives tdim, the seven facet types give tdim - 1, point gives 0, and any other integral type is an error |
| TabulateBasis.MapEntityPoints | ffc/quadrature/tabulate_basis.py:90-104 | entity dimension tdim returns the points unchanged; tdim - 1 selects a facet map; 0 selects a vertex; anything else matches no branch |
| TabulateBasis.EntityDispatch | ffc/quadrature/tabulate_basis.py:78-104 | every known integral type selects a branch: a cell integral passes the points through and a facet integral maps them to a facet |

## Left out

- Building the C++ text: the `format[...]` strings, `remove_unused`, `indent`
  and the deletion of dynamic arrays. Only the arithmetic of the emitted
  code is modelled.
- The snippets for the Jacobian, its inverse and the coordinate map, the
  basis-value computation, `_map_dof` and `_tabulate_coefficients`. They
  live in other modules of the generator. Their results enter as the
  `Geometry`, `basis` and `ElementData` parameters.
- Floating point. Reals are exact, so rounding and the summation order of
  `double` arithmetic are not modelled. The sums are left folds in loop
  order.
- Uninitialised buffers: the contents of a new buffer are arbitrary and are
  overwritten by the reset loop before they are read.
- Combinations.ComputeNumDerivatives: `num_derivatives` is an
  `unsigned int` in the emitted code, so `tdim^n` wraps modulo 2^32 (tdim = 2
  and n = 32 give 0, and every loop over derivatives is then skipped). The
  model computes the exact power. Its results describe the emitted code only
  while `tdim^n < 2^32`.
- ReferenceDerivatives.ApplyPullback: det J = 0 with a contravariant Piola
  mapping is excluded. The emitted code divides by det J and yields inf or
  NaN in `double`, and that arithmetic is not modelled.
- ReferenceDerivatives.ComputeReferenceDerivatives: requires det J != 0 for a
  contravariant Piola element, for the same reason.
- EvaluateBasis.EvaluateBasisDerivatives: requires det J != 0 when a
  sub-element has a contravariant Piola mapping, for the same reason. The
  geometry must also hold the Jacobian entries that the code names, because
  it stands in for the snippet that declares them.
- EvaluateBasis.EvaluateBasisDerivativesAll: the same det J and geometry
  conditions, through each single-dof call.
- SequenceUtils.Product: `reduce(operator.__mul__, sequence, 1)` multiplies
  any objects, floats among them. The model multiplies integers.
- Memory safety of the output array. The caller's `values` array must be long
  enough. This is a precondition here and unchecked in C++.
- EvaluateBasis.EvaluateBasisDerivatives: for a single element, the dof
  must be below the element's space dimension. The C++ indexes the
  coefficient tables out of bounds otherwise.
- MixedElement.FindOwner: a sub-element with no dofs whose space offset is
  0 (it comes first, or only sub-elements without dofs precede it). The
  generator computes the guard's upper bound in Python as `0 + 0 - 1 = -1`.
  In the C++ guard `0 <= i && i <= -1` the dof `i` is unsigned, so `-1`
  becomes the largest unsigned value and the guard holds for every dof.
  That block then reads the sub-element's empty coefficient tables out of
  bounds. The model evaluates the guard over integers, where it is false.
  For a sub-element without dofs at an offset S > 0 the bound is S - 1 >= 0,
  and the guard is false in both.
- Not modelled: for an error-string `data_list` (ffc/evaluatebasisderivatives.py,
  lines 24-25 and 112-113) the generator returns a routine that only raises
  that message when called.
- TabulateBasis.InsertNested: on failure, the Python function may already
  have created some intermediate dicts before raising. The model returns an
  error and does not describe that partial mutation.
- TabulateBasis.InsertNested: a leaf (an object that is not a dict) at the
  last intermediate level of the path is an error here. Python only calls
  `.get` on the levels before it, then runs `leaf[keys[-1]] = value` on it,
  which a list or a numpy table accepts. The entries are opaque here, so
  item assignment on a leaf is not modelled. The call site stores tables only
  at the full key path, so no leaf sits at an intermediate level there.
- TabulateBasis.InsertKeepsOthers: dicts are modelled as values. A sub-dict
  that two key paths reach (the same Python object stored under both) is not
  modelled: Python's in-place insertion is then visible along the other path
  too, and this lemma does not hold for it. The call site builds every level
  of `psi_tables` from fresh dicts, so no level is shared there.
- TabulateBasis.MapEntityPoints: the facet and vertex branches call
  `map_facet_points` and `reference_cell_vertices`, which are not part of
  this model. Only the branch and its arguments are modelled.
- `listcopy` in ffc/utils.py: it calls the copy constructor of arbitrary
  objects.
- The rest of ffc/quadrature/tabulate_basis.py (`tabulate_basis`, the psi
  tables, `_tabulate_entities`): these depend on UFL and FIAT element
  objects and on floating-point weighted sums.
- ffc/fiatinterface.py, sandbox/swig/new_symbol.py, src/reference/MassMatrix.h,
  ffc/backends/ufc/function.py and the unit test driver: element
  construction, symbolic algebra and C++ templates outside the derivative
  pipeline.

## Findings

| source | as written | input that shows it | evidently intended | confidence | as-written member | corrected member |
|---|---|---|---|---|---|---|
| ffc/utils.py:24-28 | the failure message is built from `values`, a name not defined in `pick_first` | `pick_first([1, 2])` raises NameError before `error` is called | report the differing items of `sequence` in the error | high (not executed) | SequenceUtils.PickFirstLosesValues | SequenceUtils.PickFirst |
