/** How a mixed element (including vector and tensor elements) hands a global
    dof to one of its sub-elements and where that sub-element writes its
    values (ffc/evaluatebasisderivatives.py, `_mixed_elements`). */
module MixedElement {
  import opened Wrappers
  import opened FiniteElement

  /** sum_space_dim before sub-element k: the first global dof it owns. */
  function SpaceOffset(elements: seq<ElementData>, k: nat): nat
    requires k <= |elements|
  {
    if k == 0 then 0 else SpaceOffset(elements, k - 1) + elements[k - 1].spaceDimension
  }

  /** sum_value_dim before sub-element k: the first value component it writes. */
  function ValueOffset(elements: seq<ElementData>, k: nat): nat
    requires k <= |elements|
  {
    if k == 0 then 0 else ValueOffset(elements, k - 1) + ValueDim(elements[k - 1])
  }

  /** Space dimension of the whole (possibly mixed) element. */
  function TotalSpaceDim(elements: seq<ElementData>): nat {
    SpaceOffset(elements, |elements|)
  }

  /** Number of value components of the whole element: the sum over the
      sub-elements of sum(value_shape or (1,)). */
  function TotalValueDim(elements: seq<ElementData>): nat {
    ValueOffset(elements, |elements|)
  }

  /** The guard emitted for sub-element k: S_k <= dof <= S_k + dim_k - 1. */
  predicate Owns(elements: seq<ElementData>, k: nat, dof: nat) {
    && k < |elements|
    && SpaceOffset(elements, k) <= dof
    && dof <= SpaceOffset(elements, k) + elements[k].spaceDimension - 1
  }

  /** The first sub-element at index k or later whose guard holds. */
  function FindOwner(elements: seq<ElementData>, dof: nat, k: nat): (o: Option<nat>)
    requires k <= |elements|
    ensures o.Some? ==> k <= o.value && Owns(elements, o.value, dof)
    ensures o.None? ==> forall j :: k <= j < |elements| ==> !Owns(elements, j, dof)
    decreases |elements| - k
  {
    if k == |elements| then None
    else if Owns(elements, k, dof) then Some(k)
    else FindOwner(elements, dof, k + 1)
  }

  /** The sub-element whose code runs for `dof`: a single element always runs
      (no guard is emitted); a mixed element runs the sub-element whose
      guard holds, if any. */
  function Owner(elements: seq<ElementData>, dof: nat): (o: Option<nat>)
    ensures o.Some? ==> o.value < |elements| && SpaceOffset(elements, o.value) <= dof
  {
    if |elements| == 1 then Some(0) else FindOwner(elements, dof, 0)
  }

  lemma {:induction false} SpaceOffsetMonotone(elements: seq<ElementData>, j: nat, k: nat)
    requires j <= k <= |elements|
    ensures SpaceOffset(elements, j) <= SpaceOffset(elements, k)
    decreases k - j
  {
    if j < k {
      SpaceOffsetMonotone(elements, j, k - 1);
    }
  }

  lemma {:induction false} ValueOffsetMonotone(elements: seq<ElementData>, j: nat, k: nat)
    requires j <= k <= |elements|
    ensures ValueOffset(elements, j) <= ValueOffset(elements, k)
    decreases k - j
  {
    if j < k {
      ValueOffsetMonotone(elements, j, k - 1);
    }
  }

  /** The dof ranges of distinct sub-elements are disjoint: at most one of the
      emitted `if` blocks fires for any dof. */
  lemma OwnersDisjoint(elements: seq<ElementData>, dof: nat, j: nat, k: nat)
    requires Owns(elements, j, dof) && Owns(elements, k, dof)
    ensures j == k
  {
    if j < k {
      SpaceOffsetMonotone(elements, j + 1, k);
    } else if k < j {
      SpaceOffsetMonotone(elements, k + 1, j);
    }
  }

  /** The dof ranges cover [0, TotalSpaceDim) without gaps. */
  lemma {:induction false} OwnersCover(elements: seq<ElementData>, dof: nat, k: nat)
    requires k <= |elements| && dof < SpaceOffset(elements, k)
    ensures exists j :: 0 <= j < k && Owns(elements, j, dof)
  {
    if dof >= SpaceOffset(elements, k - 1) {
      assert Owns(elements, k - 1, dof);
    } else {
      OwnersCover(elements, dof, k - 1);
    }
  }

  /** A mixed element runs sub-element k for `dof` exactly when k's guard
      holds, and runs nothing exactly when dof is at least the total space
      dimension. */
  lemma MixedOwner(elements: seq<ElementData>, dof: nat, k: nat)
    requires |elements| != 1
    ensures Owner(elements, dof) == Some(k) <==> Owns(elements, k, dof)
    ensures Owner(elements, dof).None? <==> dof >= TotalSpaceDim(elements)
  {
    var o := FindOwner(elements, dof, 0);
    if o.Some? && Owns(elements, k, dof) {
      OwnersDisjoint(elements, dof, o.value, k);
    }
    if o.Some? {
      SpaceOffsetMonotone(elements, o.value + 1, |elements|);
    }
    if dof < TotalSpaceDim(elements) {
      OwnersCover(elements, dof, |elements|);
    }
  }

  /** The owning sub-element's local dof is the global dof minus the dofs of
      the sub-elements before it, and it is one of its own dofs. */
  lemma LocalDof(elements: seq<ElementData>, dof: nat, k: nat)
    requires Owns(elements, k, dof)
    ensures 0 <= dof - SpaceOffset(elements, k) < elements[k].spaceDimension
  {
  }

  /** The value block of sub-element k ends where the next one starts and lies
      inside the values of the whole element. */
  lemma ValueBlockInside(elements: seq<ElementData>, k: nat)
    requires k < |elements|
    ensures ValueOffset(elements, k) + ValueDim(elements[k]) == ValueOffset(elements, k + 1)
    ensures ValueOffset(elements, k + 1) <= TotalValueDim(elements)
  {
    ValueOffsetMonotone(elements, k + 1, |elements|);
  }

  /** The generated guard of sub-element k accepts exactly the dofs from its
      offset up to the next sub-element's offset: in a mixed element the
      sub-element whose range holds the dof runs. */
  lemma OwnerOfRange(elements: seq<ElementData>, dof: nat, k: nat)
    requires |elements| != 1 && k < |elements|
    ensures Owner(elements, dof) == Some(k) <==> SpaceOffset(elements, k) <= dof < SpaceOffset(elements, k + 1)
  {
    MixedOwner(elements, dof, k);
  }

  /** Sub-elements with 3, 4 and 2 dofs own the dofs 0-2, 3-6 and 7-8; dof 9
      is owned by none of them. */
  lemma OwnerExample(elements: seq<ElementData>)
    requires |elements| == 3
    requires elements[0].spaceDimension == 3 && elements[1].spaceDimension == 4 && elements[2].spaceDimension == 2
    ensures Owner(elements, 2) == Some(0) && Owner(elements, 3) == Some(1)
    ensures Owner(elements, 6) == Some(1) && Owner(elements, 7) == Some(2)
    ensures Owner(elements, 9) == None
  {
    assert SpaceOffset(elements, 1) == 3;
    assert SpaceOffset(elements, 2) == 7;
    assert SpaceOffset(elements, 3) == 9;
    MixedOwner(elements, 2, 0);
    MixedOwner(elements, 3, 1);
    MixedOwner(elements, 6, 1);
    MixedOwner(elements, 7, 2);
    MixedOwner(elements, 9, 0);
  }
}
