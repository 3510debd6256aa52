/** Mapping the reference derivatives of one (sub-)element back to the
    physical cell with the chain-rule matrix, and adding them into the output
    at the element's component offset
    (ffc/evaluatebasisderivatives.py, `_transform_derivatives`). */
module PhysicalDerivatives {
  import opened LinAlg
  import opened Layout

  /** Term s of the physical derivative r of component i:
      transform[r][s] * ref[i * N + s]. */
  function TransformTerms(t: Matrix, ref: Vector, i: nat, r: nat, n: nat): nat -> real {
    (s: nat) => At(t, r, s) * Get(ref, Slot(i, s, n))
  }

  /** Physical derivative r of component i: row r of the transform applied to
      the N reference derivatives of that component. */
  function PhysicalValue(t: Matrix, ref: Vector, i: nat, r: nat, n: nat): real {
    Sum(n, TransformTerms(t, ref, i, r, n))
  }

  /** Innermost loop of lines 547-556: for fixed (r, s), every component i adds
      transform[r][s] * ref[i * N + s] into values[(off + i) * N + r]. */
  method TransformComponents(values: Vector, t: Matrix, ref: Vector, off: nat, nc: nat, n: nat, r: nat, s: nat)
    returns (out: Vector)
    requires IsMatrix(t, n, n) && Fits(nc, n, |ref|) && Fits(off + nc, n, |values|)
    requires r < n && s < n
    ensures |out| == |values|
    ensures forall i :: 0 <= i < nc ==>
      out[BlockSlot(off, i, r, n)] == values[BlockSlot(off, i, r, n)] + TransformTerms(t, ref, i, r, n)(s)
    ensures forall i, q :: 0 <= i < nc && 0 <= q < n && q != r ==>
      out[BlockSlot(off, i, q, n)] == values[BlockSlot(off, i, q, n)]
    ensures forall k :: 0 <= k < |values| && OutsideBlock(k, off, nc, n) ==> out[k] == values[k]
  {
    out := values;
    var i := 0;
    while i < nc
      invariant 0 <= i <= nc
      invariant |out| == |values|
      invariant forall c :: 0 <= c < i ==>
        out[BlockSlot(off, c, r, n)] == values[BlockSlot(off, c, r, n)] + TransformTerms(t, ref, c, r, n)(s)
      invariant forall c :: i <= c < nc ==> out[BlockSlot(off, c, r, n)] == values[BlockSlot(off, c, r, n)]
      invariant forall c, q :: 0 <= c < nc && 0 <= q < n && q != r ==>
        out[BlockSlot(off, c, q, n)] == values[BlockSlot(off, c, q, n)]
      invariant forall k :: 0 <= k < |values| && OutsideBlock(k, off, nc, n) ==> out[k] == values[k]
    {
      SlotInBlock(off, i, r, n, nc);
      var k := BlockSlot(off, i, r, n);
      OtherSlots(off, i, r, n);
      out := out[k := out[k] + t[r][s] * ref[Slot(i, s, n)]];
      i := i + 1;
    }
  }

  /** No other component or derivative of the block shares slot (i, r). */
  lemma OtherSlots(off: nat, i: nat, r: nat, n: nat)
    requires r < n
    ensures forall c, q :: 0 <= c && 0 <= q < n && (c != i || q != r) ==> BlockSlot(off, c, q, n) != BlockSlot(off, i, r, n)
  {
    forall c, q | 0 <= c && 0 <= q < n && BlockSlot(off, c, q, n) == BlockSlot(off, i, r, n)
      ensures c == i && q == r
    {
      SlotInjective(off + c, q, off + i, r, n);
    }
  }

  /** Middle loop of lines 547-556: row r of the transform, s = 0 .. N-1. */
  method TransformRow(values: Vector, t: Matrix, ref: Vector, off: nat, nc: nat, n: nat, r: nat)
    returns (out: Vector)
    requires IsMatrix(t, n, n) && Fits(nc, n, |ref|) && Fits(off + nc, n, |values|)
    requires r < n
    ensures |out| == |values|
    ensures forall i :: 0 <= i < nc ==>
      out[BlockSlot(off, i, r, n)] == values[BlockSlot(off, i, r, n)] + PhysicalValue(t, ref, i, r, n)
    ensures forall i, q :: 0 <= i < nc && 0 <= q < n && q != r ==>
      out[BlockSlot(off, i, q, n)] == values[BlockSlot(off, i, q, n)]
    ensures forall k :: 0 <= k < |values| && OutsideBlock(k, off, nc, n) ==> out[k] == values[k]
  {
    out := values;
    var s := 0;
    while s < n
      invariant 0 <= s <= n
      invariant |out| == |values|
      invariant forall c :: 0 <= c < nc ==>
        out[BlockSlot(off, c, r, n)] == values[BlockSlot(off, c, r, n)] + Sum(s, TransformTerms(t, ref, c, r, n))
      invariant forall c, q :: 0 <= c < nc && 0 <= q < n && q != r ==>
        out[BlockSlot(off, c, q, n)] == values[BlockSlot(off, c, q, n)]
      invariant forall k :: 0 <= k < |values| && OutsideBlock(k, off, nc, n) ==> out[k] == values[k]
    {
      out := TransformComponents(out, t, ref, off, nc, n, r, s);
      s := s + 1;
    }
  }

  /** Lines 520-557: values[(off + i) * N + r] += sum over s of
      transform[r][s] * ref[i * N + s], for every component i < nc and every
      derivative r < N. Only the block of components off .. off+nc-1 changes. */
  method TransformDerivatives(values: Vector, t: Matrix, ref: Vector, off: nat, nc: nat, n: nat)
    returns (out: Vector)
    requires IsMatrix(t, n, n) && Fits(nc, n, |ref|) && Fits(off + nc, n, |values|)
    ensures |out| == |values|
    ensures forall i, r :: 0 <= i < nc && 0 <= r < n ==>
      out[BlockSlot(off, i, r, n)] == values[BlockSlot(off, i, r, n)] + PhysicalValue(t, ref, i, r, n)
    ensures forall k :: 0 <= k < |values| && OutsideBlock(k, off, nc, n) ==> out[k] == values[k]
  {
    out := values;
    var r := 0;
    while r < n
      invariant 0 <= r <= n
      invariant |out| == |values|
      invariant forall c, q :: 0 <= c < nc && 0 <= q < r ==>
        out[BlockSlot(off, c, q, n)] == values[BlockSlot(off, c, q, n)] + PhysicalValue(t, ref, c, q, n)
      invariant forall c, q :: 0 <= c < nc && r <= q < n ==>
        out[BlockSlot(off, c, q, n)] == values[BlockSlot(off, c, q, n)]
      invariant forall k :: 0 <= k < |values| && OutsideBlock(k, off, nc, n) ==> out[k] == values[k]
    {
      out := TransformRow(out, t, ref, off, nc, n, r);
      r := r + 1;
    }
  }

  /** With the identity transform (no distortion of the reference cell), the
      physical derivatives are the reference derivatives. */
  lemma PhysicalValueOfIdentity(ref: Vector, i: nat, r: nat, n: nat)
    requires r < n && Fits(i + 1, n, |ref|)
    ensures PhysicalValue(Identity(n), ref, i, r, n) == ref[Slot(i, r, n)]
  {
    SumSingle(n, r, TransformTerms(Identity(n), ref, i, r, n));
  }
}
