/** The flat array layout of the generated code: the `matrix index` of
    component (or dof) i and derivative r in a row length of n is i * n + r
    (ffc/evaluatebasisderivatives.py, lines 48-54: "option 1"). */
module Layout {
  import opened LinAlg

  function Slot(i: nat, r: nat, n: nat): nat {
    i * n + r
  }

  /** Row i of a table with `rows` rows of length n lies inside [0, rows * n). */
  lemma SlotBound(i: nat, r: nat, n: nat, rows: nat)
    requires i < rows && r < n
    ensures Slot(i, r, n) < rows * n
    ensures rows * n == Slot(rows - 1, n, n)
  {
    MulMonotone(rows - i, n);
    assert rows * n - i * n == (rows - i) * n;
  }

  /** Distinct (row, column) pairs with columns below n occupy distinct slots. */
  lemma SlotInjective(i: nat, r: nat, i': nat, r': nat, n: nat)
    requires r < n && r' < n
    requires Slot(i, r, n) == Slot(i', r', n)
    ensures i == i' && r == r'
  {
    assert (i - i') * n == r' - r;
    MulMonotone(i - i', n);
  }

  lemma SlotsDistinct(n: nat)
    ensures forall i: nat, r: nat, i': nat, r': nat {:trigger Slot(i, r, n), Slot(i', r', n)} ::
      r < n && r' < n && (i != i' || r != r') ==> Slot(i, r, n) != Slot(i', r', n)
  {
    forall i: nat, r: nat, i': nat, r': nat | r < n && r' < n && Slot(i, r, n) == Slot(i', r', n)
      ensures i == i' && r == r'
    {
      SlotInjective(i, r, i', r', n);
    }
  }

  /** Slot of component i of a block of components that starts at component
      `off`: the generated code writes values[(off + i) * N + r]. */
  function BlockSlot(off: nat, i: nat, r: nat, n: nat): nat {
    Slot(off + i, r, n)
  }

  /** Component off + i of a block of `count` components starting at `off`
      lies inside the block's slot range [off * n, (off + count) * n). */
  lemma SlotInBlock(off: nat, i: nat, r: nat, n: nat, count: nat)
    requires i < count && r < n
    ensures off * n <= BlockSlot(off, i, r, n) < (off + count) * n
  {
    SlotBound(off + i, r, n, off + count);
    assert (off + i) * n == off * n + i * n;
  }

  /** The slots of components off .. off+nc-1 form the contiguous block
      [off * n, (off + nc) * n) of a buffer; this says k lies outside it. */
  predicate OutsideBlock(k: int, off: nat, nc: nat, n: nat) {
    k < off * n || k >= (off + nc) * n
  }

  lemma MulLe(a: nat, b: nat, n: nat)
    requires a <= b
    ensures a * n <= b * n
  {
    if a < b && n > 0 {
      MulMonotone(b - a, n);
      assert (b - a) * n == b * n - a * n;
    }
  }

  /** Row 0 starts at index 0. */
  lemma SlotOfFirstRow(s: nat, n: nat)
    ensures Slot(0, s, n) == s
  {
  }

  /** Reading a flat index back as (row, column): row k / n, column k % n. */
  lemma SlotOfIndex(k: nat, n: nat)
    requires n > 0
    ensures k % n < n
    ensures k == Slot(k / n, k % n, n)
  {
  }

  /** A flat index either is the slot of some component of the block
      off .. off+nc-1, or lies outside the block's range. */
  lemma BlockOfIndex(k: nat, off: nat, nc: nat, n: nat)
    requires n > 0
    ensures off <= k / n < off + nc ==> k == BlockSlot(off, k / n - off, k % n, n)
    ensures !(off <= k / n < off + nc) ==> OutsideBlock(k, off, nc, n)
  {
    var c := k / n;
    SlotOfIndex(k, n);
    if c < off {
      SlotBound(c, k % n, n, off);
    } else if c >= off + nc {
      MulLe(off + nc, c, n);
    }
  }

  /** Every slot of a table with `rows` rows of length n is an index below len. */
  predicate Fits(rows: nat, n: nat, len: nat) {
    forall i: nat, r: nat :: i < rows && r < n ==> Slot(i, r, n) < len
  }

  lemma FitsProduct(rows: nat, n: nat, len: nat)
    requires rows * n <= len
    ensures Fits(rows, n, len)
  {
    forall i: nat, r: nat | i < rows && r < n
      ensures Slot(i, r, n) < len
    {
      SlotBound(i, r, n, rows);
    }
  }

  /** The reset loop of the generated code: the first `count` entries of the
      buffer are set to zero; the rest of the buffer is left alone. */
  method ZeroFill(buf: seq<real>, count: nat) returns (out: seq<real>)
    requires count <= |buf|
    ensures |out| == |buf|
    ensures forall k :: 0 <= k < count ==> out[k] == 0.0
    ensures forall k :: count <= k < |buf| ==> out[k] == buf[k]
  {
    out := buf;
    var k := 0;
    while k < count
      invariant 0 <= k <= count
      invariant |out| == |buf|
      invariant forall j :: 0 <= j < k ==> out[j] == 0.0
      invariant forall j :: k <= j < |buf| ==> out[j] == buf[j]
    {
      out := out[k := 0.0];
      k := k + 1;
    }
  }
}
