/** Pure sequence helpers of the code generator (ffc/utils.py): `product`,
    `all_equal`, `pick_first` and `compute_permutations`. */
module SequenceUtils {
  import opened Wrappers

  // ---------------------------------------------------------------------
  // product
  // ---------------------------------------------------------------------

  /** reduce(operator.__mul__, sequence, 1): a left fold starting from 1. */
  function Product(xs: seq<int>): int {
    if |xs| == 0 then 1 else Product(xs[..|xs| - 1]) * xs[|xs| - 1]
  }

  /** The fold's unit and its step. */
  lemma ProductFold(xs: seq<int>, x: int)
    ensures Product([]) == 1
    ensures Product(xs + [x]) == Product(xs) * x
  {
    assert (xs + [x])[..|xs|] == xs;
  }

  /** The product of a concatenation is the product of the products. */
  lemma {:induction false} ProductAppend(xs: seq<int>, ys: seq<int>)
    ensures Product(xs + ys) == Product(xs) * Product(ys)
    decreases |ys|
  {
    if |ys| == 0 {
      assert xs + ys == xs;
    } else {
      var init, y := ys[..|ys| - 1], ys[|ys| - 1];
      assert xs + ys == (xs + init) + [y];
      ProductFold(xs + init, y);
      ProductFold(init, y);
      assert ys == init + [y];
      ProductAppend(xs, init);
    }
  }

  /** The product taken from the front: x0 * (x1 * (... * 1)). */
  function ProductFromFront(xs: seq<int>): int {
    if |xs| == 0 then 1 else xs[0] * ProductFromFront(xs[1..])
  }

  /** The left fold of `reduce` and the product taken from the front agree
      on every sequence: the order of multiplication does not matter. */
  lemma {:induction false} ProductAgrees(xs: seq<int>)
    ensures Product(xs) == ProductFromFront(xs)
    decreases |xs|
  {
    if |xs| > 0 {
      ProductAgrees(xs[1..]);
      assert xs == [xs[0]] + xs[1..];
      ProductAppend([xs[0]], xs[1..]);
      ProductFold([], xs[0]);
      assert [] + [xs[0]] == [xs[0]];
    }
  }

  /** The product is zero exactly when some factor is zero. */
  lemma {:induction false} ProductZero(xs: seq<int>)
    ensures Product(xs) == 0 <==> 0 in xs
  {
    if |xs| > 0 {
      var init := xs[..|xs| - 1];
      ProductZero(init);
      assert xs == init + [xs[|xs| - 1]];
    }
  }

  // ---------------------------------------------------------------------
  // all_equal and pick_first
  // ---------------------------------------------------------------------

  /** sequence[:-1] == sequence[1:]; for the empty sequence both slices are
      empty. */
  predicate AllEqual<T(==)>(xs: seq<T>) {
    if |xs| == 0 then true else xs[..|xs| - 1] == xs[1..]
  }

  /** Comparing the sequence with itself shifted by one is comparing each
      adjacent pair; so it holds of sequences of length 0 and 1. */
  lemma AllEqualAdjacent<T>(xs: seq<T>)
    ensures AllEqual(xs) <==> forall j :: 0 <= j < |xs| - 1 ==> xs[j] == xs[j + 1]
    ensures |xs| <= 1 ==> AllEqual(xs)
  {
    if |xs| > 0 && forall j :: 0 <= j < |xs| - 1 ==> xs[j] == xs[j + 1] {
      assert forall j :: 0 <= j < |xs| - 1 ==> xs[..|xs| - 1][j] == xs[1..][j];
    }
  }

  /** Equal neighbours make every pair equal. */
  lemma {:induction false} AllEqualPairs<T>(xs: seq<T>)
    ensures AllEqual(xs) <==> forall a, b :: 0 <= a < |xs| && 0 <= b < |xs| ==> xs[a] == xs[b]
  {
    AllEqualAdjacent(xs);
    if AllEqual(xs) {
      forall a | 0 <= a < |xs|
        ensures xs[a] == xs[0]
      {
        AdjacentReach(xs, a);
      }
    }
  }

  lemma {:induction false} AdjacentReach<T>(xs: seq<T>, a: nat)
    requires a < |xs|
    requires forall j :: 0 <= j < |xs| - 1 ==> xs[j] == xs[j + 1]
    ensures xs[a] == xs[0]
  {
    if a > 0 {
      AdjacentReach(xs, a - 1);
    }
  }

  /** How `pick_first` can fail. */
  datatype PickError<T> =
    | EmptySequence        // sequence[0] of an empty list: IndexError
    | UndefinedName        // NameError from the message naming `values`
    | ValuesDiffer(values: seq<T>)

  /** ffc/utils.py:24-28 as written: the message of the failure names the
      undefined variable `values`, so the call fails with a NameError before
      `error` can report the values. */
  function PickFirstAsWritten<T(==)>(xs: seq<T>): (r: Result<T, PickError<T>>)
    ensures r.Ok? <==> |xs| > 0 && AllEqual(xs)
    ensures r.Ok? ==> r.value == xs[0]
    ensures !AllEqual(xs) ==> r == Err(UndefinedName)
    ensures |xs| == 0 ==> r == Err(EmptySequence)
  {
    if !AllEqual(xs) then Err(UndefinedName)
    else if |xs| == 0 then Err(EmptySequence)
    else Ok(xs[0])
  }

  /** The differing values never reach the error report as written. */
  lemma PickFirstLosesValues()
    ensures PickFirstAsWritten([1, 2]) == Err(UndefinedName)
    ensures PickFirstAsWritten([1, 2]) != Err(ValuesDiffer([1, 2]))
  {
    assert [1, 2][..1] == [1] && [1, 2][1..] == [2];
  }

  /** `pick_first` as intended: the common value, or an error that reports
      the values when they differ. */
  function PickFirst<T(==)>(xs: seq<T>): (r: Result<T, PickError<T>>)
    ensures r.Ok? <==> |xs| > 0 && forall a :: 0 <= a < |xs| ==> xs[a] == xs[0]
    ensures r.Ok? ==> r.value == xs[0] && forall a :: 0 <= a < |xs| ==> xs[a] == r.value
    ensures !AllEqual(xs) ==> r == Err(ValuesDiffer(xs))
    ensures |xs| == 0 ==> r == Err(EmptySequence)
  {
    AllEqualPairs(xs);
    if !AllEqual(xs) then Err(ValuesDiffer(xs))
    else if |xs| == 0 then Err(EmptySequence)
    else Ok(xs[0])
  }

  // ---------------------------------------------------------------------
  // compute_permutations
  // ---------------------------------------------------------------------

  /** A tuple `compute_permutations(k, n, skip)` may return: k entries, strictly
      increasing, taken from range(n) and not in skip. */
  predicate Valid(t: seq<nat>, k: nat, n: nat, skip: seq<int>) {
    && |t| == k
    && (forall a, b :: 0 <= a < b < |t| ==> t[a] < t[b])
    && (forall j :: 0 <= j < |t| ==> t[j] < n && t[j] !in skip)
  }

  /** Strict lexicographic order on tuples ("rising order"). */
  predicate LexLess(a: seq<nat>, b: seq<nat>) {
    |a| > 0 && |b| > 0 && (a[0] < b[0] || (a[0] == b[0] && LexLess(a[1..], b[1..])))
  }

  /** Every earlier tuple is lexicographically before every later one. */
  predicate Rising(ts: seq<seq<nat>>) {
    forall a, b :: 0 <= a < b < |ts| ==> LexLess(ts[a], ts[b])
  }

  /** Lines 41-42: the singletons (i,) for i in range(from, n) not in skip. */
  function Singletons(from: nat, n: nat, skip: seq<int>): (ts: seq<seq<nat>>)
    ensures forall t :: t in ts <==> exists i :: from <= i < n && i !in skip && t == [i]
    ensures forall a :: 0 <= a < |ts| ==> |ts[a]| == 1 && from <= ts[a][0]
    ensures Rising(ts)
    decreases n - from
  {
    if from >= n then []
    else
      var rest := Singletons(from + 1, n, skip);
      if from in skip then rest else [[from]] + rest
  }

  /** The inner loop of lines 47-49: (i,) + p for each p of pp, in order,
      when i < p[0]. */
  function Prefixed(i: nat, pp: seq<seq<nat>>): (ts: seq<seq<nat>>)
    requires forall a :: 0 <= a < |pp| ==> |pp[a]| > 0
    ensures forall t :: t in ts <==> exists p :: p in pp && i < p[0] && t == [i] + p
    ensures forall a :: 0 <= a < |ts| ==> |ts[a]| > 0 && ts[a][0] == i
  {
    if |pp| == 0 then []
    else
      var rest := Prefixed(i, pp[1..]);
      assert forall p :: p in pp[1..] ==> p in pp;
      assert forall p :: p in pp ==> p == pp[0] || p in pp[1..];
      if i < pp[0][0] then [[i] + pp[0]] + rest else rest
  }

  /** The outer loop of lines 46-50 from i = from on: for each i in
      range(from, n) not in skip, the tuples Prefixed(i, pp). */
  function Extended(from: nat, n: nat, skip: seq<int>, pp: seq<seq<nat>>): (ts: seq<seq<nat>>)
    requires forall a :: 0 <= a < |pp| ==> |pp[a]| > 0
    ensures forall t :: t in ts <==> exists i :: from <= i < n && i !in skip && t in Prefixed(i, pp)
    ensures forall a :: 0 <= a < |ts| ==> |ts[a]| > 0 && from <= ts[a][0]
    decreases n - from
  {
    if from >= n then []
    else
      var rest := Extended(from + 1, n, skip, pp);
      if from in skip then rest else Prefixed(from, pp) + rest
  }

  lemma RisingTail(ts: seq<seq<nat>>)
    requires |ts| > 0 && Rising(ts)
    ensures Rising(ts[1..])
  {
    forall a, b | 0 <= a < b < |ts| - 1
      ensures LexLess(ts[1..][a], ts[1..][b])
    {
      assert ts[1..][a] == ts[a + 1] && ts[1..][b] == ts[b + 1];
    }
  }

  /** Prefixing i keeps the order of pp. */
  lemma {:induction false} PrefixedRising(i: nat, pp: seq<seq<nat>>)
    requires forall a :: 0 <= a < |pp| ==> |pp[a]| > 0
    requires Rising(pp)
    ensures Rising(Prefixed(i, pp))
  {
    if |pp| > 0 {
      var rest := Prefixed(i, pp[1..]);
      RisingTail(pp);
      PrefixedRising(i, pp[1..]);
      if i < pp[0][0] {
        forall t | t in rest
          ensures LexLess([i] + pp[0], t)
        {
          var p :| p in pp[1..] && i < p[0] && t == [i] + p;
          var b :| 0 <= b < |pp[1..]| && pp[1..][b] == p;
          assert LexLess(pp[0], pp[b + 1]);
          assert ([i] + pp[0])[1..] == pp[0] && t[1..] == p;
        }
        RisingCons([i] + pp[0], rest);
      }
    }
  }

  /** Blocks for increasing i follow each other in rising order. */
  lemma {:induction false} ExtendedRising(from: nat, n: nat, skip: seq<int>, pp: seq<seq<nat>>)
    requires forall a :: 0 <= a < |pp| ==> |pp[a]| > 0
    requires Rising(pp)
    ensures Rising(Extended(from, n, skip, pp))
    decreases n - from
  {
    if from < n {
      var rest := Extended(from + 1, n, skip, pp);
      ExtendedRising(from + 1, n, skip, pp);
      if from !in skip {
        var block := Prefixed(from, pp);
        PrefixedRising(from, pp);
        forall x, y | x in block && y in rest
          ensures LexLess(x, y)
        {
        }
        RisingAppend(block, rest);
      }
    }
  }

  lemma RisingCons(t: seq<nat>, ts: seq<seq<nat>>)
    requires Rising(ts) && forall u :: u in ts ==> LexLess(t, u)
    ensures Rising([t] + ts)
  {
    forall a, b | 0 <= a < b < |[t] + ts|
      ensures LexLess(([t] + ts)[a], ([t] + ts)[b])
    {
      assert ([t] + ts)[b] == ts[b - 1];
      if a > 0 {
        assert ([t] + ts)[a] == ts[a - 1];
      }
    }
  }

  lemma RisingAppend(xs: seq<seq<nat>>, ys: seq<seq<nat>>)
    requires Rising(xs) && Rising(ys) && forall x, y :: x in xs && y in ys ==> LexLess(x, y)
    ensures Rising(xs + ys)
  {
    forall a, b | 0 <= a < b < |xs + ys|
      ensures LexLess((xs + ys)[a], (xs + ys)[b])
    {
      if b < |xs| {
        assert (xs + ys)[a] == xs[a] && (xs + ys)[b] == xs[b];
      } else if a >= |xs| {
        assert (xs + ys)[a] == ys[a - |xs|] && (xs + ys)[b] == ys[b - |xs|];
      } else {
        assert (xs + ys)[a] in xs && (xs + ys)[b] in ys;
      }
    }
  }

  /** Lines 38-51 for k >= 1. */
  function Permutations(k: nat, n: nat, skip: seq<int>): (ts: seq<seq<nat>>)
    requires k >= 1
    ensures forall a :: 0 <= a < |ts| ==> |ts[a]| == k
  {
    if k == 1 then Singletons(0, n, skip)
    else
      var pp := Permutations(k - 1, n, skip);
      var ts := Extended(0, n, skip, pp);
      forall a | 0 <= a < |ts|
        ensures |ts[a]| == k
      {
        assert ts[a] in ts;
        var i :| 0 <= i < n && i !in skip && ts[a] in Prefixed(i, pp);
      }
      ts
  }

  /** The tuples come out in rising lexicographic order (line 39). */
  lemma {:induction false} PermutationsRising(k: nat, n: nat, skip: seq<int>)
    requires k >= 1
    ensures Rising(Permutations(k, n, skip))
  {
    if k > 1 {
      PermutationsRising(k - 1, n, skip);
      PermutationsStep(k, n, skip);
      ExtendedRising(0, n, skip, Permutations(k - 1, n, skip));
    }
  }

  /** How `compute_permutations` fails. */
  datatype PermutationError = NoBaseCase(k: int)

  /** ffc/utils.py:38-51. With k < 1 the recursion never reaches its base
      case k == 1 and the call ends in a recursion error. */
  function ComputePermutations(k: int, n: nat, skip: seq<int>): (r: Result<seq<seq<nat>>, PermutationError>)
    ensures r.Ok? <==> k >= 1
    ensures r.Err? ==> r.error == NoBaseCase(k)
    ensures r.Ok? ==> Rising(r.value)
  {
    if k < 1 then Err(NoBaseCase(k))
    else
      PermutationsRising(k, n, skip);
      Ok(Permutations(k, n, skip))
  }

  /** Every returned tuple is valid: k entries, strictly increasing, from
      range(n), none in skip. */
  lemma {:induction false} PermutationsSound(k: nat, n: nat, skip: seq<int>, t: seq<nat>)
    requires k >= 1 && t in Permutations(k, n, skip)
    ensures Valid(t, k, n, skip)
  {
    if k > 1 {
      var i, p := SplitFirst(k, n, skip, t);
      PermutationsSound(k - 1, n, skip, p);
      ConsValid(i, p, k, n, skip);
    }
  }

  /** A k-tuple of the result is an admissible first entry in front of a
      (k-1)-tuple of the recursive call. */
  lemma SplitFirst(k: nat, n: nat, skip: seq<int>, t: seq<nat>) returns (i: nat, p: seq<nat>)
    requires k >= 2 && t in Permutations(k, n, skip)
    ensures p in Permutations(k - 1, n, skip) && i < n && i !in skip && |p| > 0 && i < p[0] && t == [i] + p
  {
    var pp := Permutations(k - 1, n, skip);
    PermutationsStep(k, n, skip);
    i :| 0 <= i < n && i !in skip && t in Prefixed(i, pp);
    p :| p in pp && i < p[0] && t == [i] + p;
  }

  /** The converse step: an admissible first entry in front of a tuple of the
      recursive call is in the result. */
  lemma JoinFirst(k: nat, n: nat, skip: seq<int>, t: seq<nat>)
    requires k >= 2 && |t| == k && t[1..] in Permutations(k - 1, n, skip)
    requires t[0] < n && t[0] !in skip && t[0] < t[1]
    ensures t in Permutations(k, n, skip)
  {
    var pp := Permutations(k - 1, n, skip);
    var p := t[1..];
    assert t == [t[0]] + p;
    assert p in pp && t[0] < p[0];
    assert t in Prefixed(t[0], pp);
    PermutationsStep(k, n, skip);
  }

  lemma PermutationsStep(k: nat, n: nat, skip: seq<int>)
    requires k >= 2
    ensures Permutations(k, n, skip) == Extended(0, n, skip, Permutations(k - 1, n, skip))
  {
  }

  /** A valid (k-1)-tuple behind an admissible smaller first entry is a valid
      k-tuple. */
  lemma ConsValid(i: nat, p: seq<nat>, k: nat, n: nat, skip: seq<int>)
    requires k >= 2 && Valid(p, k - 1, n, skip)
    requires i < p[0] && i < n && i !in skip
    ensures Valid([i] + p, k, n, skip)
  {
    var t := [i] + p;
    assert forall j :: 1 <= j < |t| ==> t[j] == p[j - 1];
    forall a, b | 0 <= a < b < |t|
      ensures t[a] < t[b]
    {
      if a > 0 {
        assert t[a] == p[a - 1] && t[b] == p[b - 1];
      } else if b > 1 {
        assert p[0] < p[b - 1];
      }
    }
  }

  /** Every valid tuple is returned. */
  lemma {:induction false} PermutationsComplete(k: nat, n: nat, skip: seq<int>, t: seq<nat>)
    requires k >= 1 && Valid(t, k, n, skip)
    ensures t in Permutations(k, n, skip)
  {
    if k == 1 {
      SingletonIn(t, n, skip);
    } else {
      ValidTail(t, k, n, skip);
      PermutationsComplete(k - 1, n, skip, t[1..]);
      JoinFirst(k, n, skip, t);
    }
  }

  lemma SingletonIn(t: seq<nat>, n: nat, skip: seq<int>)
    requires Valid(t, 1, n, skip)
    ensures t in Permutations(1, n, skip)
  {
    assert t == [t[0]];
  }

  /** Dropping the first entry of a valid k-tuple leaves a valid (k-1)-tuple
      whose entries all exceed the dropped one. */
  lemma ValidTail(t: seq<nat>, k: nat, n: nat, skip: seq<int>)
    requires k >= 2 && Valid(t, k, n, skip)
    ensures Valid(t[1..], k - 1, n, skip) && t[0] < t[1] && t[0] < n && t[0] !in skip
  {
    var p := t[1..];
    assert forall j :: 0 <= j < |p| ==> p[j] == t[j + 1];
  }

  lemma LexLessIrreflexive(t: seq<nat>)
    ensures !LexLess(t, t)
  {
    if |t| > 0 {
      LexLessIrreflexive(t[1..]);
    }
  }

  /** compute_permutations(k, n, skip) for k >= 1 lists exactly the valid
      tuples, each once, in rising order. */
  lemma ComputePermutationsSpec(k: int, n: nat, skip: seq<int>)
    requires k >= 1
    ensures forall t :: t in ComputePermutations(k, n, skip).value <==> Valid(t, k, n, skip)
    ensures forall a, b :: 0 <= a < b < |ComputePermutations(k, n, skip).value| ==>
      ComputePermutations(k, n, skip).value[a] != ComputePermutations(k, n, skip).value[b]
  {
    var ts := Permutations(k, n, skip);
    PermutationsRising(k, n, skip);
    forall t
      ensures t in ts <==> Valid(t, k, n, skip)
    {
      if t in ts {
        PermutationsSound(k, n, skip, t);
      }
      if Valid(t, k, n, skip) {
        PermutationsComplete(k, n, skip, t);
      }
    }
    forall a, b | 0 <= a < b < |ts|
      ensures ts[a] != ts[b]
    {
      LexLessIrreflexive(ts[a]);
    }
  }

  /** For k == 1 the result is the singletons (i,) for i in range(n) not in
      skip, in ascending order. */
  lemma PermutationsOfOne(n: nat, skip: seq<int>)
    ensures forall t :: t in ComputePermutations(1, n, skip).value <==> exists i :: 0 <= i < n && i !in skip && t == [i]
    ensures forall a, b :: 0 <= a < b < |ComputePermutations(1, n, skip).value| ==>
      ComputePermutations(1, n, skip).value[a][0] < ComputePermutations(1, n, skip).value[b][0]
  {
    var ts := ComputePermutations(1, n, skip).value;
    forall a, b | 0 <= a < b < |ts|
      ensures ts[a][0] < ts[b][0]
    {
      assert LexLess(ts[a], ts[b]);
      assert ts[a][1..] == [] && ts[b][1..] == [];
      assert !LexLess(ts[a][1..], ts[b][1..]);
    }
  }
}
