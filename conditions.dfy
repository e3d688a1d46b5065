/** Index bookkeeping of the global force and displacement vectors:
    `set_force_vector`, `set_displacement_vector`, the condensation of
    `process_conditions` and the scatter of `solve`, as functions on values. */
module Conditions {
  import opened Options
  import opened Matrices

  /** numpy accepts an integer index i into a vector of length n when
      -n <= i < n; a negative index counts from the end. */
  predicate InRange(i: int, n: nat) {
    -(n as int) <= i < n
  }

  function Wrap(i: int, n: nat): (k: nat)
    requires InRange(i, n)
    ensures k < n && (if i < 0 then k == i + n else k == i)
  {
    if i < 0 then i + n else i
  }

  /** The global index of direction `direction` (1 = x, 2 = z, 3 = rotation)
      of node `node`: (node - 1) * 3 + direction - 1. */
  function DofIndex(node: int, direction: int): (k: int)
    ensures 1 <= direction <= 3 ==> k / 3 == node - 1 && k % 3 == direction - 1
  {
    (node - 1) * 3 + direction - 1
  }

  /** One `(node, direction, force)` tuple of `set_force_vector`. */
  datatype ForceEntry = ForceEntry(node: int, direction: int, magnitude: real)

  /** One `(node, direction)` tuple of `set_displacement_vector`. */
  datatype Dof = Dof(node: int, direction: int)

  predicate ForcesFit(es: seq<ForceEntry>, n: nat) {
    forall k :: 0 <= k < |es| ==> InRange(DofIndex(es[k].node, es[k].direction), n)
  }

  function ForceTarget(e: ForceEntry, n: nat): nat
    requires InRange(DofIndex(e.node, e.direction), n)
  {
    Wrap(DofIndex(e.node, e.direction), n)
  }

  /** The loop of `set_force_vector`: each entry adds its force into the
      vector at its (wrapped) index. */
  function Accumulate(v: Vector, es: seq<ForceEntry>): (r: Vector)
    requires ForcesFit(es, |v|)
    ensures |r| == |v|
    decreases |es|
  {
    if |es| == 0 then v
    else
      var r := Accumulate(v, es[..|es| - 1]);
      var e := es[|es| - 1];
      var i := ForceTarget(e, |v|);
      if i < |r| then r[i := r[i] + e.magnitude] else r
  }

  /** Reference definition: the total force the entries put on index k. */
  function LoadAt(es: seq<ForceEntry>, k: nat, n: nat): real
    requires ForcesFit(es, n)
    decreases |es|
  {
    if |es| == 0 then 0.0
    else
      var e := es[|es| - 1];
      LoadAt(es[..|es| - 1], k, n) + (if ForceTarget(e, n) == k then e.magnitude else 0.0)
  }

  /** `set_force_vector` is additive: every entry of the result is the old
      entry plus the sum of the forces aimed at it, so repeated entries
      accumulate and untouched entries keep their value. */
  lemma {:induction false} AccumulateAt(v: Vector, es: seq<ForceEntry>, k: nat)
    requires ForcesFit(es, |v|) && k < |v|
    ensures |Accumulate(v, es)| == |v|
    ensures Accumulate(v, es)[k] == v[k] + LoadAt(es, k, |v|)
    decreases |es|
  {
    if |es| > 0 {
      AccumulateAt(v, es[..|es| - 1], k);
    }
  }

  /** Registering two lists one after the other is the same as registering
      their concatenation. */
  lemma {:induction false} AccumulateConcat(v: Vector, a: seq<ForceEntry>, b: seq<ForceEntry>)
    requires ForcesFit(a, |v|) && ForcesFit(b, |v|)
    ensures ForcesFit(a + b, |v|) && |Accumulate(v, a)| == |v|
    ensures Accumulate(Accumulate(v, a), b) == Accumulate(v, a + b)
    decreases |b|
  {
    assert ForcesFit(a + b, |v|) by {
      forall k | 0 <= k < |a + b|
        ensures InRange(DofIndex((a + b)[k].node, (a + b)[k].direction), |v|)
      {
        if k >= |a| {
          assert (a + b)[k] == b[k - |a|];
        }
      }
    }
    if |b| == 0 {
      assert a + b == a;
    } else {
      var b' := b[..|b| - 1];
      assert (a + b)[..|a + b| - 1] == a + b';
      AccumulateConcat(v, a, b');
    }
  }

  /** All three DOF indices of the node fall inside a vector of length n
      (numpy's negative indices included). */
  predicate NodeFits(node: int, n: nat) {
    InRange(DofIndex(node, 1), n) && InRange(DofIndex(node, 3), n)
  }

  /** The loop of `set_force_vector` over a starting vector v0. */
  method AddForces(v0: Vector, es: seq<ForceEntry>) returns (v: Vector)
    requires ForcesFit(es, |v0|)
    ensures v == Accumulate(v0, es)
  {
    v := v0;
    for k := 0 to |es|
      invariant ForcesFit(es[..k], |v0|) && v == Accumulate(v0, es[..k]) && |v| == |v0|
    {
      var e := es[k];
      var index := DofIndex(e.node, e.direction);
      assert es[..k + 1][..k] == es[..k] && es[..k + 1][k] == e;
      var i := Wrap(index, |v|);
      v := v[i := v[i] + e.magnitude];
    }
    assert es[..|es|] == es;
  }

  /** The entries `point_load` registers. */
  function PointLoadEntries(fx: real, fz: real, node: int): seq<ForceEntry> {
    [ForceEntry(node, 1, fx), ForceEntry(node, 2, fz)]
  }

  /** `point_load` only adds fx to the x direction and fz to the z direction
      of its node (indices (node - 1) * 3 and (node - 1) * 3 + 1); every other
      entry, the rotation of the node included, is unchanged. */
  lemma {:induction false} PointLoadEffect(v: Vector, fx: real, fz: real, node: int, k: nat)
    requires 1 <= node && DofIndex(node, 2) < |v| && k < |v|
    ensures ForcesFit(PointLoadEntries(fx, fz, node), |v|)
    ensures |Accumulate(v, PointLoadEntries(fx, fz, node))| == |v|
    ensures Accumulate(v, PointLoadEntries(fx, fz, node))[k]
         == v[k] + (if k == DofIndex(node, 1) then fx else 0.0) + (if k == DofIndex(node, 2) then fz else 0.0)
  {
    var es := PointLoadEntries(fx, fz, node);
    AccumulateAt(v, es, k);
    assert es[..1] == [es[0]] && es[..1][..0] == [];
    assert ForceTarget(es[0], |v|) == DofIndex(node, 1);
    assert ForceTarget(es[1], |v|) == DofIndex(node, 2);
    assert LoadAt(es, k, |v|) == LoadAt(es[..1], k, |v|) + (if DofIndex(node, 2) == k then fz else 0.0);
    assert LoadAt(es[..1], k, |v|) == (if DofIndex(node, 1) == k then fx else 0.0);
  }

  // ---- displacement vector: None is numpy's NaN ("unknown") ----

  predicate DofsFit(ds: seq<Dof>, n: nat) {
    forall k :: 0 <= k < |ds| ==> InRange(DofIndex(ds[k].node, ds[k].direction), n)
  }

  function DofTarget(d: Dof, n: nat): nat
    requires InRange(DofIndex(d.node, d.direction), n)
  {
    Wrap(DofIndex(d.node, d.direction), n)
  }

  /** The vector `np.empty(n)` filled with NaN: every entry unknown. */
  function Unknowns(n: nat): (v: seq<Option<real>>)
    ensures |v| == n && forall i :: 0 <= i < n ==> v[i] == None
  {
    seq(n, i => None)
  }

  /** A vector of known values (no NaN left). */
  function Known(v: Vector): (r: seq<Option<real>>)
    ensures |r| == |v| && forall i :: 0 <= i < |v| ==> r[i] == Some(v[i])
  {
    seq(|v|, i requires 0 <= i < |v| => Some(v[i]))
  }

  /** The loop of `set_displacement_vector`: each listed entry becomes known 0. */
  function MarkKnown(v: seq<Option<real>>, ds: seq<Dof>): (r: seq<Option<real>>)
    requires DofsFit(ds, |v|)
    ensures |r| == |v|
    decreases |ds|
  {
    if |ds| == 0 then v
    else
      var r := MarkKnown(v, ds[..|ds| - 1]);
      var i := DofTarget(ds[|ds| - 1], |v|);
      if i < |r| then r[i := Some(0.0)] else r
  }

  /** Whether some entry of ds is aimed at index k. */
  predicate Marked(ds: seq<Dof>, k: nat, n: nat)
    requires DofsFit(ds, n)
  {
    exists j :: 0 <= j < |ds| && DofTarget(ds[j], n) == k
  }

  /** `set_displacement_vector` sets exactly the listed indices to known 0 and
      leaves every other entry as it was. */
  lemma {:induction false} MarkKnownAt(v: seq<Option<real>>, ds: seq<Dof>, k: nat)
    requires DofsFit(ds, |v|) && k < |v|
    ensures |MarkKnown(v, ds)| == |v|
    ensures MarkKnown(v, ds)[k] == if Marked(ds, k, |v|) then Some(0.0) else v[k]
    decreases |ds|
  {
    if |ds| > 0 {
      var ds' := ds[..|ds| - 1];
      MarkKnownAt(v, ds', k);
      if Marked(ds', k, |v|) {
        var j :| 0 <= j < |ds'| && DofTarget(ds'[j], |v|) == k;
        assert ds[j] == ds'[j];
      }
      if Marked(ds, k, |v|) && DofTarget(ds[|ds| - 1], |v|) != k {
        var j :| 0 <= j < |ds| && DofTarget(ds[j], |v|) == k;
        assert ds'[j] == ds[j];
      }
    }
  }

  /** Registering the same supports twice changes nothing. */
  lemma {:induction false} MarkKnownIdempotent(v: seq<Option<real>>, ds: seq<Dof>)
    requires DofsFit(ds, |v|)
    ensures |MarkKnown(v, ds)| == |v|
    ensures MarkKnown(MarkKnown(v, ds), ds) == MarkKnown(v, ds)
  {
    var w := MarkKnown(v, ds);
    forall k | 0 <= k < |v| ensures MarkKnown(w, ds)[k] == w[k] {
      MarkKnownAt(v, ds, k);
      MarkKnownAt(w, ds, k);
    }
  }

  /** Supports registered by separate calls compose in either order. */
  lemma {:induction false} MarkKnownCommutes(v: seq<Option<real>>, a: seq<Dof>, b: seq<Dof>)
    requires DofsFit(a, |v|) && DofsFit(b, |v|)
    ensures |MarkKnown(v, a)| == |v| && |MarkKnown(v, b)| == |v|
    ensures MarkKnown(MarkKnown(v, a), b) == MarkKnown(MarkKnown(v, b), a)
  {
    var va, vb := MarkKnown(v, a), MarkKnown(v, b);
    forall k | 0 <= k < |v| ensures MarkKnown(va, b)[k] == MarkKnown(vb, a)[k] {
      MarkKnownAt(v, a, k);
      MarkKnownAt(v, b, k);
      MarkKnownAt(va, b, k);
      MarkKnownAt(vb, a, k);
    }
  }

  /** The loop of `set_displacement_vector` over a starting vector v0. */
  method MarkDofs(v0: seq<Option<real>>, ds: seq<Dof>) returns (v: seq<Option<real>>)
    requires DofsFit(ds, |v0|)
    ensures v == MarkKnown(v0, ds)
  {
    v := v0;
    for k := 0 to |ds|
      invariant DofsFit(ds[..k], |v0|) && v == MarkKnown(v0, ds[..k]) && |v| == |v0|
    {
      var d := ds[k];
      var index := DofIndex(d.node, d.direction);
      assert ds[..k + 1][..k] == ds[..k] && ds[..k + 1][k] == d;
      var i := Wrap(index, |v|);
      v := v[i := Some(0.0)];
    }
    assert ds[..|ds|] == ds;
  }

  /** The `(node, direction)` lists of `add_support_hinged`, `add_support_roll`
      and `add_support_fixed`. */
  function HingedDofs(node: int): seq<Dof> {
    [Dof(node, 1), Dof(node, 2)]
  }

  function RollDofs(node: int, direction: int): seq<Dof> {
    [Dof(node, direction)]
  }

  function FixedDofs(node: int): seq<Dof> {
    [Dof(node, 1), Dof(node, 2), Dof(node, 3)]
  }

  /** For a node of the vector, a hinged support fixes the x and z directions
      of the node, a fixed support all three, a roll support only its own
      direction; nothing else is marked. */
  lemma {:induction false} SupportsMark(node: int, direction: int, n: nat, k: nat)
    requires 1 <= node && DofIndex(node, 3) < n && 1 <= direction <= 3 && k < n
    ensures DofsFit(HingedDofs(node), n) && DofsFit(RollDofs(node, direction), n) && DofsFit(FixedDofs(node), n)
    ensures Marked(HingedDofs(node), k, n) <==> k == DofIndex(node, 1) || k == DofIndex(node, 2)
    ensures Marked(RollDofs(node, direction), k, n) <==> k == DofIndex(node, direction)
    ensures Marked(FixedDofs(node), k, n) <==> DofIndex(node, 1) <= k <= DofIndex(node, 3)
  {
    var h, f := HingedDofs(node), FixedDofs(node);
    if k == DofIndex(node, 1) {
      assert DofTarget(h[0], n) == k && DofTarget(f[0], n) == k;
    } else if k == DofIndex(node, 2) {
      assert DofTarget(h[1], n) == k && DofTarget(f[1], n) == k;
    } else if k == DofIndex(node, 3) {
      assert DofTarget(f[2], n) == k;
    }
    if k == DofIndex(node, direction) {
      assert DofTarget(RollDofs(node, direction)[0], n) == k;
    }
  }

  // ---- condensation (process_conditions) ----

  /** Known 0: the test `system_displacement_vector[index] == 0`
      (NaN, the unknown marker, never equals 0). */
  predicate KnownZero(d: seq<Option<real>>, i: nat)
    requires i < |d|
  {
    d[i] == Some(0.0)
  }

  /** The indices below n that `process_conditions` removes, in increasing order. */
  function Removed(d: seq<Option<real>>, n: nat): (r: seq<int>)
    requires n <= |d|
    ensures IndicesBelow(r, n)
  {
    if n == 0 then [] else Removed(d, n - 1) + (if KnownZero(d, n - 1) then [n - 1] else [])
  }

  /** The indices below n that it keeps, in increasing order. */
  function Remainder(d: seq<Option<real>>, n: nat): (r: seq<int>)
    requires n <= |d|
    ensures IndicesBelow(r, n)
  {
    if n == 0 then [] else Remainder(d, n - 1) + (if KnownZero(d, n - 1) then [] else [n - 1])
  }

  predicate StrictlyIncreasing(s: seq<int>) {
    forall i, j :: 0 <= i < j < |s| ==> s[i] < s[j]
  }

  lemma {:induction false} PartitionSizes(d: seq<Option<real>>, n: nat)
    requires n <= |d|
    ensures |Removed(d, n)| + |Remainder(d, n)| == n
  {
    if n > 0 {
      PartitionSizes(d, n - 1);
    }
  }

  lemma {:induction false} RemovedMembers(d: seq<Option<real>>, n: nat)
    requires n <= |d|
    ensures forall i :: i in Removed(d, n) <==> 0 <= i < n && KnownZero(d, i)
  {
    if n > 0 {
      RemovedMembers(d, n - 1);
    }
  }

  lemma {:induction false} RemainderMembers(d: seq<Option<real>>, n: nat)
    requires n <= |d|
    ensures forall i :: i in Remainder(d, n) <==> 0 <= i < n && !KnownZero(d, i)
  {
    if n > 0 {
      RemainderMembers(d, n - 1);
    }
  }

  lemma {:induction false} RemovedIncreasing(d: seq<Option<real>>, n: nat)
    requires n <= |d|
    ensures StrictlyIncreasing(Removed(d, n))
  {
    if n > 0 {
      RemovedIncreasing(d, n - 1);
    }
  }

  lemma {:induction false} RemainderIncreasing(d: seq<Option<real>>, n: nat)
    requires n <= |d|
    ensures StrictlyIncreasing(Remainder(d, n))
  {
    if n > 0 {
      RemainderIncreasing(d, n - 1);
    }
  }

  /** `process_conditions` partitions 0 .. n-1: both lists are strictly
      increasing, an index is removed exactly when its displacement is known 0
      and kept exactly when it is not, so every index is in exactly one list. */
  lemma {:induction false} Partition(d: seq<Option<real>>, n: nat)
    requires n <= |d|
    ensures StrictlyIncreasing(Removed(d, n)) && StrictlyIncreasing(Remainder(d, n))
    ensures |Removed(d, n)| + |Remainder(d, n)| == n
    ensures forall i :: i in Removed(d, n) <==> 0 <= i < n && KnownZero(d, i)
    ensures forall i :: i in Remainder(d, n) <==> 0 <= i < n && !KnownZero(d, i)
  {
    PartitionSizes(d, n);
    RemovedMembers(d, n);
    RemainderMembers(d, n);
    RemovedIncreasing(d, n);
    RemainderIncreasing(d, n);
  }

  /** The entries of v at the given indices, in order (numpy fancy indexing). */
  function Select<T>(v: seq<T>, idx: seq<int>): (r: seq<T>)
    requires forall k :: 0 <= k < |idx| ==> 0 <= idx[k] < |v|
    ensures |r| == |idx| && forall k :: 0 <= k < |idx| ==> r[k] == v[idx[k]]
  {
    seq(|idx|, k requires 0 <= k < |idx| => v[idx[k]])
  }

  /** The rows and columns of m at the given indices. */
  function SubMatrix(m: Matrix, idx: seq<int>): (r: Matrix)
    requires forall k :: 0 <= k < |idx| ==> 0 <= idx[k] < |m| && idx[k] < |m[idx[k]]|
    requires forall a, b :: 0 <= a < |idx| && 0 <= b < |idx| ==> idx[b] < |m[idx[a]]|
  {
    seq(|idx|, a requires 0 <= a < |idx| => seq(|idx|, b requires 0 <= b < |idx| => m[idx[a]][idx[b]]))
  }

  /** `np.delete(v, i, 0)` on a vector or on the rows of a matrix. */
  function DeleteAt<T>(v: seq<T>, i: nat): (r: seq<T>)
    requires i < |v|
  {
    v[..i] + v[i + 1..]
  }

  /** `np.delete(m, i, 1)`: drop column i of every row. */
  function DeleteColumn(m: Matrix, i: nat): (r: Matrix)
    requires forall k :: 0 <= k < |m| ==> i < |m[k]|
  {
    seq(|m|, k requires 0 <= k < |m| => DeleteAt(m[k], i))
  }

  function Range(lo: int, hi: int): (r: seq<int>)
    requires lo <= hi
    ensures |r| == hi - lo && forall k :: 0 <= k < hi - lo ==> r[k] == lo + k
  {
    seq(hi - lo, k => lo + k)
  }

  /** One removal step of `process_conditions`: the working vector holds the
      kept entries followed by the unvisited ones, and deleting the position
      right after the kept ones drops v[i]. */
  lemma {:induction false} DeleteStep<T>(v: seq<T>, kept: seq<int>, i: nat)
    requires i < |v| && forall k :: 0 <= k < |kept| ==> 0 <= kept[k] < |v|
    ensures |kept| < |Select(v, kept) + v[i..]|
    ensures DeleteAt(Select(v, kept) + v[i..], |kept|) == Select(v, kept) + v[i + 1..]
  {
    var w := Select(v, kept) + v[i..];
    assert w[..|kept|] == Select(v, kept);
    assert w[|kept| + 1..] == v[i + 1..];
  }

  /** One keeping step: the working vector is the same, read with one more
      kept index. */
  lemma {:induction false} KeepStep<T>(v: seq<T>, kept: seq<int>, i: nat)
    requires i < |v| && forall k :: 0 <= k < |kept| ==> 0 <= kept[k] < |v|
    ensures forall k :: 0 <= k < |kept + [i]| ==> 0 <= (kept + [i])[k] < |v|
    ensures Select(v, kept + [i]) + v[i + 1..] == Select(v, kept) + v[i..]
  {
    assert Select(v, kept + [i]) == Select(v, kept) + [v[i]];
  }

  predicate IndicesBelow(idx: seq<int>, n: nat) {
    forall k :: 0 <= k < |idx| ==> 0 <= idx[k] < n
  }

  lemma {:induction false} IndicesBelowConcat(a: seq<int>, b: seq<int>, n: nat)
    requires IndicesBelow(a, n) && IndicesBelow(b, n)
    ensures IndicesBelow(a + b, n)
  {
    forall k | 0 <= k < |a + b| ensures 0 <= (a + b)[k] < n {
      if k >= |a| {
        assert (a + b)[k] == b[k - |a|];
      }
    }
  }

  /** The working matrix of `process_conditions` is the submatrix on the kept
      indices followed by the unvisited ones; deleting row and column |kept|
      drops index i from it. */
  lemma {:induction false} DeleteMatrixStep(m: Matrix, kept: seq<int>, i: nat, n: nat)
    requires IsMatrix(m, n, n) && i < n && IndicesBelow(kept, n)
    ensures IndicesBelow(kept + Range(i, n), n) && IndicesBelow(kept + Range(i + 1, n), n)
    ensures var w := SubMatrix(m, kept + Range(i, n));
      && |kept| < |w| && (forall k :: 0 <= k < |w| ==> |kept| < |w[k]|)
      && DeleteColumn(DeleteAt(w, |kept|), |kept|) == SubMatrix(m, kept + Range(i + 1, n))
  {
    var full := kept + Range(i, n);
    var next := kept + Range(i + 1, n);
    assert DeleteAt(full, |kept|) == next by {
      assert full[..|kept|] == kept;
      assert full[|kept| + 1..] == Range(i + 1, n);
    }
    SubMatrixDelete(m, full, |kept|, n);
  }

  lemma {:induction false} DeleteAtAt<T>(s: seq<T>, j: nat, a: nat)
    requires j < |s| && a < |s| - 1
    ensures DeleteAt(s, j)[a] == s[if a < j then a else a + 1]
  {
  }

  /** Deleting row and column j of a submatrix gives the submatrix on the
      index list without its j-th entry. */
  lemma {:induction false} SubMatrixDelete(m: Matrix, idx: seq<int>, j: nat, n: nat)
    requires IsMatrix(m, n, n) && IndicesBelow(idx, n) && j < |idx|
    ensures IndicesBelow(DeleteAt(idx, j), n)
    ensures var w := SubMatrix(m, idx);
      && j < |w| && (forall k :: 0 <= k < |w| ==> j < |w[k]|)
      && DeleteColumn(DeleteAt(w, j), j) == SubMatrix(m, DeleteAt(idx, j))
  {
    var next := DeleteAt(idx, j);
    forall a | 0 <= a < |next| ensures 0 <= next[a] < n {
      DeleteAtAt(idx, j, a);
    }
    var w := SubMatrix(m, idx);
    var d := DeleteColumn(DeleteAt(w, j), j);
    var target := SubMatrix(m, next);
    forall a | 0 <= a < |d| ensures d[a] == target[a] {
      DeleteAtAt(w, j, a);
      DeleteAtAt(idx, j, a);
      forall b | 0 <= b < |d[a]| ensures d[a][b] == target[a][b] {
        DeleteAtAt(DeleteAt(w, j)[a], j, b);
        DeleteAtAt(idx, j, b);
      }
    }
  }

  lemma {:induction false} KeepMatrixStep(kept: seq<int>, i: nat, n: nat)
    requires i < n
    ensures kept + [i] + Range(i + 1, n) == kept + Range(i, n)
  {
  }

  /** The submatrix on all indices is the matrix itself. */
  lemma {:induction false} SubMatrixAll(m: Matrix, n: nat)
    requires IsMatrix(m, n, n)
    ensures IndicesBelow(Range(0, n), n) && SubMatrix(m, Range(0, n)) == m
  {
    var w := SubMatrix(m, Range(0, n));
    forall a | 0 <= a < n ensures w[a] == m[a] {
    }
  }

  /** The state of `process_conditions` before index i: the working vectors
      are the kept entries followed by those not yet visited, and the working
      matrix is the submatrix on the same indices. */
  ghost predicate Condensed(d0: seq<Option<real>>, f0: Vector, m0: Matrix, n: nat, kept: seq<int>, i: nat,
                            d: seq<Option<real>>, f: Vector, m: Matrix)
    requires n <= |d0| && n <= |f0| && IsMatrix(m0, n, n)
  {
    && i <= n && IndicesBelow(kept, i)
    && d == Select(d0, kept) + d0[i..] && f == Select(f0, kept) + f0[i..]
    && m == SubMatrix(m0, kept + Range(i, n))
  }

  /** The deleting branch of the `process_conditions` loop: entry |kept| of the
      working vectors and row and column |kept| of the working matrix go. */
  method DeleteKnown(ghost d0: seq<Option<real>>, ghost f0: Vector, ghost m0: Matrix, ghost n: nat,
                     ghost kept: seq<int>, ghost i: nat, d: seq<Option<real>>, f: Vector, m: Matrix, index: nat)
    returns (d': seq<Option<real>>, f': Vector, m': Matrix)
    requires n <= |d0| && n <= |f0| && IsMatrix(m0, n, n) && i < n
    requires Condensed(d0, f0, m0, n, kept, i, d, f, m) && index == |kept|
    ensures Condensed(d0, f0, m0, n, kept, i + 1, d', f', m')
  {
    DeleteStep(d0, kept, i);
    DeleteStep(f0, kept, i);
    DeleteMatrixStep(m0, kept, i, n);
    d' := DeleteAt(d, index);
    f' := DeleteAt(f, index);
    m' := DeleteAt(m, index);
    m' := DeleteColumn(m', index);
  }

  lemma {:induction false} KeepUnknown(d0: seq<Option<real>>, f0: Vector, m0: Matrix, n: nat, kept: seq<int>, i: nat,
                    d: seq<Option<real>>, f: Vector, m: Matrix)
    requires n <= |d0| && n <= |f0| && IsMatrix(m0, n, n) && i < n
    requires Condensed(d0, f0, m0, n, kept, i, d, f, m)
    ensures Condensed(d0, f0, m0, n, kept + [i], i + 1, d, f, m)
  {
    KeepStep(d0, kept, i);
    KeepStep(f0, kept, i);
    KeepMatrixStep(kept, i, n);
  }

  /** The loop of `process_conditions` on values: an index whose displacement
      is known 0 is deleted from the working displacement and force vectors
      and from the rows and columns of the working n x n matrix; the others
      are kept. Entries of the vectors past n are never visited. */
  method Condense(d0: seq<Option<real>>, f0: Vector, m0: Matrix, n: nat)
    returns (d: seq<Option<real>>, f: Vector, m: Matrix, removed: seq<int>, remainder: seq<int>)
    requires n <= |d0| && n <= |f0| && IsMatrix(m0, n, n)
    ensures removed == Removed(d0, n) && remainder == Remainder(d0, n)
    ensures d == Select(d0, remainder) + d0[n..] && f == Select(f0, remainder) + f0[n..]
    ensures m == SubMatrix(m0, remainder)
  {
    d, f, m := d0, f0, m0;
    removed, remainder := [], [];
    var removeCount := 0;
    SubMatrixAll(m0, n);
    assert remainder + Range(0, n) == Range(0, n);
    for i := 0 to n
      invariant removed == Removed(d0, i) && remainder == Remainder(d0, i)
      invariant removeCount == |removed| && |removed| + |remainder| == i
      invariant Condensed(d0, f0, m0, n, remainder, i, d, f, m)
    {
      var index := i - removeCount;
      assert d[index] == d0[i];
      if d[index] == Some(0.0) {
        d, f, m := DeleteKnown(d0, f0, m0, n, remainder, i, d, f, m, index);
        removeCount := removeCount + 1;
        removed := removed + [i];
      } else {
        KeepUnknown(d0, f0, m0, n, remainder, i, d, f, m);
        remainder := remainder + [i];
      }
    }
    assert remainder + Range(n, n) == remainder;
  }

  // ---- solve: scatter of the reduced solution and per-element slices ----

  /** The loop of `solve` that writes the k-th reduced displacement at the
      k-th remainder index. */
  function Scatter(v: Vector, idx: seq<int>, x: Vector): (r: Vector)
    requires |idx| <= |x| && forall k :: 0 <= k < |idx| ==> 0 <= idx[k] < |v|
    ensures |r| == |v|
    decreases |idx|
  {
    if |idx| == 0 then v
    else Scatter(v, idx[..|idx| - 1], x)[idx[|idx| - 1] := x[|idx| - 1]]
  }

  /** For a strictly increasing index list (as `process_conditions` builds on
      its first call) the scattered vector holds x[k] at idx[k] and keeps v
      everywhere else. */
  lemma {:induction false} ScatterAt(v: Vector, idx: seq<int>, x: Vector)
    requires |idx| <= |x| && forall k :: 0 <= k < |idx| ==> 0 <= idx[k] < |v|
    requires StrictlyIncreasing(idx)
    ensures forall k :: 0 <= k < |idx| ==> Scatter(v, idx, x)[idx[k]] == x[k]
    ensures forall j :: 0 <= j < |v| && j !in idx ==> Scatter(v, idx, x)[j] == v[j]
    decreases |idx|
  {
    if |idx| > 0 {
      var idx' := idx[..|idx| - 1];
      ScatterAt(v, idx', x);
      forall j | 0 <= j < |v| && j !in idx
        ensures Scatter(v, idx, x)[j] == v[j]
      {
        assert j !in idx';
      }
    }
  }

  /** The six entries `solve` copies into an element: indices
      `node_ids[-1] * 3 - 6 + v` for v in 0..5, with numpy's negative indexing. */
  function ElementSlice(u: Vector, nodeId2: int): (d: Vector)
    requires InRange(3 * nodeId2 - 6, |u|) && InRange(3 * nodeId2 - 1, |u|)
    ensures |d| == 6
  {
    seq(6, v requires 0 <= v < 6 => u[Wrap(3 * nodeId2 - 6 + v, |u|)])
  }

  /** From the second node on, the slice is the six contiguous entries ending
      with node nodeId2's rotation: the DOFs of nodes nodeId2 - 1 and nodeId2,
      whichever node the element starts at. */
  lemma {:induction false} ElementSliceContiguous(u: Vector, nodeId2: int)
    requires 2 <= nodeId2 && 3 * nodeId2 <= |u|
    ensures ElementSlice(u, nodeId2) == u[3 * nodeId2 - 6 .. 3 * nodeId2]
  {
    forall v | 0 <= v < 6 ensures ElementSlice(u, nodeId2)[v] == u[3 * nodeId2 - 6 + v] {
      assert Wrap(3 * nodeId2 - 6 + v, |u|) == 3 * nodeId2 - 6 + v;
    }
  }

  /** For an element ending at node 1 the start index is -3: the slice is the
      last three entries of the vector followed by the first three. */
  lemma {:induction false} ElementSliceWraps(u: Vector)
    requires 6 <= |u|
    ensures ElementSlice(u, 1) == u[|u| - 3..] + u[..3]
  {
    var w := u[|u| - 3..] + u[..3];
    forall v | 0 <= v < 6 ensures ElementSlice(u, 1)[v] == w[v] {
      if v < 3 {
        assert Wrap(v - 3, |u|) == |u| - 3 + v;
      } else {
        assert Wrap(v - 3, |u|) == v - 3;
      }
    }
  }
}
