/** Tile-level sumprod_slice (src/tile/sumprod_slice.cc): validates the
    shapes of the three tiles, folds src1 into an m x k x n block around
    the reduced axis and submits one StarPU task. */
module TileSumprodSlice {
  import opened Wrappers
  import opened Indexing
  import opened Codelets
  import opened Starpu
  import opened TileTraits
  import SumprodSlice

  /** A shape with one axis removed. */
  function Removed(s: seq<int>, axis: int): (r: seq<int>)
    requires 0 <= axis < |s|
    ensures |r| == |s| - 1
    ensures forall i :: 0 <= i < axis ==> r[i] == s[i]
    ensures forall i :: axis < i < |s| ==> r[i - 1] == s[i]
  {
    s[..axis] + s[axis + 1..]
  }

  /** The validation of sumprod_slice_async as a reference: the checks in
      source order, each failing with its own message. */
  function Check(s1: seq<int>, s2: seq<int>, d: seq<int>, axis: int): Outcome
  {
    if s1 != s2 then Fail("src1.shape != src2.shape")
    else if |s1| != |d| + 1 then Fail("src1.ndim != dst.ndim+1")
    else if |s1| == 0 then Fail("Scalar input makes no sense")
    else if axis < 0 then Fail("axis < 0")
    else if axis >= |s1| then Fail("axis >= ndim")
    else if exists i :: 0 <= i < axis && s1[i] != d[i] then Fail("src1.shape[i] != dst.shape[i]")
    else if exists i :: axis < i < |s1| && s1[i] != d[i - 1] then Fail("src1.shape[i] != dst.shape[i-1]")
    else Pass
  }

  /** The checks pass exactly when both sources share one shape, the axis
      lies inside it, and dst has that shape with the axis removed. */
  lemma CheckPasses(s1: seq<int>, s2: seq<int>, d: seq<int>, axis: int)
    ensures Check(s1, s2, d, axis) == Pass <==> s1 == s2 && 0 <= axis < |s1| && d == Removed(s1, axis)
  {
    if s1 == s2 && 0 <= axis < |s1| && d == Removed(s1, axis) {
      assert |s1| == |d| + 1;
      assert forall i :: 0 <= i < axis ==> s1[i] == d[i];
      assert forall i :: axis < i < |s1| ==> s1[i] == d[i - 1];
    }
    if Check(s1, s2, d, axis) == Pass {
      assert |d| == |Removed(s1, axis)|;
      forall i | 0 <= i < |d|
        ensures d[i] == Removed(s1, axis)[i]
      {
        if i >= axis {
          assert s1[i + 1] == d[i];
        }
      }
    }
  }

  /** The scalar-input error can never be raised: once the rank check
      passes, src1 has at least one axis. */
  lemma ScalarInputUnreachable(s1: seq<int>, s2: seq<int>, d: seq<int>, axis: int)
    ensures Check(s1, s2, d, axis) != Fail("Scalar input makes no sense")
  {
    if s1 == s2 && |s1| == |d| + 1 {
      assert |s1| != 0;
    } else {
      assert Check(s1, s2, d, axis).error != "Scalar input makes no sense";
    }
  }

  /** The checks of sumprod_slice_async, loops included. */
  method Validate(src1: Tile, src2: Tile, dst: Tile, axis: int) returns (o: Outcome)
    ensures o == Check(src1.shape, src2.shape, dst.shape, axis)
  {
    if src1.shape != src2.shape {
      return Fail("src1.shape != src2.shape");
    }
    if |src1.shape| != |dst.shape| + 1 {
      return Fail("src1.ndim != dst.ndim+1");
    }
    var ndim := |src1.shape|;
    if axis < 0 {
      return Fail("axis < 0");
    }
    if axis >= ndim {
      return Fail("axis >= ndim");
    }
    var i := 0;
    while i < axis
      invariant 0 <= i <= axis
      invariant forall j :: 0 <= j < i ==> src1.shape[j] == dst.shape[j]
    {
      if src1.shape[i] != dst.shape[i] {
        return Fail("src1.shape[i] != dst.shape[i]");
      }
      i := i + 1;
    }
    i := axis + 1;
    while i < ndim
      invariant axis + 1 <= i <= ndim
      invariant forall j :: axis < j < i ==> src1.shape[j] == dst.shape[j - 1]
    {
      if src1.shape[i] != dst.shape[i - 1] {
        return Fail("src1.shape[i] != dst.shape[i-1]");
      }
      i := i + 1;
    }
    return Pass;
  }

  /** The sizes handed to the kernel: m = src1.stride[axis],
      n = src1.matrix_shape[axis+1][1], k = src1.shape[axis]. */
  function Fold(src1: Tile, axis: int): (r: (int, int, int))
    requires 0 <= axis < |src1.shape|
  {
    (Stride(src1, axis), MatrixShape(src1, axis + 1).1, src1.shape[axis])
  }

  /** The fold covers src1 exactly (m * k * n elements) and dst keeps one
      element per (row, column) pair (m * n elements). */
  lemma FoldCovers(src1: Tile, dst: Tile, axis: int)
    requires 0 <= axis < |src1.shape| && dst.shape == Removed(src1.shape, axis)
    ensures Fold(src1, axis).0 * Fold(src1, axis).2 * Fold(src1, axis).1 == Nelems(src1)
    ensures Fold(src1, axis).0 * Fold(src1, axis).1 == Nelems(dst)
  {
    var s := src1.shape;
    assert s[..axis + 1] == s[..axis] + [s[axis]];
    assert s == s[..axis + 1] + s[axis + 1..];
    ProdAppend(s[..axis + 1], s[axis + 1..]);
    ProdAppend(s[..axis], [s[axis]]);
    ProdAppend(s[..axis], s[axis + 1..]);
    assert Prod([s[axis]]) == s[axis] * Prod([]);
  }

  /** `sumprod_slice_async<T>`: validate, then one submission; a failed
      check submits nothing. The redux flag takes the submit default 0. */
  method SumprodSliceAsync(rt: Runtime, p: Precision, alpha: real, src1: Tile, src2: Tile, beta: real,
                           dst: Tile, axis: int, ret: int) returns (o: Outcome)
    modifies rt
    ensures Check(src1.shape, src2.shape, dst.shape, axis).Fail? ==>
              o == Check(src1.shape, src2.shape, dst.shape, axis) && rt.log == old(rt.log)
    ensures Check(src1.shape, src2.shape, dst.shape, axis).Pass? ==>
              0 <= axis < |src1.shape| &&
              o == (if ret == 0 then Pass else Fail("Error in sumprod_slice task submission")) &&
              rt.log == old(rt.log) + (if ret == 0 then [Submitted(SumprodSlice.TaskOf(p, Fold(src1, axis).0, Fold(src1, axis).1,
                                       Fold(src1, axis).2, alpha, src1.handle, src2.handle, beta, dst.handle, 0))] else [])
    ensures rt.initialized == old(rt.initialized) && rt.owner == old(rt.owner)
    ensures old(rt.Valid()) ==> rt.Valid()
  {
    o := Validate(src1, src2, dst, axis);
    if o.Fail? {
      return;
    }
    CheckPasses(src1.shape, src2.shape, dst.shape, axis);
    var m := Stride(src1, axis);
    var n := MatrixShape(src1, axis + 1).1;
    var k := src1.shape[axis];
    o := SumprodSlice.Submit(rt, p, m, n, k, alpha, src1.handle, src2.handle, beta, dst.handle, 0, ret);
  }

  /** `sumprod_slice<T>`: the async form followed, when it returns, by a
      wait for all tasks. */
  method SumprodSliceBlocking(rt: Runtime, p: Precision, alpha: real, src1: Tile, src2: Tile, beta: real,
                              dst: Tile, axis: int, ret: int) returns (o: Outcome)
    modifies rt
    ensures Check(src1.shape, src2.shape, dst.shape, axis).Fail? ==>
              o == Check(src1.shape, src2.shape, dst.shape, axis) && rt.log == old(rt.log)
    ensures Check(src1.shape, src2.shape, dst.shape, axis).Pass? ==>
              0 <= axis < |src1.shape| &&
              o == (if ret == 0 then Pass else Fail("Error in sumprod_slice task submission")) &&
              rt.log == old(rt.log) + (if ret == 0 then [Submitted(SumprodSlice.TaskOf(p, Fold(src1, axis).0, Fold(src1, axis).1,
                                       Fold(src1, axis).2, alpha, src1.handle, src2.handle, beta, dst.handle, 0)), WaitForAll] else [])
    ensures rt.initialized == old(rt.initialized) && rt.owner == old(rt.owner)
    ensures old(rt.Valid()) ==> rt.Valid()
  {
    o := SumprodSliceAsync(rt, p, alpha, src1, src2, beta, dst, axis, ret);
    if o.Fail? {
      return;
    }
    rt.WaitAll();
  }
}
