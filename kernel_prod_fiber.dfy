/** The CPU kernel of prod_fiber (src/kernel/prod_fiber/cpu.cc): dst is an
    m x k x n block stored contiguously, first axis fastest, and every
    element of it is multiplied in place by alpha times the src entry of
    its middle index. */
module KernelProdFiber {
  import opened Indexing

  /** Where element (i0, i2, i1) of the m x k x n block lives. */
  function Offset(m: int, k: int, i0: int, i1: int, i2: int): int
  {
    (i1 * k + i2) * m + i0
  }

  /** Every index triple inside the block lands on an offset in
      [0, m * k * n), and the offset gives the triple back. */
  lemma OffsetInside(m: nat, n: nat, k: nat, i0: int, i1: int, i2: int)
    requires 0 <= i0 < m && 0 <= i1 < n && 0 <= i2 < k
    ensures 0 <= Offset(m, k, i0, i1, i2) < m * k * n
    ensures Offset(m, k, i0, i1, i2) % m == i0
    ensures Offset(m, k, i0, i1, i2) / m % k == i2
    ensures Offset(m, k, i0, i1, i2) / m / k == i1
  {
    var q := i1 * k + i2;
    MixedRadixBound(i2, k, i1, n);
    MixedRadixBound(i0, m, q, k * n);
    assert m * (k * n) == m * k * n;
    DivModUnique(Offset(m, k, i0, i1, i2), m, q, i0);
    DivModUnique(q, k, i1, i2);
  }

  /** A non-empty block has three non-zero extents. */
  lemma NonEmptyBlock(m: nat, n: nat, k: nat)
    requires m * k * n > 0
    ensures m > 0 && k > 0 && n > 0
  {
    if m == 0 || k == 0 || n == 0 {
      assert m * k == 0 || n == 0;
    }
  }

  /** Every offset in [0, m * k * n) is the offset of one triple inside the
      block: the offsets cover the block and none is visited twice. */
  lemma OffsetOfEach(m: nat, n: nat, k: nat, j: int)
    requires 0 <= j < m * k * n
    ensures m > 0 && k > 0 && n > 0
    ensures 0 <= j % m < m && 0 <= j / m % k < k && 0 <= j / m / k < n
    ensures Offset(m, k, j % m, j / m / k, j / m % k) == j
  {
    NonEmptyBlock(m, n, k);
    assert m * k * n == m * (k * n);
    DivBounds(j, m, k * n);
    DivBounds(j / m, k, n);
  }

  /** What the kernel leaves in dst: the first m * k * n entries scaled by
      alpha times their fiber's src entry, the rest as they were. */
  function Scaled(d: seq<real>, s: seq<real>, m: nat, n: nat, k: nat, alpha: real): (r: seq<real>)
    requires |s| >= k && |d| >= m * k * n
    ensures |r| == |d|
  {
    seq(|d|, j requires 0 <= j < |d| =>
      if m > 0 && k > 0 && j < m * k * n then d[j] * (alpha * s[j / m % k]) else d[j])
  }

  /** The kernel's promise: element (i0, i2, i1) becomes its old value times
      alpha * src[i2]. */
  lemma ScaledAt(d: seq<real>, s: seq<real>, m: nat, n: nat, k: nat, alpha: real, i0: int, i1: int, i2: int)
    requires |s| >= k && |d| >= m * k * n
    requires 0 <= i0 < m && 0 <= i1 < n && 0 <= i2 < k
    ensures 0 <= Offset(m, k, i0, i1, i2) < m * k * n
    ensures Scaled(d, s, m, n, k, alpha)[Offset(m, k, i0, i1, i2)] == d[Offset(m, k, i0, i1, i2)] * (alpha * s[i2])
  {
    OffsetInside(m, n, k, i0, i1, i2);
  }

  /** Entries at or beyond m * k * n are untouched, and an empty block
      leaves all of dst as it was. */
  lemma ScaledOutside(d: seq<real>, s: seq<real>, m: nat, n: nat, k: nat, alpha: real)
    requires |s| >= k && |d| >= m * k * n
    ensures forall j :: m * k * n <= j < |d| ==> Scaled(d, s, m, n, k, alpha)[j] == d[j]
    ensures m == 0 || n == 0 || k == 0 ==> Scaled(d, s, m, n, k, alpha) == d
  {
    if m == 0 || n == 0 || k == 0 {
      assert m * k * n == 0;
    }
  }

  /** Element j lies in a fiber the kernel has finished before reaching
      fiber (i2, i1): the src index is the outer loop, the third axis the
      inner one. */
  predicate Before(j: int, m: int, k: int, i2: int, i1: int)
    requires m > 0 && k > 0
  {
    j / m % k < i2 || (j / m % k == i2 && j / m / k < i1)
  }

  /** dst once the loops have reached fiber (i2, i1). */
  ghost function Progress(d: seq<real>, s: seq<real>, m: nat, n: nat, k: nat, alpha: real,
                          i2: int, i1: int): (r: seq<real>)
    requires |s| >= k && |d| >= m * k * n
    ensures |r| == |d|
  {
    seq(|d|, j requires 0 <= j < |d| =>
      if m > 0 && k > 0 && j < m * k * n && Before(j, m, k, i2, i1) then d[j] * (alpha * s[j / m % k]) else d[j])
  }

  lemma ProgressStart(d: seq<real>, s: seq<real>, m: nat, n: nat, k: nat, alpha: real)
    requires |s| >= k && |d| >= m * k * n
    ensures Progress(d, s, m, n, k, alpha, 0, 0) == d
  {
    forall j | 0 <= j < m * k * n
      ensures 0 <= j / m % k && 0 <= j / m / k
    {
      OffsetOfEach(m, n, k, j);
    }
  }

  lemma ProgressEnd(d: seq<real>, s: seq<real>, m: nat, n: nat, k: nat, alpha: real)
    requires |s| >= k && |d| >= m * k * n
    ensures Progress(d, s, m, n, k, alpha, k, 0) == Scaled(d, s, m, n, k, alpha)
  {
  }

  /** Finishing the last fiber for one src entry is starting the next entry. */
  lemma ProgressNextSource(d: seq<real>, s: seq<real>, m: nat, n: nat, k: nat, alpha: real, i2: int)
    requires |s| >= k && |d| >= m * k * n
    ensures Progress(d, s, m, n, k, alpha, i2, n) == Progress(d, s, m, n, k, alpha, i2 + 1, 0)
  {
    forall j | 0 <= j < m * k * n
      ensures 0 <= j / m / k < n
    {
      OffsetOfEach(m, n, k, j);
    }
  }

  /** `kernel::prod_fiber::cpu<T>`: for each src entry, for each fiber of
      that entry, scale the m consecutive elements of the fiber. */
  method Cpu(m: nat, n: nat, k: nat, alpha: real, src: array<real>, dst: array<real>)
    requires src != dst && src.Length >= k && dst.Length >= m * k * n
    modifies dst
    ensures dst[..] == Scaled(old(dst[..]), src[..], m, n, k, alpha)
    ensures src[..] == old(src[..])
  {
    ghost var d0, s0 := dst[..], src[..];
    ProgressStart(d0, s0, m, n, k, alpha);
    var i2 := 0;
    while i2 < k
      invariant 0 <= i2 <= k
      invariant dst[..] == Progress(d0, s0, m, n, k, alpha, i2, 0)
    {
      var srcVal := alpha * src[i2];
      assert srcVal == alpha * s0[i2];
      var i1 := 0;
      while i1 < n
        invariant 0 <= i1 <= n
        invariant dst[..] == Progress(d0, s0, m, n, k, alpha, i2, i1)
      {
        ghost var start := dst[..];
        FiberInside(m, n, k, i2, i1);
        ScaleFiber(dst, (i1 * k + i2) * m, m, srcVal);
        FiberStep(d0, s0, m, n, k, alpha, i2, i1, srcVal, start, dst[..]);
        i1 := i1 + 1;
      }
      ProgressNextSource(d0, s0, m, n, k, alpha, i2);
      i2 := i2 + 1;
    }
    ProgressEnd(d0, s0, m, n, k, alpha);
    assert src[..] == s0;
  }

  /** The fiber of (i2, i1) occupies [(i1 * k + i2) * m, (i1 * k + i2) * m + m),
      inside the block. */
  lemma FiberInside(m: nat, n: nat, k: nat, i2: int, i1: int)
    requires 0 <= i2 < k && 0 <= i1 < n
    ensures 0 <= (i1 * k + i2) * m && (i1 * k + i2) * m + m <= m * k * n
  {
    var q := i1 * k + i2;
    MixedRadixBound(i2, k, i1, n);
    MulLe(q + 1, k * n, m);
    assert (q + 1) * m == q * m + m && k * n * m == m * k * n;
  }

  /** Scaling the fiber of (i2, i1) is the step from fiber i1 to fiber
      i1 + 1 in the kernel's loop order: the fiber's elements are exactly
      the elements that step brings in. */
  lemma FiberStep(d: seq<real>, s: seq<real>, m: nat, n: nat, k: nat, alpha: real, i2: int, i1: int,
                  factor: real, p: seq<real>, r: seq<real>)
    requires |s| >= k && |d| >= m * k * n
    requires 0 <= i2 < k && 0 <= i1 < n && factor == alpha * s[i2]
    requires p == Progress(d, s, m, n, k, alpha, i2, i1)
    requires r == ScaledRange(p, (i1 * k + i2) * m, m, factor)
    ensures r == Progress(d, s, m, n, k, alpha, i2, i1 + 1)
  {
    var q := Progress(d, s, m, n, k, alpha, i2, i1 + 1);
    forall j | 0 <= j < |r|
      ensures r[j] == q[j]
    {
      FiberStepAt(d, s, m, n, k, alpha, i2, i1, factor, p, r, j);
    }
  }

  /** Element j of the step from fiber i1 to fiber i1 + 1. */
  lemma FiberStepAt(d: seq<real>, s: seq<real>, m: nat, n: nat, k: nat, alpha: real, i2: int, i1: int,
                    factor: real, p: seq<real>, r: seq<real>, j: int)
    requires |s| >= k && |d| >= m * k * n
    requires 0 <= i2 < k && 0 <= i1 < n && factor == alpha * s[i2]
    requires p == Progress(d, s, m, n, k, alpha, i2, i1)
    requires r == ScaledRange(p, (i1 * k + i2) * m, m, factor)
    requires 0 <= j < |r|
    ensures r[j] == Progress(d, s, m, n, k, alpha, i2, i1 + 1)[j]
  {
    FiberInside(m, n, k, i2, i1);
    if j < m * k * n {
      FiberCell(m, n, k, i2, i1, j);
    }
  }

  /** Element j of the block is in the fiber of (i2, i1) exactly when its
      src index is i2 and its third index is i1. */
  lemma FiberCell(m: nat, n: nat, k: nat, i2: int, i1: int, j: int)
    requires 0 <= i2 < k && 0 <= i1 < n && 0 <= j < m * k * n
    ensures m > 0 && k > 0
    ensures (i1 * k + i2) * m <= j < (i1 * k + i2) * m + m <==> j / m % k == i2 && j / m / k == i1
  {
    var fiber := (i1 * k + i2) * m;
    OffsetOfEach(m, n, k, j);
    if fiber <= j < fiber + m {
      DivModUnique(j, m, i1 * k + i2, j - fiber);
      DivModUnique(i1 * k + i2, k, i1, i2);
    }
  }

  /** p with the m elements from offset lo multiplied by x. */
  function ScaledRange(p: seq<real>, lo: int, m: nat, x: real): (r: seq<real>)
    ensures |r| == |p|
  {
    seq(|p|, j requires 0 <= j < |p| => if lo <= j < lo + m then p[j] * x else p[j])
  }

  /** The inner loop: `dst_fiber[i0] *= src_val` for the m elements of the
      fiber starting at offset `fiber`; nothing else changes. */
  method ScaleFiber(dst: array<real>, fiber: nat, m: nat, srcVal: real)
    requires fiber + m <= dst.Length
    modifies dst
    ensures dst[..] == ScaledRange(old(dst[..]), fiber, m, srcVal)
  {
    ghost var d := dst[..];
    var i0 := 0;
    while i0 < m
      invariant 0 <= i0 <= m
      invariant dst[..] == ScaledRange(d, fiber, i0, srcVal)
    {
      assert dst[fiber + i0] == d[fiber + i0];
      dst[fiber + i0] := dst[fiber + i0] * srcVal;
      i0 := i0 + 1;
      assert forall j :: 0 <= j < dst.Length ==> dst[..][j] == ScaledRange(d, fiber, i0, srcVal)[j];
    }
  }
}
