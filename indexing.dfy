/** Multi-index arithmetic shared by tiles, tensors and kernels.
    NNTile stores every array in Fortran order: the first index varies fastest.
    The linear index of a multi-index is written in Horner form,
    s[0] + u[0] * (s[1] + u[1] * (s[2] + ...)), exactly as the randn kernel
    accumulates it. */
module Indexing {

  /** Number of elements of an array of the given shape. */
  function Prod(s: seq<int>): int
  {
    if |s| == 0 then 1 else s[0] * Prod(s[1..])
  }

  /** Every extent is at least one. */
  predicate Positive(s: seq<int>)
  {
    forall i :: 0 <= i < |s| ==> s[i] > 0
  }

  /** The multi-index lies inside an array of the given shape. */
  predicate InShape(idx: seq<int>, shape: seq<int>)
  {
    |idx| == |shape| && forall i :: 0 <= i < |idx| ==> 0 <= idx[i] < shape[i]
  }

  /** Fortran-order linear index of s in an array whose extents start with u. */
  function Horner(s: seq<int>, u: seq<int>): int
    requires |s| <= |u|
  {
    if |s| == 0 then 0 else s[0] + u[0] * Horner(s[1..], u[1..])
  }

  /** Memory offset of a multi-index under the given strides. */
  function Dot(v: seq<int>, w: seq<int>): int
    requires |v| <= |w|
  {
    if |v| == 0 then 0 else v[0] * w[0] + Dot(v[1..], w[1..])
  }

  /** Element-wise sum of two multi-indices. */
  function VAdd(a: seq<int>, b: seq<int>): (r: seq<int>)
    requires |a| == |b|
    ensures |r| == |a|
    ensures forall i :: 0 <= i < |a| ==> r[i] == a[i] + b[i]
  {
    seq(|a|, i requires 0 <= i < |a| => a[i] + b[i])
  }

  /** The multi-index whose Fortran-order linear index is j. */
  function Unlinear(j: int, sh: seq<int>): (idx: seq<int>)
    requires Positive(sh)
    ensures |idx| == |sh|
    decreases |sh|
  {
    if |sh| == 0 then [] else [j % sh[0]] + Unlinear(j / sh[0], sh[1..])
  }

  /** The multi-index of zeros of the given length. */
  function Zeros(n: nat): (z: seq<int>)
    ensures |z| == n && forall i :: 0 <= i < n ==> z[i] == 0
  {
    seq(n, i => 0)
  }

  lemma ProdPositive(s: seq<int>)
    requires Positive(s)
    ensures Prod(s) > 0
  {
    if |s| > 0 {
      ProdPositive(s[1..]);
      assert s[0] * Prod(s[1..]) > 0;
    }
  }

  lemma ProdNonNegative(s: seq<int>)
    requires forall i :: 0 <= i < |s| ==> s[i] >= 0
    ensures Prod(s) >= 0
  {
    if |s| > 0 {
      ProdNonNegative(s[1..]);
      assert s[0] * Prod(s[1..]) >= 0;
    }
  }

  /** The product of a prefix grows by one factor per extra entry. */
  lemma {:induction false} ProdPrefixSucc(u: seq<int>, d: nat)
    requires d < |u|
    ensures Prod(u[..d + 1]) == Prod(u[..d]) * u[d]
  {
    if d == 0 {
      assert u[..1][1..] == [];
    } else {
      assert u[..d + 1][1..] == u[1..][..d];
      assert u[..d][1..] == u[1..][..d - 1];
      ProdPrefixSucc(u[1..], d - 1);
      assert Prod(u[1..][..d]) == Prod(u[1..][..d - 1]) * u[d];
      calc {
        Prod(u[..d + 1]);
        u[0] * Prod(u[1..][..d]);
        u[0] * (Prod(u[1..][..d - 1]) * u[d]);
        (u[0] * Prod(u[1..][..d - 1])) * u[d];
        Prod(u[..d]) * u[d];
      }
    }
  }

  lemma {:induction false} ProdAppend(a: seq<int>, b: seq<int>)
    ensures Prod(a + b) == Prod(a) * Prod(b)
  {
    if |a| > 0 {
      assert (a + b)[1..] == a[1..] + b;
      ProdAppend(a[1..], b);
      assert Prod(a + b) == a[0] * (Prod(a[1..]) * Prod(b));
    } else {
      assert a + b == b;
    }
  }

  /** Changing one coordinate by x moves the linear index by x times the
      product of the extents before that coordinate. */
  lemma {:induction false} HornerAddAt(s: seq<int>, u: seq<int>, d: nat, x: int)
    requires d < |s| <= |u|
    ensures Horner(s[d := s[d] + x], u) == Horner(s, u) + x * Prod(u[..d])
  {
    var s' := s[d := s[d] + x];
    if d == 0 {
      assert s'[1..] == s[1..];
      assert Prod(u[..0]) == 1;
    } else {
      assert s'[1..] == s[1..][d - 1 := s[1..][d - 1] + x];
      HornerAddAt(s[1..], u[1..], d - 1, x);
      assert u[..d][1..] == u[1..][..d - 1];
      var h := Horner(s[1..], u[1..]);
      var p := Prod(u[1..][..d - 1]);
      Distribute(u[0], h, x, p);
      assert Prod(u[..d]) == u[0] * p;
    }
  }

  /** Changing one coordinate by x moves the offset by x times its stride. */
  lemma {:induction false} DotAddAt(v: seq<int>, w: seq<int>, d: nat, x: int)
    requires d < |v| <= |w|
    ensures Dot(v[d := v[d] + x], w) == Dot(v, w) + x * w[d]
  {
    var v' := v[d := v[d] + x];
    if d == 0 {
      assert v'[1..] == v[1..];
      assert v'[0] * w[0] == v[0] * w[0] + x * w[0];
    } else {
      assert v'[1..] == v[1..][d - 1 := v[1..][d - 1] + x];
      DotAddAt(v[1..], w[1..], d - 1, x);
    }
  }

  lemma {:induction false} DotZeros(n: nat, w: seq<int>)
    requires n <= |w|
    ensures Dot(Zeros(n), w) == 0
  {
    if n > 0 {
      assert Zeros(n)[1..] == Zeros(n - 1);
      DotZeros(n - 1, w[1..]);
    }
  }

  lemma {:induction false} UnlinearZero(sh: seq<int>)
    requires Positive(sh)
    ensures Unlinear(0, sh) == Zeros(|sh|)
  {
    if |sh| > 0 {
      UnlinearZero(sh[1..]);
      assert Unlinear(0, sh) == [0] + Zeros(|sh| - 1);
    }
  }

  /** Multiplication of integers is commutative. */
  lemma MulComm(a: int, b: int)
    ensures a * b == b * a
  {
  }

  /** a * (b + x * p) == a * b + x * (a * p). */
  lemma Distribute(a: int, b: int, x: int, p: int)
    ensures a * (b + x * p) == a * b + x * (a * p)
  {
    assert a * (b + x * p) == a * b + a * (x * p);
    assert a * (x * p) == x * (a * p);
  }

  lemma MulLe(x: int, y: int, b: int)
    requires x <= y && b >= 0
    ensures x * b <= y * b
  {
  }

  /** Division by a positive number has a unique quotient and remainder. */
  lemma DivModUnique(a: int, b: int, q: int, r: int)
    requires b > 0 && 0 <= r < b && a == q * b + r
    ensures a / b == q && a % b == r
  {
    var q0, r0 := a / b, a % b;
    assert a == q0 * b + r0 && 0 <= r0 < b;
    if q0 > q {
      assert (q + 1) * b == q * b + b;
      MulLe(q + 1, q0, b);
    } else if q0 < q {
      assert (q0 + 1) * b == q0 * b + b;
      MulLe(q0 + 1, q, b);
    }
  }

  /** The quotient of a value in [0, b * p) by b lies in [0, p). */
  lemma DivBounds(a: int, b: int, p: int)
    requires b > 0 && 0 <= a < b * p
    ensures 0 <= a / b < p
    ensures a == a / b * b + a % b && 0 <= a % b < b
  {
    var q, r := a / b, a % b;
    assert a == q * b + r && 0 <= r < b;
    if q < 0 {
      MulLe(q, -1, b);
    }
    if q >= p {
      MulLe(p, q, b);
    }
  }

  /** A digit below the base plus the base times a number below p lies below
      base times p. */
  lemma MixedRadixBound(r: int, b: int, q: int, p: int)
    requires 0 <= r < b && 0 <= q < p
    ensures 0 <= r + b * q < b * p
  {
    MulLe(q, p - 1, b);
    assert (p - 1) * b == p * b - b;
  }

  /** Unlinear maps [0, Prod(sh)) into the shape, and Horner undoes it. */
  lemma {:induction false} HornerUnlinear(j: int, sh: seq<int>)
    requires Positive(sh) && 0 <= j < Prod(sh)
    ensures InShape(Unlinear(j, sh), sh)
    ensures Horner(Unlinear(j, sh), sh) == j
    decreases |sh|
  {
    if |sh| > 0 {
      var s0, t := sh[0], sh[1..];
      DivBounds(j, s0, Prod(t));
      var q, r := j / s0, j % s0;
      HornerUnlinear(q, t);
      var idx, rest := Unlinear(j, sh), Unlinear(q, t);
      assert idx == [r] + rest;
      assert idx[1..] == rest;
      forall i | 0 <= i < |idx|
        ensures 0 <= idx[i] < sh[i]
      {
        if i > 0 {
          assert idx[i] == rest[i - 1];
        }
      }
      calc {
        Horner(idx, sh);
        r + s0 * Horner(rest, t);
        r + s0 * q;
        j;
      }
    }
  }

  /** Horner maps the shape into [0, Prod(sh)), and Unlinear undoes it. */
  lemma {:induction false} UnlinearHorner(c: seq<int>, sh: seq<int>)
    requires Positive(sh) && InShape(c, sh)
    ensures 0 <= Horner(c, sh) < Prod(sh)
    ensures Unlinear(Horner(c, sh), sh) == c
  {
    if |sh| > 0 {
      var s0, t := sh[0], sh[1..];
      assert InShape(c[1..], t);
      UnlinearHorner(c[1..], t);
      var h' := Horner(c[1..], t);
      var h := c[0] + s0 * h';
      assert Horner(c, sh) == h;
      assert Prod(sh) == s0 * Prod(t);
      MixedRadixBound(c[0], s0, h', Prod(t));
      MulComm(s0, h');
      UnlinearCons(h, sh, h', c[0]);
      assert c == [c[0]] + c[1..];
    }
  }

  lemma UnlinearInjective(j1: int, j2: int, sh: seq<int>)
    requires Positive(sh) && 0 <= j1 < Prod(sh) && 0 <= j2 < Prod(sh)
    requires Unlinear(j1, sh) == Unlinear(j2, sh)
    ensures j1 == j2
  {
    HornerUnlinear(j1, sh);
    HornerUnlinear(j2, sh);
  }

  /** The multi-index with every coordinate at its maximum is the last one. */
  lemma {:induction false} HornerMax(c: seq<int>, sh: seq<int>)
    requires |c| == |sh|
    requires forall d :: 0 <= d < |sh| ==> c[d] == sh[d] - 1
    ensures Horner(c, sh) == Prod(sh) - 1
  {
    if |sh| > 0 {
      HornerMax(c[1..], sh[1..]);
    }
  }

  /** Unlinear peels the first coordinate off by division. */
  lemma UnlinearCons(j: int, sh: seq<int>, q: int, r: int)
    requires Positive(sh) && |sh| > 0 && 0 <= r < sh[0] && j == q * sh[0] + r
    ensures Unlinear(j, sh) == [r] + Unlinear(q, sh[1..])
  {
    DivModUnique(j, sh[0], q, r);
  }

  /** One step of the odometer: if coordinates 0..m-1 of index j-1 are at
      their maximum and coordinate m is not, then index j resets 0..m-1,
      increments m and keeps the rest. */
  lemma {:induction false} CarryStep(j: int, sh: seq<int>, m: nat)
    requires Positive(sh) && 1 <= j < Prod(sh) && m < |sh|
    requires forall d :: 0 <= d < m ==> Unlinear(j - 1, sh)[d] == sh[d] - 1
    requires Unlinear(j - 1, sh)[m] + 1 < sh[m]
    ensures forall d :: 0 <= d < m ==> Unlinear(j, sh)[d] == 0
    ensures Unlinear(j, sh)[m] == Unlinear(j - 1, sh)[m] + 1
    ensures forall d :: m < d < |sh| ==> Unlinear(j, sh)[d] == Unlinear(j - 1, sh)[d]
    decreases |sh|
  {
    var s0, t := sh[0], sh[1..];
    DivBounds(j - 1, s0, Prod(t));
    var q, r := (j - 1) / s0, (j - 1) % s0;
    UnlinearCons(j - 1, sh, q, r);
    if m == 0 {
      UnlinearCons(j, sh, q, r + 1);
    } else {
      assert r == s0 - 1;
      assert j == (q + 1) * s0 + 0;
      UnlinearCons(j, sh, q + 1, 0);
      DivModUnique(j, s0, q + 1, 0);
      DivBounds(j, s0, Prod(t));
      CarryStep(q + 1, t, m - 1);
    }
  }

  /** While j-1 is not the last index, the odometer never carries past the
      last coordinate. */
  lemma CarryStaysInside(j: int, sh: seq<int>, m: nat)
    requires Positive(sh) && 1 <= j < Prod(sh) && m < |sh|
    requires forall d :: 0 <= d <= m ==> Unlinear(j - 1, sh)[d] == sh[d] - 1
    ensures m + 1 < |sh|
  {
    if m + 1 == |sh| {
      HornerMax(Unlinear(j - 1, sh), sh);
      HornerUnlinear(j - 1, sh);
    }
  }
}
