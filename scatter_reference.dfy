/** The reference that the scatter test
    (wrappers/python/tests/nntile_core/test_tensor_scatter.py) compares each
    destination tile with: along every axis j, tile `idx` covers the
    half-open range [idx[j] * basetile[j], min(idx[j] * basetile[j] + basetile[j], shape[j])).
    The test cuts that block out of the single-tile source by slicing one
    axis at a time and merging it into a leading axis, then reshapes the
    result to the tile's shape; numpy's reshape uses C order (last index
    fastest), which is what `CLinear` and `CUnlinear` below spell out. */
module ScatterReference {
  import opened Wrappers
  import opened Indexing
  import opened TensorTraits

  /** `ind0` for axis j: where the tile starts. */
  function Low(basetile: seq<int>, idx: seq<int>, j: int): int
    requires |idx| == |basetile| && 0 <= j < |idx|
  {
    idx[j] * basetile[j]
  }

  /** `ind1` for axis j: one past where the tile ends, cut back to the
      tensor's extent. */
  function High(shape: seq<int>, basetile: seq<int>, idx: seq<int>, j: int): int
    requires |shape| == |idx| == |basetile| && 0 <= j < |idx|
  {
    var ind1 := Low(basetile, idx, j) + basetile[j];
    if ind1 > shape[j] then shape[j] else ind1
  }

  /** The start of the tile on every axis. */
  function Lows(basetile: seq<int>, idx: seq<int>): (r: seq<int>)
    requires |idx| == |basetile|
    ensures |r| == |idx| && forall j :: 0 <= j < |idx| ==> r[j] == Low(basetile, idx, j)
  {
    seq(|idx|, j requires 0 <= j < |idx| => Low(basetile, idx, j))
  }

  /** The extent of the tile on every axis: the length of its range. */
  function Extents(shape: seq<int>, basetile: seq<int>, idx: seq<int>): (r: seq<int>)
    requires |shape| == |idx| == |basetile|
    ensures |r| == |idx|
    ensures forall j :: 0 <= j < |idx| ==> r[j] == High(shape, basetile, idx, j) - Low(basetile, idx, j)
  {
    seq(|idx|, j requires 0 <= j < |idx| => High(shape, basetile, idx, j) - Low(basetile, idx, j))
  }

  /** Shapes and base tiles of the same rank with no empty axis. */
  predicate Traits(shape: seq<int>, basetile: seq<int>)
  {
    |shape| == |basetile| && Positive(shape) && Positive(basetile)
  }

  /** Every tile of the grid covers a non-empty range inside the tensor on
      every axis, and its extents are the tile shape of the tensor traits. */
  lemma RangeInside(shape: seq<int>, basetile: seq<int>, idx: seq<int>)
    requires Traits(shape, basetile) && InShape(idx, GridShape(shape, basetile))
    ensures forall j :: 0 <= j < |idx| ==>
      0 <= Low(basetile, idx, j) < High(shape, basetile, idx, j) <= shape[j]
    ensures Extents(shape, basetile, idx) == TileShape(shape, basetile, idx)
    ensures Positive(Extents(shape, basetile, idx))
  {
    var g := GridShape(shape, basetile);
    forall j | 0 <= j < |idx|
      ensures 0 <= Low(basetile, idx, j) < High(shape, basetile, idx, j) <= shape[j]
    {
      GridExtentCovers(shape[j], basetile[j]);
      MulLe(idx[j], g[j] - 1, basetile[j]);
      MulLe(0, idx[j], basetile[j]);
    }
  }

  /** The grid index of the tile that holds element x. */
  function TileOf(basetile: seq<int>, x: seq<int>): (t: seq<int>)
    requires |x| == |basetile| && Positive(basetile)
    ensures |t| == |x|
  {
    seq(|x|, j requires 0 <= j < |x| => x[j] / basetile[j])
  }

  /** Every element of the tensor lies in the range of the tile TileOf
      names, and that tile is in the grid. */
  lemma TileOfCovers(shape: seq<int>, basetile: seq<int>, x: seq<int>)
    requires Traits(shape, basetile) && InShape(x, shape)
    ensures InShape(TileOf(basetile, x), GridShape(shape, basetile))
    ensures forall j :: 0 <= j < |x| ==>
      Low(basetile, TileOf(basetile, x), j) <= x[j] < High(shape, basetile, TileOf(basetile, x), j)
  {
    var t, g := TileOf(basetile, x), GridShape(shape, basetile);
    forall j | 0 <= j < |x|
      ensures 0 <= t[j] < g[j]
      ensures Low(basetile, t, j) <= x[j] < High(shape, basetile, t, j)
    {
      AxisCovers(shape[j], basetile[j], x[j]);
    }
  }

  /** On one axis of extent n in tiles of extent b, element v lies in tile
      v / b of the grid, inside that tile's clipped range. */
  lemma AxisCovers(n: int, b: int, v: int)
    requires n > 0 && b > 0 && 0 <= v < n
    ensures 0 <= v / b < GridExtent(n, b)
    ensures v / b * b <= v < v / b * b + b && v < n
  {
    var q := v / b;
    DivBounds(v, b, v + 1);
    GridExtentCovers(n, b);
    if q >= GridExtent(n, b) {
      MulLe(GridExtent(n, b), q, b);
    }
  }

  /** No element lies in the ranges of two tiles: the tiles partition the
      tensor. */
  lemma TileOfUnique(shape: seq<int>, basetile: seq<int>, x: seq<int>, idx: seq<int>)
    requires Traits(shape, basetile) && InShape(x, shape) && |idx| == |shape|
    requires forall j :: 0 <= j < |x| ==>
      Low(basetile, idx, j) <= x[j] < High(shape, basetile, idx, j)
    ensures idx == TileOf(basetile, x)
  {
    forall j | 0 <= j < |x|
      ensures idx[j] == TileOf(basetile, x)[j]
    {
      DivModUnique(x[j], basetile[j], idx[j], x[j] - idx[j] * basetile[j]);
    }
  }

  /** A numpy array: its shape and its element at each multi-index. */
  datatype NdArray = NdArray(shape: seq<int>, at: seq<int> -> real)

  /** C-order linear index of x in shape e: the last index varies fastest. */
  function CLinear(x: seq<int>, e: seq<int>): int
    requires |x| == |e|
  {
    if |e| == 0 then 0 else CLinear(x[..|x| - 1], e[..|e| - 1]) * e[|e| - 1] + x[|x| - 1]
  }

  /** The multi-index in shape e whose C-order linear index is q. */
  function CUnlinear(q: int, e: seq<int>): (x: seq<int>)
    requires Positive(e)
    ensures |x| == |e|
    decreases |e|
  {
    if |e| == 0 then [] else CUnlinear(q / e[|e| - 1], e[..|e| - 1]) + [q % e[|e| - 1]]
  }

  /** CLinear maps the shape onto [0, Prod(e)) and CUnlinear undoes it. */
  lemma {:induction false} CUnlinearLinear(x: seq<int>, e: seq<int>)
    requires Positive(e) && InShape(x, e)
    ensures 0 <= CLinear(x, e) < Prod(e)
    ensures CUnlinear(CLinear(x, e), e) == x
  {
    if |e| > 0 {
      var n := |e| - 1;
      var x', e' := x[..n], e[..n];
      assert InShape(x', e');
      CUnlinearLinear(x', e');
      var h := CLinear(x', e');
      ProdPrefixSucc(e, n);
      assert e[..n + 1] == e;
      MixedRadixBound(x[n], e[n], h, Prod(e'));
      assert h * e[n] == e[n] * h && e[n] * Prod(e') == Prod(e);
      DivModUnique(CLinear(x, e), e[n], h, x[n]);
      assert x == x' + [x[n]];
    }
  }

  /** `np_A.reshape([1] + A_shape)`: a leading axis of extent one. */
  function Lift(a: NdArray): (c: NdArray)
    ensures c.shape == [1] + a.shape
  {
    NdArray([1] + a.shape, x => if |x| >= 1 then a.at(x[1..]) else a.at(x))
  }

  /** `np_C[:, ind0:ind1, ...]`. */
  function SliceAxis1(c: NdArray, lo: int, hi: int): (r: NdArray)
    requires |c.shape| >= 2 && 0 <= lo <= hi <= c.shape[1]
    ensures r.shape == [c.shape[0], hi - lo] + c.shape[2..]
  {
    NdArray([c.shape[0], hi - lo] + c.shape[2..], x => if |x| >= 2 then c.at(x[1 := x[1] + lo]) else c.at(x))
  }

  /** `np_C.reshape([shape[0] * shape[1]] + shape[2:])`, in C order. */
  function MergeFirst(c: NdArray): (r: NdArray)
    requires |c.shape| >= 2 && c.shape[1] > 0
    ensures r.shape == [c.shape[0] * c.shape[1]] + c.shape[2..]
  {
    var s1 := c.shape[1];
    NdArray([c.shape[0] * s1] + c.shape[2..], x => if |x| >= 1 then c.at([x[0] / s1, x[0] % s1] + x[1..]) else c.at(x))
  }

  /** `np_C.reshape(shape)` of a one-axis array, in C order; numpy refuses
      a shape with another number of elements. */
  function Reshape(c: NdArray, shape: seq<int>): (r: Option<NdArray>)
    requires |c.shape| == 1
    ensures r.Some? <==> Prod(shape) == c.shape[0]
    ensures r.Some? ==> r.value.shape == shape
  {
    if Prod(shape) != c.shape[0] then None
    else Some(NdArray(shape, x => if |x| == |shape| then c.at([CLinear(x, shape)]) else c.at(x)))
  }

  /** Element [q] + r of the array once the first j axes have been cut to
      the tile and merged into the leading axis: the leading index q runs
      over the cut axes in C order, r over the untouched axes. */
  ghost predicate CutAt(c: NdArray, a: NdArray, e: seq<int>, lows: seq<int>, j: int, q: int, r: seq<int>)
    requires Positive(e) && |lows| == |e| && 0 <= j <= |e|
  {
    c.at([q] + r) == a.at(VAdd(lows[..j], CUnlinear(q, e[..j])) + r)
  }

  /** The whole array once the first j axes have been cut and merged. */
  ghost predicate Cut(c: NdArray, a: NdArray, e: seq<int>, lows: seq<int>, j: int)
    requires Positive(e) && |lows| == |e| == |a.shape| && 0 <= j <= |e|
  {
    c.shape == [Prod(e[..j])] + a.shape[j..]
    && forall q, r :: 0 <= q < Prod(e[..j]) && InShape(r, a.shape[j..]) ==> CutAt(c, a, e, lows, j, q, r)
  }

  lemma CutInstance(c: NdArray, a: NdArray, e: seq<int>, lows: seq<int>, j: int, q: int, r: seq<int>)
    requires Positive(e) && |lows| == |e| == |a.shape| && 0 <= j <= |e|
    requires Cut(c, a, e, lows, j) && 0 <= q < Prod(e[..j]) && InShape(r, a.shape[j..])
    ensures CutAt(c, a, e, lows, j, q, r)
  {
  }

  /** Before the loop, `np_A.reshape([1] + A_shape)` has no axis cut yet. */
  lemma CutStart(a: NdArray, e: seq<int>, lows: seq<int>)
    requires Positive(e) && |lows| == |e| == |a.shape|
    ensures Cut(Lift(a), a, e, lows, 0)
  {
    forall q, r | 0 <= q < Prod(e[..0]) && InShape(r, a.shape[0..])
      ensures CutAt(Lift(a), a, e, lows, 0, q, r)
    {
      assert ([q] + r)[1..] == r;
      assert VAdd(lows[..0], CUnlinear(q, e[..0])) + r == r;
    }
    assert a.shape[0..] == a.shape;
  }

  /** One pass of the test's loop keeps Cut one axis further on. */
  lemma CutStep(c: NdArray, a: NdArray, e: seq<int>, lows: seq<int>, j: int)
    requires Positive(e) && |lows| == |e| == |a.shape| && 0 <= j < |e|
    requires 0 <= lows[j] && lows[j] + e[j] <= a.shape[j]
    requires Cut(c, a, e, lows, j)
    ensures |c.shape| >= 2 && lows[j] + e[j] <= c.shape[1]
    ensures Cut(MergeFirst(SliceAxis1(c, lows[j], lows[j] + e[j])), a, e, lows, j + 1)
  {
    assert a.shape[j..] == [a.shape[j]] + a.shape[j + 1..];
    var c' := MergeFirst(SliceAxis1(c, lows[j], lows[j] + e[j]));
    var k := j + 1;
    ProdPrefixSucc(e, j);
    assert c'.shape == [Prod(e[..k])] + a.shape[k..];
    forall q, r | 0 <= q < Prod(e[..k]) && InShape(r, a.shape[k..])
      ensures CutAt(c', a, e, lows, k, q, r)
    {
      var q0, q1 := SplitIndex(q, e, j);
      ShapeCons(q1 + lows[j], r, a.shape[j..]);
      CutInstance(c, a, e, lows, j, q0, [q1 + lows[j]] + r);
      CutStepElem(c, a, e, lows, j, q, q0, q1, r);
    }
  }

  /** CutStep for element [q] + r of the new array, from the element of the
      old array it is cut from. */
  lemma CutStepElem(c: NdArray, a: NdArray, e: seq<int>, lows: seq<int>, j: int, q: int, q0: int, q1: int, r: seq<int>)
    requires Positive(e) && |lows| == |e| && 0 <= j < |e|
    requires |c.shape| >= 2 && 0 <= lows[j] && lows[j] + e[j] <= c.shape[1]
    requires q0 == q / e[j] && q1 == q % e[j]
    requires CUnlinear(q, e[..j + 1]) == CUnlinear(q0, e[..j]) + [q1]
    requires CutAt(c, a, e, lows, j, q0, [q1 + lows[j]] + r)
    ensures CutAt(MergeFirst(SliceAxis1(c, lows[j], lows[j] + e[j])), a, e, lows, j + 1, q, r)
  {
    assert lows[..j + 1] == lows[..j] + [lows[j]];
    CutStepAt(c, a, lows[..j], CUnlinear(q0, e[..j]), lows[j], e[j], q, q0, q1, r);
  }

  /** CutStep for one element of the new array, given the element of the
      old one it comes from: `ls` are the starts of the axes cut before,
      u the position inside them, lo and ej the start and extent on the
      axis being cut. */
  lemma CutStepAt(c: NdArray, a: NdArray, ls: seq<int>, u: seq<int>, lo: int, ej: int, q: int, q0: int, q1: int, r: seq<int>)
    requires |c.shape| >= 2 && 0 <= lo && 0 < ej && lo + ej <= c.shape[1] && |ls| == |u|
    requires q0 == q / ej && q1 == q % ej
    requires c.at([q0] + ([q1 + lo] + r)) == a.at(VAdd(ls, u) + ([q1 + lo] + r))
    ensures MergeFirst(SliceAxis1(c, lo, lo + ej)).at([q] + r) == a.at(VAdd(ls + [lo], u + [q1]) + r)
  {
    MergeFirstAt(SliceAxis1(c, lo, lo + ej), q, r);
    SliceAxis1At(c, lo, lo + ej, q0, q1, r);
    VAddSnoc(ls, u, lo, q1, r);
  }

  /** The leading index q of the merged axis splits into the index q / ej
      of the axes merged before and the index q % ej on axis j. */
  lemma SplitIndex(q: int, e: seq<int>, j: int) returns (q0: int, q1: int)
    requires Positive(e) && 0 <= j < |e| && 0 <= q < Prod(e[..j + 1])
    ensures q0 == q / e[j] && q1 == q % e[j]
    ensures 0 <= q0 < Prod(e[..j]) && 0 <= q1 < e[j]
    ensures CUnlinear(q, e[..j + 1]) == CUnlinear(q0, e[..j]) + [q1]
  {
    ProdPrefixSucc(e, j);
    assert Prod(e[..j + 1]) == e[j] * Prod(e[..j]);
    DivBounds(q, e[j], Prod(e[..j]));
    q0, q1 := q / e[j], q % e[j];
    assert e[..j + 1][..j] == e[..j];
  }

  lemma MergeFirstAt(c: NdArray, q: int, r: seq<int>)
    requires |c.shape| >= 2 && c.shape[1] > 0
    ensures MergeFirst(c).at([q] + r) == c.at([q / c.shape[1], q % c.shape[1]] + r)
  {
    assert ([q] + r)[1..] == r && ([q] + r)[0] == q;
  }

  lemma SliceAxis1At(c: NdArray, lo: int, hi: int, q0: int, q1: int, r: seq<int>)
    requires |c.shape| >= 2 && 0 <= lo <= hi <= c.shape[1]
    ensures SliceAxis1(c, lo, hi).at([q0, q1] + r) == c.at([q0] + ([q1 + lo] + r))
  {
    var x := [q0, q1] + r;
    assert x[1 := q1 + lo] == [q0] + ([q1 + lo] + r);
  }

  /** An index inside the first extent followed by one inside the rest is
      inside the whole shape. */
  lemma ShapeCons(v: int, r: seq<int>, shape: seq<int>)
    requires |shape| >= 1 && 0 <= v < shape[0] && InShape(r, shape[1..])
    ensures InShape([v] + r, shape)
  {
    var x := [v] + r;
    forall i | 0 <= i < |x|
      ensures 0 <= x[i] < shape[i]
    {
      if i > 0 {
        assert x[i] == r[i - 1] && shape[i] == shape[1..][i - 1];
      }
    }
  }

  lemma VAddSnoc(lows: seq<int>, u: seq<int>, lo: int, q1: int, r: seq<int>)
    requires |lows| == |u|
    ensures VAdd(lows + [lo], u + [q1]) + r == VAdd(lows, u) + ([q1 + lo] + r)
  {
    assert VAdd(lows + [lo], u + [q1]) == VAdd(lows, u) + [lo + q1];
  }

  /** Once every axis is cut, the final reshape to the tile's extents puts
      the element at offset x of the block at index x. */
  lemma CutEnd(c: NdArray, a: NdArray, e: seq<int>, lows: seq<int>)
    requires Positive(e) && |lows| == |e| == |a.shape|
    requires Cut(c, a, e, lows, |e|)
    ensures |c.shape| == 1 && Reshape(c, e).Some?
    ensures forall x :: InShape(x, e) ==> Reshape(c, e).value.at(x) == a.at(VAdd(lows, x))
  {
    assert e[..|e|] == e && lows[..|e|] == lows && a.shape[|e|..] == [];
    forall x | InShape(x, e)
      ensures Reshape(c, e).value.at(x) == a.at(VAdd(lows, x))
    {
      CUnlinearLinear(x, e);
      assert InShape([], a.shape[|e|..]);
      assert CutAt(c, a, e, lows, |e|, CLinear(x, e), []);
      assert [CLinear(x, e)] + [] == [CLinear(x, e)];
      assert VAdd(lows, x) + [] == VAdd(lows, x);
    }
  }

  /** The whole of `helper`'s computation of `np_C` for the tile at grid
      index idx of a tensor with the given shape and base tile: the
      slicing loop over the axes, then the reshape to the tile's shape. */
  method ReferenceTile(a: NdArray, basetile: seq<int>, idx: seq<int>) returns (r: Option<NdArray>)
    requires Traits(a.shape, basetile) && InShape(idx, GridShape(a.shape, basetile))
    ensures r.Some?
    ensures r.value.shape == TileShape(a.shape, basetile, idx)
    ensures forall x :: InShape(x, r.value.shape) ==> r.value.at(x) == a.at(VAdd(Lows(basetile, idx), x))
  {
    ghost var e := Extents(a.shape, basetile, idx);
    ghost var lows := Lows(basetile, idx);
    RangeInside(a.shape, basetile, idx);
    var ndim := |a.shape|;
    var c := Lift(a);
    CutStart(a, e, lows);
    var j := 0;
    while j < ndim
      invariant 0 <= j <= ndim
      invariant Cut(c, a, e, lows, j)
    {
      var ind0 := Low(basetile, idx, j);
      var ind1 := High(a.shape, basetile, idx, j);
      assert ind0 == lows[j] && ind1 == lows[j] + e[j];
      CutStep(c, a, e, lows, j);
      c := MergeFirst(SliceAxis1(c, ind0, ind1));
      j := j + 1;
    }
    CutEnd(c, a, e, lows);
    r := Reshape(c, TileShape(a.shape, basetile, idx));
  }

  /** What the test accepts for one destination tile: the tile's shape and
      every element of the reference block. */
  ghost predicate TileMatches(tile: NdArray, a: NdArray, basetile: seq<int>, idx: seq<int>)
    requires Traits(a.shape, basetile) && |idx| == |a.shape|
  {
    tile.shape == TileShape(a.shape, basetile, idx)
    && forall x :: InShape(x, tile.shape) ==> tile.at(x) == a.at(VAdd(Lows(basetile, idx), x))
  }

  /** If every one of the grid's tiles passes the test, every element of
      the source is found in exactly one destination tile, at its offset
      inside that tile's range: scatter lost and duplicated nothing. */
  lemma PassedTestCoversSource(a: NdArray, basetile: seq<int>, tiles: seq<NdArray>, x: seq<int>)
    requires Traits(a.shape, basetile) && InShape(x, a.shape)
    requires |tiles| == Prod(GridShape(a.shape, basetile))
    requires forall i :: 0 <= i < |tiles| ==>
      TileMatches(tiles[i], a, basetile, Unlinear(i, GridShape(a.shape, basetile)))
    ensures 0 <= Horner(TileOf(basetile, x), GridShape(a.shape, basetile)) < |tiles|
    ensures InShape(VSub(x, Lows(basetile, TileOf(basetile, x))), tiles[Horner(TileOf(basetile, x), GridShape(a.shape, basetile))].shape)
    ensures tiles[Horner(TileOf(basetile, x), GridShape(a.shape, basetile))].at(VSub(x, Lows(basetile, TileOf(basetile, x)))) == a.at(x)
  {
    var g := GridShape(a.shape, basetile);
    var t := TileOf(basetile, x);
    TileOfCovers(a.shape, basetile, x);
    UnlinearHorner(t, g);
    var i := Horner(t, g);
    assert TileMatches(tiles[i], a, basetile, t);
    OffsetInTile(a.shape, basetile, t, x);
  }

  /** An element inside the ranges of tile t sits at offset x - Lows(t)
      inside the tile's shape. */
  lemma OffsetInTile(shape: seq<int>, basetile: seq<int>, t: seq<int>, x: seq<int>)
    requires Traits(shape, basetile) && InShape(x, shape) && InShape(t, GridShape(shape, basetile))
    requires forall j :: 0 <= j < |x| ==> Low(basetile, t, j) <= x[j] < High(shape, basetile, t, j)
    ensures InShape(VSub(x, Lows(basetile, t)), TileShape(shape, basetile, t))
    ensures VAdd(Lows(basetile, t), VSub(x, Lows(basetile, t))) == x
  {
    RangeInside(shape, basetile, t);
  }

  /** Element-wise difference of two multi-indices. */
  function VSub(a: seq<int>, b: seq<int>): (r: seq<int>)
    requires |a| == |b|
    ensures |r| == |a| && forall i :: 0 <= i < |a| ==> r[i] == a[i] - b[i]
  {
    seq(|a|, i requires 0 <= i < |a| => a[i] - b[i])
  }

  /** The test's own case: a 2 x 3 x 4 tensor in 2 x 2 x 2 tiles has a
      1 x 2 x 2 grid of 4 tiles, and the last tile along axis 1 has
      extent one. */
  lemma TestScenario()
    ensures GridShape([2, 3, 4], [2, 2, 2]) == [1, 2, 2]
    ensures Prod(GridShape([2, 3, 4], [2, 2, 2])) == 4
    ensures Extents([2, 3, 4], [2, 2, 2], [0, 1, 0]) == [2, 1, 2]
    ensures TileShape([2, 3, 4], [2, 2, 2], [0, 1, 1]) == [2, 1, 2]
  {
    assert GridShape([2, 3, 4], [2, 2, 2]) == [1, 2, 2];
  }
}
