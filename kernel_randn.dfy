/** The CPU kernel of randn (src/kernel/randn/cpu.cc).
    The kernel fills a strided sub-array `shape` of a larger underlying array
    as if the whole underlying array had been generated from one random stream
    in Fortran order and then the block starting at `start` had been copied out.
    The Gaussian draw itself is not modelled: the generator is a position in
    the stream, counted in elements; jumping advances it, and each generated
    element takes the current position and advances it by one. Each cell of
    `data` receives the stream position its value was drawn at. */
module KernelRandn {
  import opened Indexing

  /** The array arguments of one kernel call, as ghost context for proofs. */
  datatype Layout = Layout(start: seq<int>, shape: seq<int>, underlying: seq<int>, stride: seq<int>)
  {
    /** Every array argument holds ndim >= 1 entries and the shape is not empty. */
    predicate Dims()
    {
      |shape| >= 1 && |start| == |shape| && |underlying| == |shape| && |stride| == |shape|
      && Positive(shape)
    }

    /** Number of columns: product of all extents but the first. */
    function Cols(): int
      requires Dims()
    {
      Prod(shape[1..])
    }

    /** The trailing coordinates of column j. */
    function Col(j: int): seq<int>
      requires Dims()
    {
      Unlinear(j, shape[1..])
    }

    /** The multi-index of row i of column j. */
    function Cell(i: int, j: int): seq<int>
      requires Dims()
    {
      [i] + Col(j)
    }

    /** The memory offset of row i of column j. */
    function Off(i: int, j: int): int
      requires Dims()
    {
      Dot(Cell(i, j), stride)
    }

    /** The stream position of row i of column j in the underlying array. */
    function Val(i: int, j: int): int
      requires Dims()
    {
      Pos(Cell(i, j))
    }

    /** The stream position of multi-index idx: Fortran-order linear index of
        start + idx in the underlying array. */
    function Pos(idx: seq<int>): int
      requires Dims() && |idx| == |shape|
    {
      Horner(VAdd(start, idx), underlying)
    }

    /** The memory offset of multi-index idx. */
    function Offset(idx: seq<int>): int
      requires |idx| <= |stride|
    {
      Dot(idx, stride)
    }

    /** Strides map the shape into the buffer, and distinct indices to
        distinct offsets. */
    ghost predicate FitsIn(dataLength: int)
      requires Dims()
    {
      (forall idx {:trigger Offset(idx)} :: InShape(idx, shape) ==> 0 <= Offset(idx) < dataLength)
      && (forall a, b {:trigger Offset(a), Offset(b)} ::
            InShape(a, shape) && InShape(b, shape) && Offset(a) == Offset(b) ==> a == b)
    }
  }

  /** The buffer d after writing rows 0..i-1 of column j, each at its
      offset and with its stream position. */
  ghost function WriteRows(d: seq<int>, L: Layout, j: int, i: int): (r: seq<int>)
    requires L.Dims() && L.FitsIn(|d|) && 0 <= j < L.Cols() && 0 <= i <= L.shape[0]
    ensures |r| == |d|
    decreases i
  {
    if i == 0 then d
    else
      CellFits(L, |d|, i - 1, j);
      WriteRows(d, L, j, i - 1)[L.Off(i - 1, j) := L.Val(i - 1, j)]
  }

  /** The buffer orig after generating columns 0..j-1. */
  ghost function Generated(orig: seq<int>, L: Layout, j: int): (r: seq<int>)
    requires L.Dims() && L.FitsIn(|orig|) && 0 <= j <= L.Cols()
    ensures |r| == |orig|
    decreases j
  {
    if j == 0 then orig else WriteRows(Generated(orig, L, j - 1), L, j - 1, L.shape[0])
  }

  /** The buffer orig after the kernel: every column generated. */
  ghost function Fill(orig: seq<int>, L: Layout): (r: seq<int>)
    requires L.Dims() && L.FitsIn(|orig|)
    ensures |r| == |orig|
  {
    ProdPositive(L.shape[1..]);
    Generated(orig, L, L.Cols())
  }

  /** Some index of the shape is stored at offset o. */
  ghost predicate Written(L: Layout, o: int)
    requires L.Dims()
  {
    exists idx :: InShape(idx, L.shape) && Dot(idx, L.stride) == o
  }

  /** Column j's index over the coordinates other than the row lies in
      their shape. */
  lemma ColInShape(L: Layout, j: int)
    requires L.Dims() && 0 <= j < L.Cols()
    ensures InShape(L.Col(j), L.shape[1..])
  {
    HornerUnlinear(j, L.shape[1..]);
  }

  lemma CellInShape(L: Layout, i: int, j: int)
    requires L.Dims() && 0 <= i < L.shape[0] && 0 <= j < L.Cols()
    ensures InShape(L.Cell(i, j), L.shape)
  {
    HornerUnlinear(j, L.shape[1..]);
    var c := L.Cell(i, j);
    forall d | 0 <= d < |c|
      ensures 0 <= c[d] < L.shape[d]
    {
      if d > 0 {
        assert c[d] == L.Col(j)[d - 1];
      }
    }
  }

  /** Every cell is stored inside the buffer. */
  lemma CellFits(L: Layout, dataLength: int, i: int, j: int)
    requires L.Dims() && L.FitsIn(dataLength) && 0 <= i < L.shape[0] && 0 <= j < L.Cols()
    ensures 0 <= L.Off(i, j) < dataLength
  {
    CellInShape(L, i, j);
    assert L.Offset(L.Cell(i, j)) == L.Off(i, j);
  }

  /** Distinct cells are stored at distinct offsets. */
  lemma CellsDistinct(L: Layout, dataLength: int, i: int, j: int, i': int, jj: int)
    requires L.Dims() && L.FitsIn(dataLength)
    requires 0 <= i < L.shape[0] && 0 <= j < L.Cols()
    requires 0 <= i' < L.shape[0] && 0 <= jj < L.Cols()
    requires i != i' || j != jj
    ensures L.Off(i, j) != L.Off(i', jj)
  {
    CellInShape(L, i, j);
    CellInShape(L, i', jj);
    var a, b := L.Cell(i, j), L.Cell(i', jj);
    assert L.Offset(a) == L.Off(i, j) && L.Offset(b) == L.Off(i', jj);
    assert a[0] == i && b[0] == i';
    assert a[1..] == L.Col(j) && b[1..] == L.Col(jj);
    if j != jj {
      if L.Col(j) == L.Col(jj) {
        UnlinearInjective(j, jj, L.shape[1..]);
      }
    }
    assert a != b;
  }

  /** Changing one coordinate of idx by x moves the stream position by x
      times the product of the underlying extents before it. */
  lemma PosAddAt(L: Layout, idx: seq<int>, d: nat, x: int)
    requires L.Dims() && |idx| == |L.shape| && d < |idx|
    ensures L.Pos(idx[d := idx[d] + x]) == L.Pos(idx) + x * Prod(L.underlying[..d])
  {
    var v := VAdd(L.start, idx);
    assert VAdd(L.start, idx[d := idx[d] + x]) == v[d := v[d] + x];
    HornerAddAt(v, L.underlying, d, x);
  }

  /** Moving one row down a column moves the offset by stride[0] and the
      stream position by one. */
  lemma RowStep(L: Layout, i: int, j: int)
    requires L.Dims()
    ensures L.Off(i + 1, j) == L.Off(i, j) + L.stride[0]
    ensures L.Val(i + 1, j) == L.Val(i, j) + 1
  {
    var c := L.Cell(i, j);
    assert L.Cell(i + 1, j) == c[0 := c[0] + 1];
    DotAddAt(c, L.stride, 0, 1);
    PosAddAt(L, c, 0, 1);
    assert Prod(L.underlying[..0]) == 1;
  }

  /** Just past the end of a column, the offset has moved by nrows strides
      and the stream position by nrows. */
  lemma ColumnEnd(L: Layout, j: int)
    requires L.Dims()
    ensures L.Off(L.shape[0], j) == L.Off(0, j) + L.stride[0] * L.shape[0]
    ensures L.Val(L.shape[0], j) == L.Val(0, j) + L.shape[0]
  {
    var c := L.Cell(0, j);
    assert L.Cell(L.shape[0], j) == c[0 := c[0] + L.shape[0]];
    DotAddAt(c, L.stride, 0, L.shape[0]);
    PosAddAt(L, c, 0, L.shape[0]);
    assert Prod(L.underlying[..0]) == 1;
    assert L.shape[0] * L.stride[0] == L.stride[0] * L.shape[0];
  }

  /** Generates one column of nrows values, stepping through memory by
      stride0: the inner loop of the kernel. */
  method GenerateColumn(data: array<int>, nrows: int, stride0: int, p0: int, pos0: int,
                        ghost L: Layout, ghost j: int)
    returns (p: int, pos: int)
    requires L.Dims() && L.FitsIn(data.Length)
    requires nrows == L.shape[0] && stride0 == L.stride[0] && 0 <= j < L.Cols()
    requires p0 == L.Off(0, j) && pos0 == L.Val(0, j)
    modifies data
    ensures p == L.Off(nrows, j) && pos == L.Val(nrows, j)
    ensures data[..] == WriteRows(old(data[..]), L, j, nrows)
  {
    p, pos := p0, pos0;
    var i := 0;
    while i < nrows
      invariant 0 <= i <= nrows
      invariant p == L.Off(i, j) && pos == L.Val(i, j)
      invariant data[..] == WriteRows(old(data[..]), L, j, i)
    {
      CellFits(L, data.Length, i, j);
      data[p] := pos;
      RowStep(L, i, j);
      p := p + stride0;
      pos := pos + 1;
      i := i + 1;
    }
  }

  /** The state of the carry loop while moving from column j-1, whose
      trailing coordinates are c, to column j: the temporary index t has had
      coordinate 1 incremented and has carried up to coordinate k; p is the
      offset of t, ps its stream position and ustride the product of the
      underlying extents before coordinate k. */
  ghost predicate Carrying(L: Layout, c: seq<int>, t: seq<int>, k: int, p: int, ps: int, ustride: int)
    requires L.Dims()
  {
    |c| + 1 == |t| == |L.shape| && 1 <= k < |t| && t[0] == 0
    && (forall d :: 1 <= d < k ==> t[d] == 0 && c[d - 1] == L.shape[d] - 1)
    && t[k] == c[k - 1] + 1
    && (forall d :: k < d < |t| ==> t[d] == c[d - 1])
    && p == Dot(t, L.stride) && ps == L.Pos(t) && ustride == Prod(L.underlying[..k])
  }

  /** One carry of the odometer in the kernel's temporary index: coordinate
      k wraps to zero and coordinate k+1 is incremented; the offset and the
      stream position follow. */
  lemma CarryMoves(L: Layout, t: seq<int>, k: nat)
    requires L.Dims() && |t| == |L.shape| && k + 1 < |t| && t[k] == L.shape[k]
    ensures Dot(t[k := 0][k + 1 := t[k + 1] + 1], L.stride)
            == Dot(t, L.stride) + L.stride[k + 1] - L.stride[k] * L.shape[k]
    ensures L.Pos(t[k := 0][k + 1 := t[k + 1] + 1])
            == L.Pos(t) + Prod(L.underlying[..k]) * (L.underlying[k] - L.shape[k])
  {
    var t1 := t[k := 0];
    assert t1 == t[k := t[k] + -L.shape[k]];
    assert t1[k + 1] == t[k + 1];
    CarryMovesOffset(L, t, t1, k);
    CarryMovesPos(L, t, t1, k);
  }

  lemma CarryMovesOffset(L: Layout, t: seq<int>, t1: seq<int>, k: nat)
    requires L.Dims() && |t| == |L.shape| && k + 1 < |t|
    requires t1 == t[k := t[k] + -L.shape[k]] && t1[k + 1] == t[k + 1]
    ensures Dot(t1[k + 1 := t[k + 1] + 1], L.stride)
            == Dot(t, L.stride) + L.stride[k + 1] - L.stride[k] * L.shape[k]
  {
    DotAddAt(t, L.stride, k, -L.shape[k]);
    DotAddAt(t1, L.stride, k + 1, 1);
  }

  lemma CarryMovesPos(L: Layout, t: seq<int>, t1: seq<int>, k: nat)
    requires L.Dims() && |t| == |L.shape| && k + 1 < |t|
    requires t1 == t[k := t[k] + -L.shape[k]] && t1[k + 1] == t[k + 1]
    ensures L.Pos(t1[k + 1 := t[k + 1] + 1])
            == L.Pos(t) + Prod(L.underlying[..k]) * (L.underlying[k] - L.shape[k])
  {
    var u := Prod(L.underlying[..k]);
    PosAddAt(L, t, k, -L.shape[k]);
    PosAddAt(L, t1, k + 1, 1);
    ProdPrefixSucc(L.underlying, k);
    assert u * (L.underlying[k] - L.shape[k]) == u * L.underlying[k] + -L.shape[k] * u;
  }

  /** Coordinate k of the temporary index sits at its extent, so
      coordinate k-1 of column j-1 was at its maximum; as column j-1 is not
      the last, coordinate k+1 exists. */
  lemma CarryInside(L: Layout, j: int, c: seq<int>, t: seq<int>, k: int, p: int, ps: int, ustride: int)
    requires L.Dims() && 1 <= j < L.Cols() && c == L.Col(j - 1)
    requires Carrying(L, c, t, k, p, ps, ustride) && t[k] == L.shape[k]
    ensures k + 1 < |t|
  {
    CarryStaysInside(j, L.shape[1..], k - 1);
  }

  /** The body of the carry loop keeps its state: t', p', ps' and ustride'
      are the values after one carry out of coordinate k' - 1. */
  lemma CarryPreserves(L: Layout, j: int, c: seq<int>, t: seq<int>, k': int, p: int, ps: int, ustride: int,
                       t': seq<int>, p': int, ps': int, ustride': int)
    requires L.Dims() && 1 <= j < L.Cols() && c == L.Col(j - 1)
    requires Carrying(L, c, t, k' - 1, p, ps, ustride) && t[k' - 1] == L.shape[k' - 1] && k' < |t|
    requires t' == t[k' - 1 := 0][k' := t[k'] + 1]
    requires p' == p + L.stride[k'] - L.stride[k' - 1] * L.shape[k' - 1]
    requires ps' == ps + ustride * (L.underlying[k' - 1] - L.shape[k' - 1])
    requires ustride' == ustride * L.underlying[k' - 1]
    ensures Carrying(L, c, t', k', p', ps', ustride')
  {
    var k := k' - 1;
    CarryMoves(L, t, k);
    ProdPrefixSucc(L.underlying, k);
  }

  /** Before the carry loop: the temporary index of the first row of column
      j-1 with coordinate 1 incremented, starting from the offset and stream
      position just past the end of column j-1. */
  lemma CarryStart(L: Layout, t: seq<int>, j: int, p0: int, ps0: int)
    requires L.Dims() && 1 <= j < L.Cols() && |t| == |L.shape|
    requires t == L.Cell(0, j - 1)
    requires p0 == L.Off(L.shape[0], j - 1) && ps0 == L.Val(L.shape[0], j - 1)
    ensures |L.shape| >= 2
    ensures Carrying(L, L.Col(j - 1), t[1 := t[1] + 1], 1,
                     p0 + L.stride[1] - L.stride[0] * L.shape[0],
                     ps0 + (L.underlying[0] - L.shape[0]),
                     L.underlying[0])
  {
    var c, t' := L.Col(j - 1), t[1 := t[1] + 1];
    assert |L.shape[1..]| > 0;
    ColInShape(L, j - 1);
    assert |c| + 1 == |t'|;
    assert t'[0] == 0 && t'[1] == c[0] + 1;
    assert forall d :: 1 < d < |t'| ==> t'[d] == c[d - 1];
    CarryStartMoves(L, t, j, p0, ps0);
    assert L.underlying[..1] == [L.underlying[0]] && L.underlying[..1][1..] == [];
    assert Prod(L.underlying[..1]) == L.underlying[0];
  }

  /** The offset and stream position of the first row of column j-1 with
      coordinate 1 incremented, from those just past the end of column j-1. */
  lemma CarryStartMoves(L: Layout, t: seq<int>, j: int, p0: int, ps0: int)
    requires L.Dims() && 0 <= j - 1 && 2 <= |t| == |L.shape|
    requires t == L.Cell(0, j - 1)
    requires p0 == L.Off(L.shape[0], j - 1) && ps0 == L.Val(L.shape[0], j - 1)
    ensures Dot(t[1 := t[1] + 1], L.stride) == p0 + L.stride[1] - L.stride[0] * L.shape[0]
    ensures L.Pos(t[1 := t[1] + 1]) == ps0 + (L.underlying[0] - L.shape[0])
  {
    ColumnEnd(L, j - 1);
    assert L.Off(0, j - 1) == Dot(t, L.stride) && L.Val(0, j - 1) == L.Pos(t);
    DotAddAt(t, L.stride, 1, 1);
    PosAddAt(L, t, 1, 1);
    assert L.underlying[..1] == [L.underlying[0]] && L.underlying[..1][1..] == [];
    assert Prod(L.underlying[..1]) == L.underlying[0];
  }

  /** After the carry loop: the temporary index is the first row of column j. */
  lemma CarryDone(L: Layout, j: int, c: seq<int>, t: seq<int>, k: int, p: int, ps: int, ustride: int)
    requires L.Dims() && 1 <= j < L.Cols() && c == L.Col(j - 1)
    requires Carrying(L, c, t, k, p, ps, ustride) && t[k] != L.shape[k]
    ensures t == L.Cell(0, j) && p == L.Off(0, j) && ps == L.Val(0, j)
  {
    var sh := L.shape[1..];
    HornerUnlinear(j - 1, sh);
    CarryStep(j, sh, k - 1);
    var c' := L.Col(j);
    assert t[1..] == c' by {
      forall d | 0 <= d < |c'|
        ensures t[1..][d] == c'[d]
      {
      }
    }
    assert t == [0] + t[1..];
  }

  /** The stream position of the first element of the block. */
  lemma FirstCell(L: Layout)
    requires L.Dims()
    ensures L.Off(0, 0) == 0
    ensures L.Val(0, 0) == Horner(L.start, L.underlying)
    ensures L.Cell(0, 0) == Zeros(|L.shape|)
  {
    UnlinearZero(L.shape[1..]);
    assert L.Cell(0, 0) == Zeros(|L.shape|);
    DotZeros(|L.shape|, L.stride);
    assert VAdd(L.start, Zeros(|L.shape|)) == L.start;
  }

  /** Moves the temporary index from the first row of column j-1 to the
      first row of column j by incrementing its coordinate 1 and carrying,
      and returns the new data offset and the generator shift from the last
      element of column j-1 to the first element of column j. */
  method NextColumn(tmpIndex: array<int>, ndim: int, nrows: int, ghost start: seq<int>,
                    shape: seq<int>, underlying: seq<int>, stride: seq<int>, p0: int, ghost j: int)
    returns (p: int, shift: int)
    requires Layout(start, shape, underlying, stride).Dims()
    requires ndim == |shape| && nrows == shape[0] && tmpIndex.Length == ndim
    requires 1 <= j < Layout(start, shape, underlying, stride).Cols()
    requires tmpIndex[..] == Layout(start, shape, underlying, stride).Cell(0, j - 1)
    requires p0 == Layout(start, shape, underlying, stride).Off(nrows, j - 1)
    modifies tmpIndex
    ensures tmpIndex[..] == Layout(start, shape, underlying, stride).Cell(0, j)
    ensures p == Layout(start, shape, underlying, stride).Off(0, j)
    ensures Layout(start, shape, underlying, stride).Val(nrows, j - 1) + shift
            == Layout(start, shape, underlying, stride).Val(0, j)
  {
    ghost var L := Layout(start, shape, underlying, stride);
    ghost var c := L.Col(j - 1);
    ghost var pos := L.Val(nrows, j - 1);
    ghost var t := tmpIndex[..];
    CarryStart(L, t, j, p0, pos);
    tmpIndex[1] := tmpIndex[1] + 1;
    assert tmpIndex[..] == t[1 := t[1] + 1];
    var k := 1;
    // The stream skips the rows of the underlying array past the column;
    // a step along axis 1 moves the stream by underlying[0].
    shift := underlying[0] - nrows;
    var ustride := underlying[0];
    p := p0 + stride[1] - stride[0] * nrows;
    // Carry while odometer digit k has reached its extent.
    while tmpIndex[k] == shape[k]
      invariant Carrying(L, c, tmpIndex[..], k, p, pos + shift, ustride)
      decreases ndim - k
    {
      k, shift, ustride, p := CarryOnce(tmpIndex, ndim, shape, underlying, stride, k, shift, ustride, p, L, j, c, pos);
    }
    CarryDone(L, j, c, tmpIndex[..], k, p, pos + shift, ustride);
  }

  /** One pass of the carry loop of NextColumn: coordinate k of the
      temporary index has reached its extent, so it wraps to zero and
      coordinate k+1 is incremented; the generator shift, the generator
      stride of the coordinate and the data offset follow. */
  method CarryOnce(tmpIndex: array<int>, ndim: int, shape: seq<int>, underlying: seq<int>, stride: seq<int>,
                   k0: int, shift0: int, ustride0: int, p0: int, ghost L: Layout, ghost j: int, ghost c: seq<int>,
                   ghost pos: int)
    returns (k: int, shift: int, ustride: int, p: int)
    requires L == Layout(L.start, shape, underlying, stride) && L.Dims() && ndim == |shape| == tmpIndex.Length
    requires 1 <= j < L.Cols() && c == L.Col(j - 1)
    requires Carrying(L, c, tmpIndex[..], k0, p0, pos + shift0, ustride0) && tmpIndex[k0] == shape[k0]
    modifies tmpIndex
    ensures k == k0 + 1 && Carrying(L, c, tmpIndex[..], k, p, pos + shift, ustride)
  {
    ghost var t := tmpIndex[..];
    CarryInside(L, j, c, t, k0, p0, pos + shift0, ustride0);
    k := k0;
    // Digit k wraps to zero and digit k+1 goes up by one.
    tmpIndex[k] := 0;
    k := k + 1;
    tmpIndex[k] := tmpIndex[k] + 1;
    // The stream skips the part of axis k-1 of the underlying array outside
    // the sub-array; the offset rewinds axis k-1 and steps along axis k.
    shift := shift0 + ustride0 * (underlying[k - 1] - shape[k - 1]);
    ustride := ustride0 * underlying[k - 1];
    p := p0 + stride[k] - stride[k - 1] * shape[k - 1];
    assert tmpIndex[..] == t[k - 1 := 0][k := t[k] + 1];
    CarryPreserves(L, j, c, t, k, p0, pos + shift0, ustride0, tmpIndex[..], p, pos + shift, ustride);
  }

  /** Writing rows 0..i-1 of column j stores each row's stream position at
      its offset and leaves every other offset alone. */
  lemma {:induction false} WriteRowsSpec(d: seq<int>, L: Layout, j: int, i: int)
    requires L.Dims() && L.FitsIn(|d|) && 0 <= j < L.Cols() && 0 <= i <= L.shape[0]
    ensures forall i' :: 0 <= i' < i ==>
      0 <= L.Off(i', j) < |d| && WriteRows(d, L, j, i)[L.Off(i', j)] == L.Val(i', j)
    ensures forall o :: 0 <= o < |d| && (forall i' :: 0 <= i' < i ==> L.Off(i', j) != o) ==>
      WriteRows(d, L, j, i)[o] == d[o]
    decreases i
  {
    if i > 0 {
      var prev := WriteRows(d, L, j, i - 1);
      CellFits(L, |d|, i - 1, j);
      assert WriteRows(d, L, j, i) == prev[L.Off(i - 1, j) := L.Val(i - 1, j)];
      WriteRowsSpec(d, L, j, i - 1);
      forall i' | 0 <= i' < i
        ensures 0 <= L.Off(i', j) < |d| && WriteRows(d, L, j, i)[L.Off(i', j)] == L.Val(i', j)
      {
        if i' < i - 1 {
          CellsDistinct(L, |d|, i', j, i - 1, j);
        }
      }
    }
  }

  /** Generating columns 0..n-1 stores the stream position of row i of
      column jj < n at its offset. */
  lemma {:induction false} GeneratedCell(orig: seq<int>, L: Layout, n: int, jj: int, i: int)
    requires L.Dims() && L.FitsIn(|orig|) && 0 <= jj < n <= L.Cols() && 0 <= i < L.shape[0]
    ensures 0 <= L.Off(i, jj) < |orig| && Generated(orig, L, n)[L.Off(i, jj)] == L.Val(i, jj)
    decreases n
  {
    var last := n - 1;
    var prev := Generated(orig, L, last);
    assert Generated(orig, L, n) == WriteRows(prev, L, last, L.shape[0]);
    WriteRowsSpec(prev, L, last, L.shape[0]);
    if jj < last {
      GeneratedCell(orig, L, last, jj, i);
      forall i' | 0 <= i' < L.shape[0]
        ensures L.Off(i', last) != L.Off(i, jj)
      {
        CellsDistinct(L, |orig|, i', last, i, jj);
      }
    }
  }

  /** Generating columns 0..n-1 leaves every offset that holds none of their
      cells alone. */
  lemma {:induction false} GeneratedOthers(orig: seq<int>, L: Layout, n: int)
    requires L.Dims() && L.FitsIn(|orig|) && 0 <= n <= L.Cols()
    ensures forall o ::
      (0 <= o < |orig| && forall jj, i :: 0 <= jj < n && 0 <= i < L.shape[0] ==> L.Off(i, jj) != o) ==>
      Generated(orig, L, n)[o] == orig[o]
    decreases n
  {
    if n > 0 {
      var last := n - 1;
      var prev := Generated(orig, L, last);
      assert Generated(orig, L, n) == WriteRows(prev, L, last, L.shape[0]);
      GeneratedOthers(orig, L, last);
      WriteRowsSpec(prev, L, last, L.shape[0]);
    }
  }

  /** What the kernel promises: the buffer holds, at the offset of every index
      of the shape, the stream position of the corresponding element of the
      underlying array, so that the output equals
      underlying[start:start+shape]; every other offset keeps its value. */
  lemma FillSpec(orig: seq<int>, L: Layout)
    requires L.Dims() && L.FitsIn(|orig|)
    ensures forall idx :: InShape(idx, L.shape) ==>
      Fill(orig, L)[L.Offset(idx)] == Horner(VAdd(L.start, idx), L.underlying)
    ensures forall o :: 0 <= o < |orig| && !Written(L, o) ==> Fill(orig, L)[o] == orig[o]
  {
    ProdPositive(L.shape[1..]);
    GeneratedOthers(orig, L, L.Cols());
    forall idx | InShape(idx, L.shape)
      ensures Fill(orig, L)[L.Offset(idx)] == L.Pos(idx)
    {
      var t := idx[1..];
      UnlinearHorner(t, L.shape[1..]);
      var jj := Horner(t, L.shape[1..]);
      assert idx == [idx[0]] + t;
      assert idx == L.Cell(idx[0], jj);
      assert L.Off(idx[0], jj) == Dot(idx, L.stride) && L.Val(idx[0], jj) == L.Pos(idx);
      GeneratedCell(orig, L, L.Cols(), jj, idx[0]);
    }
    forall o | 0 <= o < |orig| && !Written(L, o)
      ensures Fill(orig, L)[o] == orig[o]
    {
      forall jj, i | 0 <= jj < L.Cols() && 0 <= i < L.shape[0]
        ensures L.Off(i, jj) != o
      {
        CellInShape(L, i, jj);
      }
    }
  }

  /** The generator jump to the first element of the block: the
      Fortran-order linear index of start in the underlying array,
      accumulated from the last dimension down. */
  method Jump(ndim: int, start: seq<int>, underlying: seq<int>) returns (shift: int)
    requires 1 <= ndim == |start| == |underlying|
    ensures shift == Horner(start, underlying)
  {
    shift := start[ndim - 1];
    var d := ndim - 2;
    while d >= 0
      invariant -1 <= d <= ndim - 2
      invariant shift == Horner(start[d + 1..], underlying[d + 1..])
    {
      assert start[d..][1..] == start[d + 1..] && underlying[d..][1..] == underlying[d + 1..];
      shift := start[d] + shift * underlying[d];
      d := d - 1;
    }
    assert start[0..] == start && underlying[0..] == underlying;
  }

  /** Sets every entry of the temporary index to zero. */
  method ZeroIndex(tmpIndex: array<int>)
    modifies tmpIndex
    ensures tmpIndex[..] == Zeros(tmpIndex.Length)
  {
    for e := 0 to tmpIndex.Length
      invariant forall e' :: 0 <= e' < e ==> tmpIndex[e'] == 0
    {
      tmpIndex[e] := 0;
    }
  }

  /** Fills `data` as the sub-array of shape `shape` at `start` in an
      underlying array of shape `underlying`, stored with strides `stride`.
      Every index of the shape receives the stream position of the
      corresponding element of the underlying array, and no other offset of
      the buffer changes. */
  method Cpu(ndim: int, nelems: int, start: seq<int>, shape: seq<int>, underlying: seq<int>,
             data: array<int>, stride: seq<int>, tmpIndex: array<int>)
    requires Layout(start, shape, underlying, stride).Dims() && ndim == |shape|
    requires Layout(start, shape, underlying, stride).FitsIn(data.Length)
    requires nelems == Prod(shape)
    requires tmpIndex.Length == ndim && tmpIndex != data
    modifies data, tmpIndex
    ensures data[..] == Fill(old(data[..]), Layout(start, shape, underlying, stride))
  {
    ghost var L := Layout(start, shape, underlying, stride);
    ghost var orig := data[..];
    // Stream position of the sub-array's first element.
    var shift := Jump(ndim, start, underlying);
    var pos := shift;
    // Rows run along axis 0; each column is one cell of the remaining axes.
    var nrows := shape[0];
    ProdPositive(shape[1..]);
    DivModUnique(nelems, nrows, L.Cols(), 0);
    var ncols := nelems / nrows;
    var p := 0;
    FirstCell(L);
    p, pos := GenerateColumn(data, nrows, stride[0], p, pos, L, 0);
    ZeroIndex(tmpIndex);
    assert tmpIndex[..] == L.Cell(0, 0);
    assert AtColumn(L, orig, 1, data[..], tmpIndex[..], p, pos);
    GenerateColumns(data, tmpIndex, ndim, ncols, nrows, start, shape, underlying, stride, p, pos, orig, L);
  }

  /** The state of the outer loop once columns 0..j-1 are generated: the
      temporary index is row 0 of column j-1, p the offset just past its
      last row and pos the stream position just past it. */
  ghost predicate AtColumn(L: Layout, orig: seq<int>, j: int, d: seq<int>, t: seq<int>, p: int, pos: int)
  {
    L.Dims() && L.FitsIn(|orig|) && 1 <= j <= L.Cols()
    && t == L.Cell(0, j - 1)
    && p == L.Off(L.shape[0], j - 1) && pos == L.Val(L.shape[0], j - 1)
    && d == Generated(orig, L, j)
  }

  /** The outer loop of the kernel: having generated column 0, moves the
      temporary index, the data offset and the generator column by column
      and generates columns 1..ncols-1. */
  method GenerateColumns(data: array<int>, tmpIndex: array<int>, ndim: int, ncols: int, nrows: int,
                         start: seq<int>, shape: seq<int>, underlying: seq<int>, stride: seq<int>,
                         p0: int, pos0: int, ghost orig: seq<int>, ghost L: Layout)
    requires L == Layout(start, shape, underlying, stride) && L.Dims() && ndim == |shape| && nrows == shape[0]
    requires ncols == L.Cols() && tmpIndex.Length == ndim && tmpIndex != data
    requires AtColumn(L, orig, 1, data[..], tmpIndex[..], p0, pos0)
    modifies data, tmpIndex
    ensures L.FitsIn(|orig|) && data[..] == Generated(orig, L, ncols)
  {
    var p, pos := p0, pos0;
    var j := 1;
    while j < ncols
      invariant j <= ncols && AtColumn(L, orig, j, data[..], tmpIndex[..], p, pos)
      decreases ncols - j
    {
      p, pos := AdvanceColumn(data, tmpIndex, ndim, nrows, start, shape, underlying, stride, p, pos, orig, L, j);
      j := j + 1;
    }
  }

  /** One pass of the outer loop: moves to column j and generates it. */
  method AdvanceColumn(data: array<int>, tmpIndex: array<int>, ndim: int, nrows: int,
                       start: seq<int>, shape: seq<int>, underlying: seq<int>, stride: seq<int>,
                       p0: int, pos0: int, ghost orig: seq<int>, ghost L: Layout, ghost j: int)
    returns (p: int, pos: int)
    requires L == Layout(start, shape, underlying, stride) && L.Dims() && ndim == |shape| && nrows == shape[0]
    requires tmpIndex.Length == ndim && tmpIndex != data
    requires AtColumn(L, orig, j, data[..], tmpIndex[..], p0, pos0) && j < L.Cols()
    modifies data, tmpIndex
    ensures AtColumn(L, orig, j + 1, data[..], tmpIndex[..], p, pos)
  {
    var shift;
    p, shift := NextColumn(tmpIndex, ndim, nrows, start, shape, underlying, stride, p0, j);
    pos := pos0 + shift;
    p, pos := GenerateColumn(data, nrows, stride[0], p, pos, L, j);
  }

  /** cpu_ndim0: a 0-dimensional tensor is a single value, drawn at the
      current stream position. */
  method CpuNdim0(data: array<int>)
    requires data.Length >= 1
    modifies data
    ensures data[0] == 0
    ensures forall o :: 1 <= o < data.Length ==> data[o] == old(data[o])
  {
    data[0] := 0;
  }
}
