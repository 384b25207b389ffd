/** Tensor-level subtract_indexed_outputs
    (src/tensor/subtract_indexed_outputs.cc): checks that the labels tensor
    is dst with its first axis dropped and that this first axis is a single
    tile, then for every tile moves the labels tile to the owner of the dst
    tile, submits there, and flushes the dst tile everywhere. The
    StarPU-level submit is not part of this model and is recorded as one
    `Called` event. */
module TensorSubtractIndexedOutputs {
  import opened Wrappers
  import opened Indexing
  import opened Codelets
  import opened Starpu
  import opened TensorTraits

  /** The per-axis checks from axis i on: at the first axis where the
      labels differ from dst (one axis later), the shape is checked before
      the base tile. */
  function AxesCheck(ls: seq<int>, lb: seq<int>, ds: seq<int>, db: seq<int>, i: nat): Outcome
    requires |ls| == |lb| && |ds| == |db| == |ls| + 1
    decreases |ls| - i
  {
    if i >= |ls| then Pass
    else if ls[i] != ds[i + 1] then Fail("labels.shape[i] != dst.shape[i+1]")
    else if lb[i] != db[i + 1] then Fail("labels.basetile_shape[i] != dst.basetile_shape[i+1]")
    else AxesCheck(ls, lb, ds, db, i + 1)
  }

  /** The per-axis checks pass from axis i on exactly when every later
      axis of the labels matches dst one axis further. */
  lemma {:induction false} AxesCheckPasses(ls: seq<int>, lb: seq<int>, ds: seq<int>, db: seq<int>, i: nat)
    requires |ls| == |lb| && |ds| == |db| == |ls| + 1
    ensures AxesCheck(ls, lb, ds, db, i).Pass? <==>
              forall j :: i <= j < |ls| ==> ls[j] == ds[j + 1] && lb[j] == db[j + 1]
    decreases |ls| - i
  {
    if i < |ls| {
      AxesCheckPasses(ls, lb, ds, db, i + 1);
    }
  }

  /** The validation of subtract_indexed_outputs_async: ranks, then axes,
      then the single tile along dst's first axis. A dst without axes
      fails the rank check, since labels cannot have -1 axes. */
  function Check(labels: Tensor, dst: Tensor): Outcome
    requires ValidTensor(labels) && ValidTensor(dst)
  {
    if |labels.shape| != |dst.shape| - 1 then Fail("labels.ndim != dst.ndim-1")
    else if AxesCheck(labels.shape, labels.basetile, dst.shape, dst.basetile, 0).Fail? then
      AxesCheck(labels.shape, labels.basetile, dst.shape, dst.basetile, 0)
    else if dst.shape[0] != dst.basetile[0] then Fail("dst.shape[0] != dst.basetile_shape[0]")
    else Pass
  }

  /** The checks pass exactly when labels has dst's shape and base tile
      with the first axis dropped and that axis is one whole tile. */
  lemma CheckPasses(labels: Tensor, dst: Tensor)
    requires ValidTensor(labels) && ValidTensor(dst)
    ensures Check(labels, dst).Pass? <==>
              |dst.shape| >= 1 && labels.shape == dst.shape[1..] && labels.basetile == dst.basetile[1..]
              && dst.shape[0] == dst.basetile[0]
  {
    if |labels.shape| == |dst.shape| - 1 {
      AxesCheckPasses(labels.shape, labels.basetile, dst.shape, dst.basetile, 0);
    }
  }

  /** Once the checks pass, the dst grid is the labels grid with one tile
      in front, so both tensors have as many tiles. */
  lemma GridsAgree(labels: Tensor, dst: Tensor)
    requires ValidTensor(labels) && ValidTensor(dst) && Check(labels, dst).Pass?
    ensures GridShape(dst.shape, dst.basetile) == [1] + GridShape(labels.shape, labels.basetile)
    ensures GridNelems(dst) == GridNelems(labels)
  {
    CheckPasses(labels, dst);
    var g := GridShape(labels.shape, labels.basetile);
    var gd := GridShape(dst.shape, dst.basetile);
    assert gd[0] == 1 by {
      DivModUnique(dst.shape[0] - 1, dst.basetile[0], 0, dst.shape[0] - 1);
    }
    assert gd == [1] + g;
    assert Prod(gd) == Prod(g);
  }

  /** Prepending an axis at index 0 whose extent is one whole base tile
      prepends that extent to the tile shape. */
  lemma TileShapeCons(shape: seq<int>, basetile: seq<int>, idx: seq<int>)
    requires |shape| == |basetile| == |idx| + 1 && shape[0] == basetile[0]
    ensures TileShape(shape, basetile, [0] + idx) == [shape[0]] + TileShape(shape[1..], basetile[1..], idx)
  {
  }

  /** Tile i of dst sits at the grid index of tile i of labels with a 0 in
      front and holds dst.shape[0] times as many elements. */
  lemma TilesAgree(labels: Tensor, dst: Tensor, i: int)
    requires ValidTensor(labels) && ValidTensor(dst) && Check(labels, dst).Pass? && 0 <= i < GridNelems(dst)
    ensures 0 <= i < GridNelems(labels)
    ensures TileIndex(dst, i) == [0] + TileIndex(labels, i)
    ensures TileNelems(dst, i) == dst.shape[0] * TileNelems(labels, i)
  {
    GridsAgree(labels, dst);
    CheckPasses(labels, dst);
    var g := GridShape(labels.shape, labels.basetile);
    var gd := GridShape(dst.shape, dst.basetile);
    UnlinearCons(i, gd, i, 0);
    assert gd[1..] == g;
    TileShapeCons(dst.shape, dst.basetile, TileIndex(labels, i));
  }

  /** The checks of subtract_indexed_outputs_async, loop included. */
  method Validate(labels: Tensor, dst: Tensor) returns (o: Outcome)
    requires ValidTensor(labels) && ValidTensor(dst)
    ensures o == Check(labels, dst)
  {
    if |labels.shape| != |dst.shape| - 1 {
      return Fail("labels.ndim != dst.ndim-1");
    }
    var i := 0;
    while i < |labels.shape|
      invariant 0 <= i <= |labels.shape|
      invariant AxesCheck(labels.shape, labels.basetile, dst.shape, dst.basetile, 0)
                == AxesCheck(labels.shape, labels.basetile, dst.shape, dst.basetile, i)
    {
      if labels.shape[i] != dst.shape[i + 1] {
        return Fail("labels.shape[i] != dst.shape[i+1]");
      }
      if labels.basetile[i] != dst.basetile[i + 1] {
        return Fail("labels.basetile_shape[i] != dst.basetile_shape[i+1]");
      }
      i := i + 1;
    }
    if dst.shape[0] != dst.basetile[0] {
      return Fail("dst.shape[0] != dst.basetile_shape[0]");
    }
    return Pass;
  }

  /** `starpu::subtract_indexed_outputs::submit<T>(dst.shape[0],
      labels_traits.nelems, val, labels_tile, dst_tile)` for tile i, with
      `rows` standing for dst.shape[0]. */
  function SubtractCall(p: Precision, val: real, lg: TileGrid, dg: TileGrid, rows: int, i: int): Event
    requires WellFormedGrid(lg) && WellFormedGrid(dg) && 0 <= i < |lg.tiles| == |dg.tiles|
  {
    Called("subtract_indexed_outputs", TypeOf(p), [IndexV(rows), IndexV(lg.nelems[i]), RealV(val)],
           [lg.tiles[i], dg.tiles[i]])
  }

  /** What node `rank` issues for tile i: the transfer of the labels tile to
      the owner of the dst tile, the submission if this node is that owner,
      and the flush of the dst tile. */
  function TileEvents(p: Precision, val: real, lg: TileGrid, dg: TileGrid, rows: int, rank: int, i: int): seq<Event>
    requires WellFormedGrid(lg) && WellFormedGrid(dg) && 0 <= i < |lg.tiles| == |dg.tiles|
  {
    [MpiTransfer(lg.tiles[i], dg.ranks[i], rank)]
    + (if rank == dg.ranks[i] then [SubtractCall(p, val, lg, dg, rows, i)] else [])
    + [MpiFlush(dg.tiles[i])]
  }

  /** What node `rank` issues for the first n tiles. */
  function LoopEvents(p: Precision, val: real, lg: TileGrid, dg: TileGrid, rows: int, rank: int, n: int): seq<Event>
    requires WellFormedGrid(lg) && WellFormedGrid(dg) && 0 <= n <= |lg.tiles| == |dg.tiles|
  {
    if n == 0 then [] else LoopEvents(p, val, lg, dg, rows, rank, n - 1) + TileEvents(p, val, lg, dg, rows, rank, n - 1)
  }

  /** The calls for tile k hold the submission on tile i exactly when k == i
      and the node owns the dst tile, and the flush of dst tile i exactly
      when k == i. */
  lemma TileEventsHold(p: Precision, val: real, lg: TileGrid, dg: TileGrid, rows: int, rank: int, k: int, i: int)
    requires WellFormedGrid(lg) && WellFormedGrid(dg) && DistinctTiles(dg)
    requires 0 <= k < |lg.tiles| == |dg.tiles| && 0 <= i < |lg.tiles|
    ensures SubtractCall(p, val, lg, dg, rows, i) in TileEvents(p, val, lg, dg, rows, rank, k) <==> i == k && rank == dg.ranks[i]
    ensures MpiFlush(dg.tiles[i]) in TileEvents(p, val, lg, dg, rows, rank, k) <==> i == k
  {
    if i != k {
      assert dg.tiles[i] != dg.tiles[k] by {
        if i < k {} else {}
      }
      assert SubtractCall(p, val, lg, dg, rows, i) != SubtractCall(p, val, lg, dg, rows, k) by {
        assert SubtractCall(p, val, lg, dg, rows, i).handles[1] != SubtractCall(p, val, lg, dg, rows, k).handles[1];
      }
    }
  }

  /** Node `rank` submits on tile i among the first n tiles exactly when it
      owns dst tile i, and flushes every dst tile it has passed. */
  lemma {:induction false} SubmitOnOwnerFlushEverywhere(p: Precision, val: real, lg: TileGrid, dg: TileGrid,
                                                        rows: int, rank: int, n: int, i: int)
    requires WellFormedGrid(lg) && WellFormedGrid(dg) && DistinctTiles(dg)
    requires 0 <= n <= |lg.tiles| == |dg.tiles| && 0 <= i < |lg.tiles|
    ensures SubtractCall(p, val, lg, dg, rows, i) in LoopEvents(p, val, lg, dg, rows, rank, n) <==> i < n && rank == dg.ranks[i]
    ensures MpiFlush(dg.tiles[i]) in LoopEvents(p, val, lg, dg, rows, rank, n) <==> i < n
  {
    if n > 0 {
      SubmitOnOwnerFlushEverywhere(p, val, lg, dg, rows, rank, n - 1, i);
      TileEventsHold(p, val, lg, dg, rows, rank, n - 1, i);
    }
  }

  /** The only handles flushed are the dst tiles passed so far; a labels
      tile is flushed only if it is also one of those. */
  lemma {:induction false} FlushesOnlyDst(p: Precision, val: real, lg: TileGrid, dg: TileGrid,
                                          rows: int, rank: int, n: int, h: Handle)
    requires WellFormedGrid(lg) && WellFormedGrid(dg) && 0 <= n <= |lg.tiles| == |dg.tiles|
    ensures MpiFlush(h) in LoopEvents(p, val, lg, dg, rows, rank, n) <==> h in dg.tiles[..n]
  {
    if n > 0 {
      FlushesOnlyDst(p, val, lg, dg, rows, rank, n - 1, h);
      assert dg.tiles[..n] == dg.tiles[..n - 1] + [dg.tiles[n - 1]];
    }
  }

  /** Every submission in the log comes right after the transfer of its
      labels tile toward the owner of its dst tile. */
  lemma {:induction false} TransferPrecedesSubmit(p: Precision, val: real, lg: TileGrid, dg: TileGrid,
                                                  rows: int, rank: int, n: int, i: int, q: int)
    requires WellFormedGrid(lg) && WellFormedGrid(dg) && DistinctTiles(dg)
    requires 0 <= n <= |lg.tiles| == |dg.tiles| && 0 <= i < |lg.tiles|
    requires 0 <= q < |LoopEvents(p, val, lg, dg, rows, rank, n)|
    requires LoopEvents(p, val, lg, dg, rows, rank, n)[q] == SubtractCall(p, val, lg, dg, rows, i)
    ensures q >= 1 && LoopEvents(p, val, lg, dg, rows, rank, n)[q - 1] == MpiTransfer(lg.tiles[i], dg.ranks[i], rank)
  {
    var prev := LoopEvents(p, val, lg, dg, rows, rank, n - 1);
    var t := TileEvents(p, val, lg, dg, rows, rank, n - 1);
    assert LoopEvents(p, val, lg, dg, rows, rank, n) == prev + t;
    if q < |prev| {
      TransferPrecedesSubmit(p, val, lg, dg, rows, rank, n - 1, i, q);
    } else {
      var k := n - 1;
      assert t[q - |prev|] == SubtractCall(p, val, lg, dg, rows, i);
      assert q - |prev| == 1 && rank == dg.ranks[k];
      assert SubtractCall(p, val, lg, dg, rows, i).handles[1] == dg.tiles[k];
      assert i == k by {
        if i < k {} else if k < i {}
      }
    }
  }

  /** Each submission on tile i hands the kernel dst.shape[0] rows for the
      labels tile's elements, which together are the dst tile's elements. */
  lemma SubtractCallCoversTile(p: Precision, val: real, labels: Tensor, dst: Tensor, i: int)
    requires ValidTensor(labels) && ValidTensor(dst) && Check(labels, dst).Pass? && 0 <= i < GridNelems(dst)
    ensures GridNelems(labels) == GridNelems(dst) && |dst.shape| >= 1
    ensures SubtractCall(p, val, Grid(labels), Grid(dst), dst.shape[0], i).args[0].i
            * SubtractCall(p, val, Grid(labels), Grid(dst), dst.shape[0], i).args[1].i == TileNelems(dst, i)
  {
    GridsAgree(labels, dst);
    TilesAgree(labels, dst, i);
    CheckPasses(labels, dst);
    assert Grid(labels).nelems[i] == TileNelems(labels, i);
  }

  /** `subtract_indexed_outputs_async<T>` on node `rank`: a failed check
      issues nothing; otherwise one group of calls per tile. */
  method SubtractIndexedOutputsAsync(rt: Runtime, p: Precision, val: real, labels: Tensor, dst: Tensor, rank: int)
    returns (o: Outcome)
    requires ValidTensor(labels) && ValidTensor(dst)
    modifies rt
    ensures o == Check(labels, dst)
    ensures o.Fail? ==> rt.log == old(rt.log)
    ensures o.Pass? ==> (|dst.shape| >= 1 && GridNelems(dst) == GridNelems(labels) &&
                         rt.log == old(rt.log) + LoopEvents(p, val, Grid(labels), Grid(dst), dst.shape[0], rank, GridNelems(dst)))
    ensures rt.initialized == old(rt.initialized) && rt.owner == old(rt.owner)
    ensures old(rt.Valid()) ==> rt.Valid()
  {
    o := Validate(labels, dst);
    if o.Fail? {
      return;
    }
    GridsAgree(labels, dst);
    CheckPasses(labels, dst);
    RunTiles(rt, p, val, Grid(labels), Grid(dst), dst.shape[0], rank);
  }

  /** The loop over the tiles of subtract_indexed_outputs_async, once the
      checks have passed. */
  method RunTiles(rt: Runtime, p: Precision, val: real, lg: TileGrid, dg: TileGrid, rows: int, rank: int)
    requires WellFormedGrid(lg) && WellFormedGrid(dg) && |lg.tiles| == |dg.tiles|
    modifies rt
    ensures rt.log == old(rt.log) + LoopEvents(p, val, lg, dg, rows, rank, |dg.tiles|)
    ensures rt.initialized == old(rt.initialized) && rt.owner == old(rt.owner)
    ensures old(rt.Valid()) ==> rt.Valid()
  {
    var i := 0;
    while i < |dg.tiles|
      invariant 0 <= i <= |dg.tiles|
      invariant rt.log == old(rt.log) + LoopEvents(p, val, lg, dg, rows, rank, i)
      invariant rt.initialized == old(rt.initialized) && rt.owner == old(rt.owner)
      invariant old(rt.Valid()) ==> rt.Valid()
    {
      RunTile(rt, p, val, lg, dg, rows, rank, i);
      i := i + 1;
    }
  }

  /** One pass of that loop: the calls for tile i. */
  method RunTile(rt: Runtime, p: Precision, val: real, lg: TileGrid, dg: TileGrid, rows: int, rank: int, i: int)
    requires WellFormedGrid(lg) && WellFormedGrid(dg) && 0 <= i < |lg.tiles| == |dg.tiles|
    modifies rt
    ensures rt.log == old(rt.log) + TileEvents(p, val, lg, dg, rows, rank, i)
    ensures rt.initialized == old(rt.initialized) && rt.owner == old(rt.owner)
    ensures old(rt.Valid()) ==> rt.Valid()
  {
    var dstRank := dg.ranks[i];
    rt.Record(MpiTransfer(lg.tiles[i], dstRank, rank));
    if rank == dstRank {
      rt.Record(SubtractCall(p, val, lg, dg, rows, i));
    }
    rt.Record(MpiFlush(dg.tiles[i]));
  }

  /** `subtract_indexed_outputs<T>`: the async form, then a wait for all
      tasks and for all MPI communication. */
  method SubtractIndexedOutputs(rt: Runtime, p: Precision, val: real, labels: Tensor, dst: Tensor, rank: int)
    returns (o: Outcome)
    requires ValidTensor(labels) && ValidTensor(dst)
    modifies rt
    ensures o == Check(labels, dst)
    ensures o.Fail? ==> rt.log == old(rt.log)
    ensures o.Pass? ==> (|dst.shape| >= 1 && GridNelems(dst) == GridNelems(labels) &&
                         rt.log == old(rt.log) + LoopEvents(p, val, Grid(labels), Grid(dst), dst.shape[0], rank, GridNelems(dst))
                                   + [WaitForAll, MpiWaitForAll])
    ensures rt.initialized == old(rt.initialized) && rt.owner == old(rt.owner)
    ensures old(rt.Valid()) ==> rt.Valid()
  {
    o := SubtractIndexedOutputsAsync(rt, p, val, labels, dst, rank);
    if o.Fail? {
      return;
    }
    rt.WaitAll();
    rt.Record(MpiWaitForAll);
  }
}
