/** Tensor-level fill (src/tensor/fill.cc): every node walks the whole
    tile grid, submits the fill of a tile only when it owns that tile, and
    flushes every tile. The StarPU-level fill submit is not part of this
    model and is recorded as one `Called` event. */
module TensorFill {
  import opened Wrappers
  import opened Codelets
  import opened Starpu
  import opened TensorTraits

  /** `starpu::fill::submit<T>(tile_traits.nelems, val, tile_handle)` for tile i. */
  function FillCall(p: Precision, val: real, g: TileGrid, i: int): Event
    requires WellFormedGrid(g) && 0 <= i < |g.tiles|
  {
    Called("fill", TypeOf(p), [IndexV(g.nelems[i]), RealV(val)], [g.tiles[i]])
  }

  /** What node `rank` issues for tile i: the fill if it owns the tile,
      then the flush. */
  function TileEvents(p: Precision, val: real, g: TileGrid, rank: int, i: int): seq<Event>
    requires WellFormedGrid(g) && 0 <= i < |g.tiles|
  {
    (if rank == g.ranks[i] then [FillCall(p, val, g, i)] else []) + [MpiFlush(g.tiles[i])]
  }

  /** What node `rank` issues for the first n tiles, in increasing linear
      index. */
  function FillEvents(p: Precision, val: real, g: TileGrid, rank: int, n: int): seq<Event>
    requires WellFormedGrid(g) && 0 <= n <= |g.tiles|
  {
    if n == 0 then [] else FillEvents(p, val, g, rank, n - 1) + TileEvents(p, val, g, rank, n - 1)
  }

  /** The calls for tile k hold the fill of tile i exactly when k == i
      and the node owns it, and the flush of tile i exactly when k == i. */
  lemma TileEventsHold(p: Precision, val: real, g: TileGrid, rank: int, k: int, i: int)
    requires WellFormedGrid(g) && DistinctTiles(g) && 0 <= k < |g.tiles| && 0 <= i < |g.tiles|
    ensures FillCall(p, val, g, i) in TileEvents(p, val, g, rank, k) <==> i == k && rank == g.ranks[i]
    ensures MpiFlush(g.tiles[i]) in TileEvents(p, val, g, rank, k) <==> i == k
  {
    if i != k {
      assert g.tiles[i] != g.tiles[k] by {
        if i < k {} else {}
      }
      assert FillCall(p, val, g, i) != FillCall(p, val, g, k) by {
        assert FillCall(p, val, g, i).handles[0] != FillCall(p, val, g, k).handles[0];
      }
    }
  }

  /** Node `rank` fills tile i among the first n tiles exactly when it owns
      tile i, and flushes every one of them. */
  lemma {:induction false} FillOnOwnerFlushEverywhere(p: Precision, val: real, g: TileGrid, rank: int, n: int, i: int)
    requires WellFormedGrid(g) && DistinctTiles(g) && 0 <= n <= |g.tiles| && 0 <= i < |g.tiles|
    ensures FillCall(p, val, g, i) in FillEvents(p, val, g, rank, n) <==> i < n && rank == g.ranks[i]
    ensures MpiFlush(g.tiles[i]) in FillEvents(p, val, g, rank, n) <==> i < n
  {
    if n > 0 {
      FillOnOwnerFlushEverywhere(p, val, g, rank, n - 1, i);
      TileEventsHold(p, val, g, rank, n - 1, i);
    }
  }

  /** Taken over all nodes, each tile is filled exactly once: by its owner
      and by no other node. */
  lemma OneFillerPerTile(p: Precision, val: real, g: TileGrid, i: int)
    requires WellFormedGrid(g) && DistinctTiles(g) && 0 <= i < |g.tiles|
    ensures FillCall(p, val, g, i) in FillEvents(p, val, g, g.ranks[i], |g.tiles|)
    ensures forall rank :: FillCall(p, val, g, i) in FillEvents(p, val, g, rank, |g.tiles|) ==> rank == g.ranks[i]
  {
    FillOnOwnerFlushEverywhere(p, val, g, g.ranks[i], |g.tiles|, i);
    forall rank | FillCall(p, val, g, i) in FillEvents(p, val, g, rank, |g.tiles|)
      ensures rank == g.ranks[i]
    {
      FillOnOwnerFlushEverywhere(p, val, g, rank, |g.tiles|, i);
    }
  }

  /** `fill_async<T>` on node `rank`. */
  method FillAsync(rt: Runtime, p: Precision, val: real, a: Tensor, rank: int)
    requires ValidTensor(a)
    modifies rt
    ensures rt.log == old(rt.log) + FillEvents(p, val, Grid(a), rank, GridNelems(a))
    ensures rt.initialized == old(rt.initialized) && rt.owner == old(rt.owner)
    ensures old(rt.Valid()) ==> rt.Valid()
  {
    FillTiles(rt, p, val, Grid(a), rank);
  }

  /** The loop of fill_async over the tiles, in linear order. */
  method FillTiles(rt: Runtime, p: Precision, val: real, g: TileGrid, rank: int)
    requires WellFormedGrid(g)
    modifies rt
    ensures rt.log == old(rt.log) + FillEvents(p, val, g, rank, |g.tiles|)
    ensures rt.initialized == old(rt.initialized) && rt.owner == old(rt.owner)
    ensures old(rt.Valid()) ==> rt.Valid()
  {
    var i := 0;
    while i < |g.tiles|
      invariant 0 <= i <= |g.tiles|
      invariant rt.log == old(rt.log) + FillEvents(p, val, g, rank, i)
      invariant rt.initialized == old(rt.initialized) && rt.owner == old(rt.owner)
      invariant old(rt.Valid()) ==> rt.Valid()
    {
      FillTile(rt, p, val, g, rank, i);
      i := i + 1;
    }
  }

  /** One pass of that loop: the calls for tile i. */
  method FillTile(rt: Runtime, p: Precision, val: real, g: TileGrid, rank: int, i: int)
    requires WellFormedGrid(g) && 0 <= i < |g.tiles|
    modifies rt
    ensures rt.log == old(rt.log) + TileEvents(p, val, g, rank, i)
    ensures rt.initialized == old(rt.initialized) && rt.owner == old(rt.owner)
    ensures old(rt.Valid()) ==> rt.Valid()
  {
    var tileRank := g.ranks[i];
    if rank == tileRank {
      rt.Record(FillCall(p, val, g, i));
    }
    rt.Record(MpiFlush(g.tiles[i]));
  }

  /** `fill<T>`: the async form, then a wait for all tasks and for all MPI
      communication. */
  method Fill(rt: Runtime, p: Precision, val: real, a: Tensor, rank: int)
    requires ValidTensor(a)
    modifies rt
    ensures rt.log == old(rt.log) + FillEvents(p, val, Grid(a), rank, GridNelems(a)) + [WaitForAll, MpiWaitForAll]
    ensures rt.initialized == old(rt.initialized) && rt.owner == old(rt.owner)
    ensures old(rt.Valid()) ==> rt.Valid()
  {
    FillAsync(rt, p, val, a, rank);
    rt.WaitAll();
    rt.Record(MpiWaitForAll);
  }
}
