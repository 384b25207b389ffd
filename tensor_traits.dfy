/** Tensors: a shape cut into a grid of tiles of a base tile shape, the
    last tile on each axis holding the leftover. Each tile has a handle and
    an owner rank. Grid and tile indices are in Fortran order (first axis
    fastest), the order NNTile uses for all multi-indices. The traits class
    itself is not part of this model; its quantities are defined here. */
module TensorTraits {
  import opened Indexing
  import opened Starpu

  /** A distributed tensor: its shape, its base tile shape, and per tile
      (in linear grid order) the handle and the MPI rank that owns it. */
  datatype Tensor = Tensor(shape: seq<int>, basetile: seq<int>, tiles: seq<Handle>, ranks: seq<int>)

  /** Number of tiles along each axis: the extent divided by the base
      tile extent, rounded up. */
  function GridShape(shape: seq<int>, basetile: seq<int>): (g: seq<int>)
    requires |shape| == |basetile| && Positive(shape) && Positive(basetile)
    ensures |g| == |shape| && Positive(g)
    ensures forall i :: 0 <= i < |shape| ==> g[i] == GridExtent(shape[i], basetile[i])
  {
    seq(|shape|, i requires 0 <= i < |shape| => GridExtent(shape[i], basetile[i]))
  }

  /** `(n - 1) / b + 1`: the number of tiles of extent b along n elements. */
  function GridExtent(n: int, b: int): (g: int)
    requires n > 0 && b > 0
    ensures g > 0
  {
    DivBounds(n - 1, b, n);
    (n - 1) / b + 1
  }

  /** That many tiles cover the n elements, and one fewer would not. */
  lemma GridExtentCovers(n: int, b: int)
    requires n > 0 && b > 0
    ensures (GridExtent(n, b) - 1) * b < n <= GridExtent(n, b) * b
  {
    DivBounds(n - 1, b, n);
  }

  /** A tensor whose traits are well formed and that has one owner and
      one handle per tile, each tile registering a handle of its own. */
  predicate ValidTensor(a: Tensor)
  {
    |a.shape| == |a.basetile| && Positive(a.shape) && Positive(a.basetile)
    && |a.tiles| == Prod(GridShape(a.shape, a.basetile)) && |a.ranks| == |a.tiles|
    && forall i, j :: 0 <= i < j < |a.tiles| ==> a.tiles[i] != a.tiles[j]
  }

  /** `grid.nelems`. */
  function GridNelems(a: Tensor): nat
    requires ValidTensor(a)
  {
    |a.tiles|
  }

  /** The grid index of tile i (`grid.linear_to_index`). */
  function TileIndex(a: Tensor, i: int): (idx: seq<int>)
    requires ValidTensor(a) && 0 <= i < GridNelems(a)
    ensures InShape(idx, GridShape(a.shape, a.basetile))
    ensures Horner(idx, GridShape(a.shape, a.basetile)) == i
  {
    HornerUnlinear(i, GridShape(a.shape, a.basetile));
    Unlinear(i, GridShape(a.shape, a.basetile))
  }

  /** The shape of the tile at a grid index: the base tile, clipped to
      what remains of the tensor. */
  function TileShape(shape: seq<int>, basetile: seq<int>, idx: seq<int>): (t: seq<int>)
    requires |shape| == |basetile| == |idx|
    ensures |t| == |shape|
    ensures forall j :: 0 <= j < |shape| ==> t[j] == Min(basetile[j], shape[j] - idx[j] * basetile[j])
  {
    seq(|shape|, j requires 0 <= j < |shape| => Min(basetile[j], shape[j] - idx[j] * basetile[j]))
  }

  function Min(x: int, y: int): int
  {
    if x <= y then x else y
  }

  /** Tile extents lie between 1 and the base tile extent. */
  lemma TileShapeBounds(a: Tensor, idx: seq<int>)
    requires ValidTensor(a) && InShape(idx, GridShape(a.shape, a.basetile))
    ensures Positive(TileShape(a.shape, a.basetile, idx))
    ensures forall j :: 0 <= j < |a.shape| ==> TileShape(a.shape, a.basetile, idx)[j] <= a.basetile[j]
  {
    var g := GridShape(a.shape, a.basetile);
    forall j | 0 <= j < |a.shape|
      ensures TileShape(a.shape, a.basetile, idx)[j] > 0
    {
      GridExtentCovers(a.shape[j], a.basetile[j]);
      MulLe(idx[j], g[j] - 1, a.basetile[j]);
    }
  }

  /** `get_tile_traits(i).nelems`. */
  function TileNelems(a: Tensor, i: int): int
    requires ValidTensor(a) && 0 <= i < GridNelems(a)
  {
    Prod(TileShape(a.shape, a.basetile, TileIndex(a, i)))
  }

  /** What a loop over the tiles of a tensor sees of tile i: its handle,
      its owner and `get_tile_traits(i).nelems`, one entry per tile. */
  datatype TileGrid = TileGrid(tiles: seq<Handle>, ranks: seq<int>, nelems: seq<int>)

  predicate WellFormedGrid(g: TileGrid)
  {
    |g.tiles| == |g.ranks| == |g.nelems|
  }

  /** Tiles of one tensor have distinct handles. */
  predicate DistinctTiles(g: TileGrid)
  {
    forall i, j :: 0 <= i < j < |g.tiles| ==> g.tiles[i] != g.tiles[j]
  }

  /** The tiles of a tensor in linear grid order. */
  function Grid(a: Tensor): (g: TileGrid)
    requires ValidTensor(a)
    ensures WellFormedGrid(g) && DistinctTiles(g) && |g.tiles| == GridNelems(a)
    ensures g.tiles == a.tiles && g.ranks == a.ranks
    ensures forall i :: 0 <= i < GridNelems(a) ==> g.nelems[i] == TileNelems(a, i)
  {
    TileGrid(a.tiles, a.ranks, seq(GridNelems(a), i requires 0 <= i < GridNelems(a) => TileNelems(a, i)))
  }
}
