/** Tiles: a contiguous Fortran-ordered block of elements with a StarPU
    handle. The traits class itself is not part of this model; its
    quantities are defined here the way NNTile's tile traits compute them. */
module TileTraits {
  import opened Indexing
  import opened Starpu

  /** A `Tile<T>`: its shape and the handle of its data. */
  datatype Tile = Tile(shape: seq<int>, handle: Handle)

  /** Number of elements: the product of the shape. */
  function Nelems(t: Tile): int
  {
    Prod(t.shape)
  }

  /** `stride[i]`: the distance between neighbours along axis i, the
      product of all earlier extents. */
  function Stride(t: Tile, i: int): int
    requires 0 <= i < |t.shape|
  {
    Prod(t.shape[..i])
  }

  /** `matrix_shape[i]`: the tile seen as a matrix whose rows run over the
      axes before i and whose columns run over axis i and the later ones. */
  function MatrixShape(t: Tile, i: int): (int, int)
    requires 0 <= i <= |t.shape|
  {
    (Prod(t.shape[..i]), Prod(t.shape[i..]))
  }

  /** Either split of a tile into a matrix keeps every element. */
  lemma MatrixShapeSplit(t: Tile, i: int)
    requires 0 <= i <= |t.shape|
    ensures MatrixShape(t, i).0 * MatrixShape(t, i).1 == Nelems(t)
  {
    assert t.shape == t.shape[..i] + t.shape[i..];
    ProdAppend(t.shape[..i], t.shape[i..]);
  }
}
