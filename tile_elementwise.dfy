/** Tile-level element-wise operations whose only logic is a shape check
    before one submission: addcdiv (src/tile/addcdiv.cc) and gelu_backward
    (src/tile/gelu_backward.cc). The StarPU-level submits they call are not
    part of this model, so each is recorded as one `Called` event carrying
    its arguments and handles in order. */
module TileElementwise {
  import opened Wrappers
  import opened Codelets
  import opened Starpu
  import opened TileTraits

  /** The checks of addcdiv_async, in order. */
  function AddcdivCheck(nom: seq<int>, denom: seq<int>, src: seq<int>): (o: Outcome)
    ensures o.Pass? <==> nom == denom && denom == src
  {
    if nom != denom then Fail("Shapes of nominator and denominator are not equal")
    else if nom != src then Fail("Nominator shape is not equal to src shape")
    else Pass
  }

  /** The call `starpu::addcdiv::submit<T>(val, eps, src.nelems, nom, denom, src)`. */
  function AddcdivCall(p: Precision, val: real, eps: real, nom: Tile, denom: Tile, src: Tile): Event
  {
    Called("addcdiv", TypeOf(p), [RealV(val), RealV(eps), IndexV(Nelems(src))], [nom.handle, denom.handle, src.handle])
  }

  /** `addcdiv_async<T>`: both checks precede the single submission. */
  method AddcdivAsync(rt: Runtime, p: Precision, val: real, eps: real, nom: Tile, denom: Tile, src: Tile)
    returns (o: Outcome)
    modifies rt
    ensures o == AddcdivCheck(nom.shape, denom.shape, src.shape)
    ensures rt.log == old(rt.log) + (if o.Pass? then [AddcdivCall(p, val, eps, nom, denom, src)] else [])
    ensures rt.initialized == old(rt.initialized) && rt.owner == old(rt.owner)
    ensures old(rt.Valid()) ==> rt.Valid()
  {
    if nom.shape != denom.shape {
      return Fail("Shapes of nominator and denominator are not equal");
    }
    if nom.shape != src.shape {
      return Fail("Nominator shape is not equal to src shape");
    }
    rt.Record(AddcdivCall(p, val, eps, nom, denom, src));
    return Pass;
  }

  /** `addcdiv<T>`: the async form, then a wait for all tasks. */
  method Addcdiv(rt: Runtime, p: Precision, val: real, eps: real, nom: Tile, denom: Tile, src: Tile)
    returns (o: Outcome)
    modifies rt
    ensures o == AddcdivCheck(nom.shape, denom.shape, src.shape)
    ensures rt.log == old(rt.log) + (if o.Pass? then [AddcdivCall(p, val, eps, nom, denom, src), WaitForAll] else [])
    ensures rt.initialized == old(rt.initialized) && rt.owner == old(rt.owner)
    ensures old(rt.Valid()) ==> rt.Valid()
  {
    o := AddcdivAsync(rt, p, val, eps, nom, denom, src);
    if o.Fail? {
      return;
    }
    rt.WaitAll();
  }

  /** The element count passed on is that of every one of the three tiles
      once the checks pass. */
  lemma AddcdivNelems(nom: Tile, denom: Tile, src: Tile)
    requires AddcdivCheck(nom.shape, denom.shape, src.shape).Pass?
    ensures Nelems(nom) == Nelems(denom) == Nelems(src)
  {
  }

  /** The checks of gelu_backward_async, in order. */
  function GeluBackwardCheck(x: seq<int>, dy: seq<int>, dx: seq<int>): (o: Outcome)
    ensures o.Pass? <==> x == dy && x == dx
  {
    if x != dy then Fail("x.shape != dy.shape")
    else if x != dx then Fail("x.shape != dx.shape")
    else Pass
  }

  /** The call `starpu::gelu_backward::submit<T>(x.nelems, x, dy, dx)`. */
  function GeluBackwardCall(p: Precision, x: Tile, dy: Tile, dx: Tile): Event
  {
    Called("gelu_backward", TypeOf(p), [IndexV(Nelems(x))], [x.handle, dy.handle, dx.handle])
  }

  /** `gelu_backward_async<T>`: both checks precede the single submission. */
  method GeluBackwardAsync(rt: Runtime, p: Precision, x: Tile, dy: Tile, dx: Tile) returns (o: Outcome)
    modifies rt
    ensures o == GeluBackwardCheck(x.shape, dy.shape, dx.shape)
    ensures rt.log == old(rt.log) + (if o.Pass? then [GeluBackwardCall(p, x, dy, dx)] else [])
    ensures rt.initialized == old(rt.initialized) && rt.owner == old(rt.owner)
    ensures old(rt.Valid()) ==> rt.Valid()
  {
    if x.shape != dy.shape {
      return Fail("x.shape != dy.shape");
    }
    if x.shape != dx.shape {
      return Fail("x.shape != dx.shape");
    }
    rt.Record(GeluBackwardCall(p, x, dy, dx));
    return Pass;
  }

  /** `gelu_backward<T>`: the async form, then a wait for all tasks. */
  method GeluBackward(rt: Runtime, p: Precision, x: Tile, dy: Tile, dx: Tile) returns (o: Outcome)
    modifies rt
    ensures o == GeluBackwardCheck(x.shape, dy.shape, dx.shape)
    ensures rt.log == old(rt.log) + (if o.Pass? then [GeluBackwardCall(p, x, dy, dx), WaitForAll] else [])
    ensures rt.initialized == old(rt.initialized) && rt.owner == old(rt.owner)
    ensures old(rt.Valid()) ==> rt.Valid()
  {
    o := GeluBackwardAsync(rt, p, x, dy, dx);
    if o.Fail? {
      return;
    }
    rt.WaitAll();
  }
}
