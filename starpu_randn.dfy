/** Submission of randn tasks (src/starpu/randn.cc): a regular codelet for
    outputs with at least one dimension and an `_ndim0` codelet for
    0-dimensional outputs. */
module StarpuRandn {
  import opened Wrappers
  import opened Codelets
  import opened Starpu

  /** The values packed for the regular codelet. */
  datatype Args = Args(ndim: int, nelems: int, seed: int, mean: real, stddev: real,
                       start: seq<int>, shape: seq<int>, stride: seq<int>, underlying: seq<int>)

  /** Every array in the blob holds exactly `ndim` entries. */
  predicate Sized(a: Args)
  {
    a.ndim >= 0 && |a.start| == a.ndim && |a.shape| == a.ndim && |a.stride| == a.ndim && |a.underlying| == a.ndim
  }

  /** The STARPU_VALUE fields in submission order. */
  function Pack(a: Args): seq<Value>
  {
    [IndexV(a.ndim), IndexV(a.nelems), SeedV(a.seed), RealV(a.mean), RealV(a.stddev),
     IndicesV(a.start), IndicesV(a.shape), IndicesV(a.stride), IndicesV(a.underlying)]
  }

  /** `unpack_args_ptr` in the order `cpu` and `footprint` use. */
  function Unpack(blob: seq<Value>): Option<Args>
  {
    if |blob| == 9 && blob[0].IndexV? && blob[1].IndexV? && blob[2].SeedV? && blob[3].RealV? && blob[4].RealV?
       && blob[5].IndicesV? && blob[6].IndicesV? && blob[7].IndicesV? && blob[8].IndicesV?
    then Some(Args(blob[0].i, blob[1].i, blob[2].s, blob[3].x, blob[4].x, blob[5].v, blob[6].v, blob[7].v, blob[8].v))
    else None
  }

  lemma PackRoundTrip(a: Args, blob: seq<Value>)
    ensures Unpack(Pack(a)) == Some(a)
    ensures Unpack(blob) == Some(a) ==> Pack(a) == blob
  {
  }

  /** The values packed for the `_ndim0` codelet. */
  datatype Args0 = Args0(seed: int, mean: real, stddev: real)

  function Pack0(a: Args0): seq<Value>
  {
    [SeedV(a.seed), RealV(a.mean), RealV(a.stddev)]
  }

  /** `unpack_args_ptr` of `cpu_ndim0`: exactly the three values. */
  function Unpack0(blob: seq<Value>): Option<Args0>
  {
    if |blob| == 3 && blob[0].SeedV? && blob[1].RealV? && blob[2].RealV?
    then Some(Args0(blob[0].s, blob[1].x, blob[2].x))
    else None
  }

  lemma Pack0RoundTrip(a: Args0, blob: seq<Value>)
    ensures Unpack0(Pack0(a)) == Some(a)
    ensures Unpack0(blob) == Some(a) ==> Pack0(a) == blob
    ensures Unpack(Pack0(a)) == None && Unpack0(blob) != None ==> Unpack(blob) == None
  {
  }

  /** `footprint<T>`: the `ndim` entries of shape fed to a hash seeded with 0. */
  function Footprint(a: Args): Hash
  {
    Crc(Seed(0), IndicesV(a.shape))
  }

  /** Two tasks share a footprint exactly when their shapes are equal;
      seed, mean, stddev, start, stride and the underlying shape are
      ignored. */
  lemma FootprintFields(a: Args, b: Args)
    requires Sized(a) && Sized(b)
    ensures Footprint(a) == Footprint(b) <==> a.shape == b.shape
    ensures Footprint(a) == Footprint(b) ==> a.ndim == b.ndim
  {
  }

  /** The values submit packs: every array cut to its first `ndim` entries. */
  function ArgsOf(ndim: int, nelems: int, seed: int, mean: real, stddev: real,
                  start: seq<int>, shape: seq<int>, stride: seq<int>, underlying: seq<int>): (a: Args)
    requires 0 <= ndim <= |start| && ndim <= |shape| && ndim <= |stride| && ndim <= |underlying|
    ensures Sized(a) && a.ndim == ndim && a.nelems == nelems && a.seed == seed && a.mean == mean && a.stddev == stddev
    ensures forall i :: 0 <= i < ndim ==>
              (a.start[i] == start[i] && a.shape[i] == shape[i] && a.stride[i] == stride[i] && a.underlying[i] == underlying[i])
  {
    Args(ndim, nelems, seed, mean, stddev, start[..ndim], shape[..ndim], stride[..ndim], underlying[..ndim])
  }

  /** The arrays submit reads: `ndim` entries of each when `ndim > 0`. */
  predicate ArraysCover(ndim: int, start: seq<int>, shape: seq<int>, stride: seq<int>, underlying: seq<int>)
  {
    ndim > 0 ==> ndim <= |start| && ndim <= |shape| && ndim <= |stride| && ndim <= |underlying|
  }

  /** The task submit inserts. */
  function TaskOf(p: Precision, ndim: int, nelems: int, seed: int, mean: real, stddev: real,
                  start: seq<int>, shape: seq<int>, stride: seq<int>, underlying: seq<int>,
                  data: Handle, tmpIndex: Handle): (t: Task)
    requires ArraysCover(ndim, start, shape, stride, underlying)
    ensures ndim > 0 ==> t.codelet == Typed(Randn, p) && t.buffers == [Buffer(W, data), Buffer(Scratch, tmpIndex)]
    ensures ndim > 0 ==> Unpack(t.args) == Some(ArgsOf(ndim, nelems, seed, mean, stddev, start, shape, stride, underlying))
    ensures ndim <= 0 ==> t.codelet == RandnNdim0(p) && t.buffers == [Buffer(W, data)]
    ensures ndim <= 0 ==> Unpack0(t.args) == Some(Args0(seed, mean, stddev))
    ensures t.flops == Some(2 * nelems)
  {
    if ndim > 0 then
      Task(Typed(Randn, p), [Buffer(W, data), Buffer(Scratch, tmpIndex)],
           Pack(ArgsOf(ndim, nelems, seed, mean, stddev, start, shape, stride, underlying)), Some(2 * nelems))
    else
      Task(RandnNdim0(p), [Buffer(W, data)], Pack0(Args0(seed, mean, stddev)), Some(2 * nelems))
  }

  /** What `cpu<T>` hands to the kernel, in the kernel's parameter order
      (which puts underlying_shape before stride, unlike the blob). */
  datatype KernelCall = KernelCall(ndim: int, nelems: int, seed: int, mean: real, stddev: real,
                                   start: seq<int>, shape: seq<int>, underlying: seq<int>,
                                   data: Handle, stride: seq<int>, tmpIndex: Handle)

  /** `cpu<T>`: data is interface 0 and tmp_index interface 1. */
  function CpuWrapper(t: Task): Option<KernelCall>
  {
    if |t.buffers| < 2 then None
    else match Unpack(t.args)
      case None => None
      case Some(a) => Some(KernelCall(a.ndim, a.nelems, a.seed, a.mean, a.stddev, a.start, a.shape, a.underlying,
                                      t.buffers[0].handle, a.stride, t.buffers[1].handle))
  }

  /** `cpu_ndim0<T>`: the three scalars and the data handle. */
  function CpuNdim0Wrapper(t: Task): Option<(Args0, Handle)>
  {
    if |t.buffers| < 1 then None
    else match Unpack0(t.args)
      case None => None
      case Some(a) => Some((a, t.buffers[0].handle))
  }

  /** The kernel run for a submitted task receives the submitted values:
      the regular kernel each array in its own role, the ndim0 kernel just
      seed, mean and stddev. */
  lemma WrapperSeesSubmit(p: Precision, ndim: int, nelems: int, seed: int, mean: real, stddev: real,
                          start: seq<int>, shape: seq<int>, stride: seq<int>, underlying: seq<int>,
                          data: Handle, tmpIndex: Handle)
    requires ArraysCover(ndim, start, shape, stride, underlying)
    ensures ndim > 0 ==> CpuWrapper(TaskOf(p, ndim, nelems, seed, mean, stddev, start, shape, stride, underlying, data, tmpIndex))
                         == Some(KernelCall(ndim, nelems, seed, mean, stddev, start[..ndim], shape[..ndim], underlying[..ndim],
                                            data, stride[..ndim], tmpIndex))
    ensures ndim <= 0 ==> CpuNdim0Wrapper(TaskOf(p, ndim, nelems, seed, mean, stddev, start, shape, stride, underlying, data, tmpIndex))
                          == Some((Args0(seed, mean, stddev), data))
  {
  }

  /** `submit<T>`: picks the codelet by `ndim`, inserts one task and turns
      a nonzero return code (the oracle `ret`) into the error. */
  method Submit(rt: Runtime, p: Precision, ndim: int, nelems: int, seed: int, mean: real, stddev: real,
                start: seq<int>, shape: seq<int>, stride: seq<int>, underlying: seq<int>,
                data: Handle, tmpIndex: Handle, ret: int) returns (o: Outcome)
    requires ArraysCover(ndim, start, shape, stride, underlying)
    modifies rt
    ensures o == (if ret == 0 then Pass else Fail("Error in randn task submission"))
    ensures rt.log == old(rt.log) + (if ret == 0 then [Submitted(TaskOf(p, ndim, nelems, seed, mean, stddev, start, shape,
                                                                         stride, underlying, data, tmpIndex))] else [])
    ensures rt.initialized == old(rt.initialized) && rt.owner == old(rt.owner)
    ensures old(rt.Valid()) ==> rt.Valid()
  {
    var nflops := 2 * nelems;
    var ok: bool;
    LookupPrecision(Randn, p);
    if ndim > 0 {
      var cl := Lookup(Randn, TypeOf(p)).value;
      var values := [IndexV(ndim), IndexV(nelems), SeedV(seed), RealV(mean), RealV(stddev),
                     IndicesV(start[..ndim]), IndicesV(shape[..ndim]), IndicesV(stride[..ndim]), IndicesV(underlying[..ndim])];
      ok := rt.Insert(Task(cl, [Buffer(W, data), Buffer(Scratch, tmpIndex)], values, Some(nflops)), ret);
    } else {
      var cl := LookupNdim0(TypeOf(p)).value;
      ok := rt.Insert(Task(cl, [Buffer(W, data)], [SeedV(seed), RealV(mean), RealV(stddev)], Some(nflops)), ret);
    }
    if !ok {
      return Fail("Error in randn task submission");
    }
    return Pass;
  }

  /** The codelet for 0-dimensional outputs: the same name as the regular
      one, no footprint, only a CPU wrapper. */
  function Ndim0Codelet(p: Precision): (c: CodeletInfo)
    ensures c.footprint == NoFootprint && c.cuda == []
    ensures c.cpu == [Func(Cpu, RandnNdim0(p))]
  {
    CodeletInfo("nntile_randn_" + PrecName(p), NoFootprint, [Func(Cpu, RandnNdim0(p))], [])
  }

  /** Each ndim0 codelet reuses the name of the regular codelet of its
      precision, while the two precisions stay apart, and the regular ones
      carry the footprint. */
  lemma Ndim0Names(p: Precision)
    ensures Ndim0Codelet(p).name == Standard(Randn, "nntile_randn_", p, true, false).name
    ensures Standard(Randn, "nntile_randn_", p, true, false).footprint == FootprintOf(Randn, p)
    ensures Ndim0Codelet(P32).name != Ndim0Codelet(P64).name
  {
    SuffixDistinct("nntile_randn_");
  }

  /** `init`: four codelets, none with a CUDA wrapper. */
  method Init(reg: Registry)
    modifies reg
    ensures reg.codelets == old(reg.codelets)[Typed(Randn, P32) := Standard(Randn, "nntile_randn_", P32, true, false)]
                                             [Typed(Randn, P64) := Standard(Randn, "nntile_randn_", P64, true, false)]
                                             [RandnNdim0(P32) := Ndim0Codelet(P32)]
                                             [RandnNdim0(P64) := Ndim0Codelet(P64)]
    ensures reg.restricted == old(reg.restricted)
  {
    InitStandard(reg, Randn, "nntile_randn_", true, false);
    reg.InitCodelet(RandnNdim0(P32), Ndim0Codelet(P32));
    reg.InitCodelet(RandnNdim0(P64), Ndim0Codelet(P64));
  }

  /** `restrict_where`: all four codelets. */
  method RestrictWhere(reg: Registry, where: int)
    modifies reg
    ensures reg.restricted == old(reg.restricted)[Typed(Randn, P32) := where][Typed(Randn, P64) := where]
                                                 [RandnNdim0(P32) := where][RandnNdim0(P64) := where]
    ensures reg.codelets == old(reg.codelets)
  {
    reg.RestrictBoth(Randn, where);
    reg.RestrictWhere(RandnNdim0(P32), where);
    reg.RestrictWhere(RandnNdim0(P64), where);
  }

  /** `restore_where`: all four codelets. */
  method RestoreWhere(reg: Registry)
    modifies reg
    ensures reg.restricted == old(reg.restricted) - {Typed(Randn, P32), Typed(Randn, P64), RandnNdim0(P32), RandnNdim0(P64)}
    ensures reg.codelets == old(reg.codelets)
  {
    reg.RestoreBoth(Randn);
    reg.RestoreWhere(RandnNdim0(P32));
    reg.RestoreWhere(RandnNdim0(P64));
  }
}
