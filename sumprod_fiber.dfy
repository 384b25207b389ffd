/** Submission of sumprod_fiber tasks (src/starpu/sumprod_fiber.cc):
    dst = alpha * sum of src1 .* src2 over fibers + beta * dst, as a task
    whose access mode for dst depends on beta and on the redux flag. */
module SumprodFiber {
  import opened Wrappers
  import opened Codelets
  import opened Starpu

  /** `args_t<T>`: the blob passed with STARPU_CL_ARGS. */
  datatype Args = Args(m: int, n: int, k: int, alpha: real, beta: real)

  /** The blob's fields in declaration order. */
  function Pack(a: Args): seq<Value>
  {
    [IndexV(a.m), IndexV(a.n), IndexV(a.k), RealV(a.alpha), RealV(a.beta)]
  }

  /** How the wrappers and the footprint read the blob back. */
  function Unpack(blob: seq<Value>): Option<Args>
  {
    if |blob| == 5 && blob[0].IndexV? && blob[1].IndexV? && blob[2].IndexV?
       && blob[3].RealV? && blob[4].RealV?
    then Some(Args(blob[0].i, blob[1].i, blob[2].i, blob[3].x, blob[4].x))
    else None
  }

  /** Packing and unpacking are inverse to each other. */
  lemma PackRoundTrip(a: Args, blob: seq<Value>)
    ensures Unpack(Pack(a)) == Some(a)
    ensures Unpack(blob) == Some(a) ==> Pack(a) == blob
  {
  }

  /** The access mode of dst: no dependence on the old value when beta is 0;
      an accumulation (REDUX if asked for, commuting RW otherwise) when beta
      is 1; plain RW for any other beta. */
  function DstMode(beta: real, redux: int): (mode: Mode)
    ensures mode == W <==> beta == 0.0
    ensures mode == Redux <==> beta == 1.0 && redux != 0
    ensures mode == RWCommute <==> beta == 1.0 && redux == 0
    ensures mode == RW <==> beta != 0.0 && beta != 1.0
  {
    if beta == 0.0 then W
    else if beta == 1.0 then (if redux != 0 then Redux else RWCommute)
    else RW
  }

  /** The old dst is read exactly when beta is nonzero, and dst is always
      written. */
  lemma DstModeReadsOld(beta: real, redux: int)
    ensures ReadsOld(DstMode(beta, redux)) <==> beta != 0.0
    ensures Writes(DstMode(beta, redux))
  {
  }

  /** `footprint<T>`: the hash is seeded with all ones when alpha is zero
      and with zero otherwise, then fed m, n and k. */
  function Footprint(a: Args): Hash
  {
    Crc(Crc(Crc(Seed(if a.alpha == 0.0 then ALL_ONES else 0), IndexV(a.m)), IndexV(a.n)), IndexV(a.k))
  }

  /** Two tasks share a footprint exactly when they agree on whether alpha
      is zero and on m, n and k in that order; beta and the nonzero value of
      alpha do not matter. */
  lemma FootprintFields(a: Args, b: Args)
    ensures Footprint(a) == Footprint(b) <==>
            ((a.alpha == 0.0) == (b.alpha == 0.0) && a.m == b.m && a.n == b.n && a.k == b.k)
  {
  }

  /** The task that `submit<T>` inserts. */
  function TaskOf(p: Precision, m: int, n: int, k: int, alpha: real, src1: Handle, src2: Handle,
                  beta: real, dst: Handle, redux: int): (t: Task)
    ensures t.codelet == Typed(SumprodFiber, p)
    ensures t.buffers == [Buffer(R, src1), Buffer(R, src2), Buffer(DstMode(beta, redux), dst)]
    ensures Unpack(t.args) == Some(Args(m, n, k, alpha, beta))
    ensures t.flops == Some(2 * m * n * k)
  {
    Task(Typed(SumprodFiber, p), [Buffer(R, src1), Buffer(R, src2), Buffer(DstMode(beta, redux), dst)],
         Pack(Args(m, n, k, alpha, beta)), Some(k * (2 * m * n)))
  }

  /** What the CPU wrapper hands to the kernel. */
  datatype KernelCall = KernelCall(m: int, n: int, k: int, alpha: real, src1: Handle, src2: Handle, beta: real, dst: Handle)

  /** `cpu<T>`: src1, src2 and dst are interfaces 0, 1 and 2; the scalars
      come from the blob. */
  function CpuWrapper(t: Task): Option<KernelCall>
  {
    if |t.buffers| < 3 then None
    else match Unpack(t.args)
      case None => None
      case Some(a) => Some(KernelCall(a.m, a.n, a.k, a.alpha, t.buffers[0].handle, t.buffers[1].handle,
                                      a.beta, t.buffers[2].handle))
  }

  /** The kernel run for a submitted task receives exactly the arguments
      given to submit, with every handle in its role. */
  lemma WrapperSeesSubmit(p: Precision, m: int, n: int, k: int, alpha: real, src1: Handle, src2: Handle,
                          beta: real, dst: Handle, redux: int)
    ensures CpuWrapper(TaskOf(p, m, n, k, alpha, src1, src2, beta, dst, redux))
            == Some(KernelCall(m, n, k, alpha, src1, src2, beta, dst))
  {
  }

  /** `submit<T>`: inserts one task; a nonzero return code of the insertion
      (the oracle `ret`) becomes the error, with no retry. */
  method Submit(rt: Runtime, p: Precision, m: int, n: int, k: int, alpha: real, src1: Handle, src2: Handle,
                beta: real, dst: Handle, redux: int, ret: int) returns (o: Outcome)
    modifies rt
    ensures o == (if ret == 0 then Pass else Fail("Error in sumprod_fiber task submission"))
    ensures rt.log == old(rt.log) + (if ret == 0 then [Submitted(TaskOf(p, m, n, k, alpha, src1, src2, beta, dst, redux))] else [])
    ensures rt.initialized == old(rt.initialized) && rt.owner == old(rt.owner)
    ensures old(rt.Valid()) ==> rt.Valid()
  {
    var dstMode: Mode;
    if beta == 0.0 {
      dstMode := W;
    } else if beta == 1.0 {
      if redux != 0 {
        dstMode := Redux;
      } else {
        dstMode := RWCommute;
      }
    } else {
      dstMode := RW;
    }
    var args := Pack(Args(m, n, k, alpha, beta));
    var nflops := k * (2 * m * n);
    LookupPrecision(SumprodFiber, p);
    var cl := Lookup(SumprodFiber, TypeOf(p)).value;
    var ok := rt.Insert(Task(cl, [Buffer(R, src1), Buffer(R, src2), Buffer(dstMode, dst)], args, Some(nflops)), ret);
    if !ok {
      return Fail("Error in sumprod_fiber task submission");
    }
    return Pass;
  }

  /** `init`: both codelets carry the footprint and a CPU wrapper, and a
      CUDA wrapper only in a CUDA build. */
  method Init(reg: Registry, useCuda: bool)
    modifies reg
    ensures reg.codelets == old(reg.codelets)[Typed(SumprodFiber, P32) := Standard(SumprodFiber, "nntile_sumprod_fiber_", P32, true, useCuda)]
                                             [Typed(SumprodFiber, P64) := Standard(SumprodFiber, "nntile_sumprod_fiber_", P64, true, useCuda)]
    ensures reg.restricted == old(reg.restricted)
  {
    InitStandard(reg, SumprodFiber, "nntile_sumprod_fiber_", true, useCuda);
  }

  /** `restrict_where`: both codelets. */
  method RestrictWhere(reg: Registry, where: int)
    modifies reg
    ensures reg.restricted == old(reg.restricted)[Typed(SumprodFiber, P32) := where][Typed(SumprodFiber, P64) := where]
    ensures reg.codelets == old(reg.codelets)
  {
    reg.RestrictBoth(SumprodFiber, where);
  }

  /** `restore_where`: both codelets. */
  method RestoreWhere(reg: Registry)
    modifies reg
    ensures reg.restricted == old(reg.restricted) - {Typed(SumprodFiber, P32), Typed(SumprodFiber, P64)}
    ensures reg.codelets == old(reg.codelets)
  {
    reg.RestoreBoth(SumprodFiber);
  }
}
