/** Submission of sumprod_slice tasks (src/starpu/sumprod_slice.cc). The
    blob, the wrapper's buffer layout and the dst mode table are those of
    sumprod_fiber; the footprint and the flop count differ. */
module SumprodSlice {
  import opened Wrappers
  import opened Codelets
  import opened Starpu
  import F = SumprodFiber

  /** `footprint<T>`: m, n and k fed to a hash seeded with zero. */
  function Footprint(a: F.Args): Hash
  {
    Crc(Crc(Crc(Seed(0), IndexV(a.m)), IndexV(a.n)), IndexV(a.k))
  }

  /** Two tasks share a footprint exactly when they agree on m, n and k in
      that order; alpha and beta never matter, unlike for sumprod_fiber,
      whose footprint separates alpha == 0. */
  lemma FootprintFields(a: F.Args, b: F.Args)
    ensures Footprint(a) == Footprint(b) <==> (a.m == b.m && a.n == b.n && a.k == b.k)
    ensures a.m == b.m && a.n == b.n && a.k == b.k && (a.alpha == 0.0) != (b.alpha == 0.0)
            ==> Footprint(a) == Footprint(b) && F.Footprint(a) != F.Footprint(b)
  {
  }

  /** The task that `submit<T>` inserts. */
  function TaskOf(p: Precision, m: int, n: int, k: int, alpha: real, src1: Handle, src2: Handle,
                  beta: real, dst: Handle, redux: int): (t: Task)
    ensures t.codelet == Typed(SumprodSlice, p)
    ensures t.buffers == [Buffer(R, src1), Buffer(R, src2), Buffer(F.DstMode(beta, redux), dst)]
    ensures F.Unpack(t.args) == Some(F.Args(m, n, k, alpha, beta))
    ensures t.flops == Some(m * n * (2 * k + 3))
  {
    Task(Typed(SumprodSlice, p), [Buffer(R, src1), Buffer(R, src2), Buffer(F.DstMode(beta, redux), dst)],
         F.Pack(F.Args(m, n, k, alpha, beta)), Some(m * n * (2 * k + 3)))
  }

  /** The kernel run for a submitted task receives exactly the arguments
      given to submit: src1, src2 and dst are interfaces 0, 1 and 2. */
  lemma WrapperSeesSubmit(p: Precision, m: int, n: int, k: int, alpha: real, src1: Handle, src2: Handle,
                          beta: real, dst: Handle, redux: int)
    ensures F.CpuWrapper(TaskOf(p, m, n, k, alpha, src1, src2, beta, dst, redux))
            == Some(F.KernelCall(m, n, k, alpha, src1, src2, beta, dst))
  {
  }

  /** `submit<T>`: inserts one task; a nonzero return code (the oracle
      `ret`) becomes the error. */
  method Submit(rt: Runtime, p: Precision, m: int, n: int, k: int, alpha: real, src1: Handle, src2: Handle,
                beta: real, dst: Handle, redux: int, ret: int) returns (o: Outcome)
    modifies rt
    ensures o == (if ret == 0 then Pass else Fail("Error in sumprod_slice task submission"))
    ensures rt.log == old(rt.log) + (if ret == 0 then [Submitted(TaskOf(p, m, n, k, alpha, src1, src2, beta, dst, redux))] else [])
    ensures rt.initialized == old(rt.initialized) && rt.owner == old(rt.owner)
    ensures old(rt.Valid()) ==> rt.Valid()
  {
    var dstMode: Mode;
    if beta == 0.0 {
      dstMode := W;
    } else if beta == 1.0 {
      if redux != 0 {
        dstMode := Redux;
      } else {
        dstMode := RWCommute;
      }
    } else {
      dstMode := RW;
    }
    var args := F.Pack(F.Args(m, n, k, alpha, beta));
    var nflops := m * n * (2 * k + 3);
    LookupPrecision(SumprodSlice, p);
    var cl := Lookup(SumprodSlice, TypeOf(p)).value;
    var ok := rt.Insert(Task(cl, [Buffer(R, src1), Buffer(R, src2), Buffer(dstMode, dst)], args, Some(nflops)), ret);
    if !ok {
      return Fail("Error in sumprod_slice task submission");
    }
    return Pass;
  }

  /** `init`: both codelets carry the footprint. */
  method Init(reg: Registry, useCuda: bool)
    modifies reg
    ensures reg.codelets == old(reg.codelets)[Typed(SumprodSlice, P32) := Standard(SumprodSlice, "nntile_sumprod_slice_", P32, true, useCuda)]
                                             [Typed(SumprodSlice, P64) := Standard(SumprodSlice, "nntile_sumprod_slice_", P64, true, useCuda)]
    ensures reg.restricted == old(reg.restricted)
  {
    InitStandard(reg, SumprodSlice, "nntile_sumprod_slice_", true, useCuda);
  }

  /** `restrict_where`: both codelets. */
  method RestrictWhere(reg: Registry, where: int)
    modifies reg
    ensures reg.restricted == old(reg.restricted)[Typed(SumprodSlice, P32) := where][Typed(SumprodSlice, P64) := where]
    ensures reg.codelets == old(reg.codelets)
  {
    reg.RestrictBoth(SumprodSlice, where);
  }

  /** `restore_where`: both codelets. */
  method RestoreWhere(reg: Registry)
    modifies reg
    ensures reg.restricted == old(reg.restricted) - {Typed(SumprodSlice, P32), Typed(SumprodSlice, P64)}
    ensures reg.codelets == old(reg.codelets)
  {
    reg.RestoreBoth(SumprodSlice);
  }
}
