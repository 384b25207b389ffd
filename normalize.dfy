/** Submission of normalize tasks (src/starpu/normalize.cc): renormalise
    dst along its middle axis from sums and norms, with gamma and beta kept
    side by side in one two-element buffer. */
module Normalize {
  import opened Wrappers
  import opened Codelets
  import opened Starpu

  /** `args_t<T>` of normalize. */
  datatype Args = Args(m: int, n: int, k: int, l: int, eps: real)

  /** The fields in designated-initialiser order. */
  function Pack(a: Args): seq<Value>
  {
    [IndexV(a.m), IndexV(a.n), IndexV(a.k), IndexV(a.l), RealV(a.eps)]
  }

  /** How the wrapper and the footprint read the blob back. */
  function Unpack(blob: seq<Value>): Option<Args>
  {
    if |blob| == 5 && blob[0].IndexV? && blob[1].IndexV? && blob[2].IndexV? && blob[3].IndexV? && blob[4].RealV?
    then Some(Args(blob[0].i, blob[1].i, blob[2].i, blob[3].i, blob[4].x))
    else None
  }

  lemma PackRoundTrip(a: Args, blob: seq<Value>)
    ensures Unpack(Pack(a)) == Some(a)
    ensures Unpack(blob) == Some(a) ==> Pack(a) == blob
  {
  }

  /** `footprint<T>`: m, n and k fed in that order to a hash seeded with 0. */
  function Footprint(a: Args): Hash
  {
    Crc(Crc(Crc(Seed(0), IndexV(a.m)), IndexV(a.n)), IndexV(a.k))
  }

  /** Two tasks share a footprint exactly when they agree on m, n and k;
      swapping two different sizes changes it, l and eps never matter. */
  lemma FootprintFields(a: Args, b: Args)
    ensures Footprint(a) == Footprint(b) <==> (a.m == b.m && a.n == b.n && a.k == b.k)
    ensures a.m != a.n ==> Footprint(a) != Footprint(a.(m := a.n, n := a.m))
  {
  }

  /** The task `submit<T>` inserts. */
  function TaskOf(p: Precision, a: Args, gammaBeta: Handle, sumnorm: Handle, dst: Handle): (t: Task)
    ensures t.codelet == Typed(Normalize, p)
    ensures t.buffers == [Buffer(R, gammaBeta), Buffer(R, sumnorm), Buffer(RW, dst)]
    ensures Unpack(t.args) == Some(a)
    ensures t.flops == Some(14 * a.m * a.n * a.k)
  {
    Task(Typed(Normalize, p), [Buffer(R, gammaBeta), Buffer(R, sumnorm), Buffer(RW, dst)], Pack(a),
         Some(14 * a.m * a.n * a.k))
  }

  /** An element of a buffer: handle and element offset. */
  datatype ElemRef = ElemRef(handle: Handle, offset: nat)

  /** What the CPU wrapper hands to the kernel. */
  datatype KernelCall = KernelCall(args: Args, gamma: ElemRef, beta: ElemRef, sumnorm: Handle, dst: Handle)

  /** `cpu<T>`: gamma is element 0 and beta element 1 of interface 0;
      sumnorm and dst are interfaces 1 and 2. */
  function CpuWrapper(t: Task): Option<KernelCall>
  {
    if |t.buffers| < 3 then None
    else match Unpack(t.args)
      case None => None
      case Some(a) => Some(KernelCall(a, ElemRef(t.buffers[0].handle, 0), ElemRef(t.buffers[0].handle, 1),
                                      t.buffers[1].handle, t.buffers[2].handle))
  }

  /** For a submitted task the kernel reads gamma and beta from the
      gamma_beta buffer, as two distinct consecutive elements, and gets the
      other handles in their roles. */
  lemma WrapperSeesSubmit(p: Precision, a: Args, gammaBeta: Handle, sumnorm: Handle, dst: Handle)
    ensures CpuWrapper(TaskOf(p, a, gammaBeta, sumnorm, dst))
            == Some(KernelCall(a, ElemRef(gammaBeta, 0), ElemRef(gammaBeta, 1), sumnorm, dst))
    ensures CpuWrapper(TaskOf(p, a, gammaBeta, sumnorm, dst)).value.gamma != CpuWrapper(TaskOf(p, a, gammaBeta, sumnorm, dst)).value.beta
  {
  }

  /** `submit<T>`: inserts one task; a nonzero return code (the oracle
      `ret`) becomes the error. */
  method Submit(rt: Runtime, p: Precision, m: int, n: int, k: int, l: int, eps: real,
                gammaBeta: Handle, sumnorm: Handle, dst: Handle, ret: int) returns (o: Outcome)
    modifies rt
    ensures o == (if ret == 0 then Pass else Fail("Error in normalize task submission"))
    ensures rt.log == old(rt.log) + (if ret == 0 then [Submitted(TaskOf(p, Args(m, n, k, l, eps), gammaBeta, sumnorm, dst))] else [])
    ensures rt.initialized == old(rt.initialized) && rt.owner == old(rt.owner)
    ensures old(rt.Valid()) ==> rt.Valid()
  {
    var args := Pack(Args(m, n, k, l, eps));
    var nflops := 14 * m * n * k;
    LookupPrecision(Normalize, p);
    var cl := Lookup(Normalize, TypeOf(p)).value;
    var ok := rt.Insert(Task(cl, [Buffer(R, gammaBeta), Buffer(R, sumnorm), Buffer(RW, dst)], args, Some(nflops)), ret);
    if !ok {
      return Fail("Error in normalize task submission");
    }
    return Pass;
  }

  /** `init`: both codelets carry the footprint. */
  method Init(reg: Registry, useCuda: bool)
    modifies reg
    ensures reg.codelets == old(reg.codelets)[Typed(Normalize, P32) := Standard(Normalize, "nntile_normalize_", P32, true, useCuda)]
                                             [Typed(Normalize, P64) := Standard(Normalize, "nntile_normalize_", P64, true, useCuda)]
    ensures reg.restricted == old(reg.restricted)
  {
    InitStandard(reg, Normalize, "nntile_normalize_", true, useCuda);
  }
}
