/** Submission of hypot_scalar_inverse tasks
    (src/starpu/hypot_scalar_inverse.cc): one buffer updated in place. */
module HypotScalarInverse {
  import opened Wrappers
  import opened Codelets
  import opened Starpu

  /** `args_t<T>` of hypot_scalar_inverse. */
  datatype Args = Args(nelems: int, eps: real, alpha: real)

  function Pack(a: Args): seq<Value>
  {
    [IndexV(a.nelems), RealV(a.eps), RealV(a.alpha)]
  }

  function Unpack(blob: seq<Value>): Option<Args>
  {
    if |blob| == 3 && blob[0].IndexV? && blob[1].RealV? && blob[2].RealV?
    then Some(Args(blob[0].i, blob[1].x, blob[2].x))
    else None
  }

  lemma PackRoundTrip(a: Args, blob: seq<Value>)
    ensures Unpack(Pack(a)) == Some(a)
    ensures Unpack(blob) == Some(a) ==> Pack(a) == blob
  {
  }

  /** The task `submit<T>` inserts: dst alone, read and written. */
  function TaskOf(p: Precision, a: Args, dst: Handle): (t: Task)
    ensures t.codelet == Typed(HypotScalarInverse, p)
    ensures t.buffers == [Buffer(RW, dst)]
    ensures Unpack(t.args) == Some(a)
    ensures t.flops == None
  {
    Task(Typed(HypotScalarInverse, p), [Buffer(RW, dst)], Pack(a), None)
  }

  /** `cpu<T>`: dst is interface 0; nelems, eps and alpha come from the blob. */
  function CpuWrapper(t: Task): Option<(Args, Handle)>
  {
    if |t.buffers| < 1 then None
    else match Unpack(t.args)
      case None => None
      case Some(a) => Some((a, t.buffers[0].handle))
  }

  lemma WrapperSeesSubmit(p: Precision, a: Args, dst: Handle)
    ensures CpuWrapper(TaskOf(p, a, dst)) == Some((a, dst))
    ensures ReadsOld(TaskOf(p, a, dst).buffers[0].mode) && Writes(TaskOf(p, a, dst).buffers[0].mode)
  {
  }

  /** `submit<T>`: inserts one task; a nonzero return code (the oracle
      `ret`) becomes the error. */
  method Submit(rt: Runtime, p: Precision, nelems: int, eps: real, alpha: real, dst: Handle, ret: int)
    returns (o: Outcome)
    modifies rt
    ensures o == (if ret == 0 then Pass else Fail("Error in hypot_scalar_inverse task submission"))
    ensures rt.log == old(rt.log) + (if ret == 0 then [Submitted(TaskOf(p, Args(nelems, eps, alpha), dst))] else [])
    ensures rt.initialized == old(rt.initialized) && rt.owner == old(rt.owner)
    ensures old(rt.Valid()) ==> rt.Valid()
  {
    var args := Pack(Args(nelems, eps, alpha));
    LookupPrecision(HypotScalarInverse, p);
    var cl := Lookup(HypotScalarInverse, TypeOf(p)).value;
    var ok := rt.Insert(Task(cl, [Buffer(RW, dst)], args, None), ret);
    if !ok {
      return Fail("Error in hypot_scalar_inverse task submission");
    }
    return Pass;
  }

  /** `init`: both codelets without a footprint. */
  method Init(reg: Registry, useCuda: bool)
    modifies reg
    ensures reg.codelets == old(reg.codelets)[Typed(HypotScalarInverse, P32) := Standard(HypotScalarInverse, "nntile_hypot_scalar_inverse_", P32, false, useCuda)]
                                             [Typed(HypotScalarInverse, P64) := Standard(HypotScalarInverse, "nntile_hypot_scalar_inverse_", P64, false, useCuda)]
    ensures reg.codelets[Typed(HypotScalarInverse, P32)].footprint == NoFootprint
    ensures reg.codelets[Typed(HypotScalarInverse, P64)].footprint == NoFootprint
    ensures reg.restricted == old(reg.restricted)
  {
    InitStandard(reg, HypotScalarInverse, "nntile_hypot_scalar_inverse_", false, useCuda);
  }
}
