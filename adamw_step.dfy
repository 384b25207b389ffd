/** Submission of AdamW optimiser steps (src/starpu/adamw_step.cc). */
module AdamwStep {
  import opened Wrappers
  import opened Codelets
  import opened Starpu

  /** `args_t<T>` of adamw_step. */
  datatype Args = Args(numIter: int, numElems: int, beta1: real, beta2: real, eps: real, lr: real, weightDecay: real)

  /** The fields in the order submit fills them. */
  function Pack(a: Args): seq<Value>
  {
    [IndexV(a.numIter), IndexV(a.numElems), RealV(a.beta1), RealV(a.beta2), RealV(a.eps), RealV(a.lr), RealV(a.weightDecay)]
  }

  /** How the wrapper reads the blob back. */
  function Unpack(blob: seq<Value>): Option<Args>
  {
    if |blob| == 7 && blob[0].IndexV? && blob[1].IndexV? && blob[2].RealV? && blob[3].RealV?
       && blob[4].RealV? && blob[5].RealV? && blob[6].RealV?
    then Some(Args(blob[0].i, blob[1].i, blob[2].x, blob[3].x, blob[4].x, blob[5].x, blob[6].x))
    else None
  }

  /** Packing and unpacking are inverse to each other. */
  lemma PackRoundTrip(a: Args, blob: seq<Value>)
    ensures Unpack(Pack(a)) == Some(a)
    ensures Unpack(blob) == Some(a) ==> Pack(a) == blob
  {
  }

  /** Access mode of both moment buffers. */
  function MomentsMode(numIter: int): Mode
  {
    if numIter == 1 then W else RW
  }

  /** The first iteration overwrites the moments without reading them;
      every other iteration updates them in place. */
  lemma MomentsModeReadsOld(numIter: int)
    ensures ReadsOld(MomentsMode(numIter)) <==> numIter != 1
    ensures Writes(MomentsMode(numIter))
    ensures MomentsMode(numIter) == W || MomentsMode(numIter) == RW
  {
  }

  /** The task that `submit<T>` inserts: grad, first_moment, second_moment
      and p, with no flop count. */
  function TaskOf(p: Precision, a: Args, grad: Handle, first: Handle, second: Handle, param: Handle): (t: Task)
    ensures t.codelet == Typed(AdamwStep, p)
    ensures t.buffers == [Buffer(R, grad), Buffer(MomentsMode(a.numIter), first),
                          Buffer(MomentsMode(a.numIter), second), Buffer(RW, param)]
    ensures Unpack(t.args) == Some(a)
    ensures t.flops == None
  {
    Task(Typed(AdamwStep, p),
         [Buffer(R, grad), Buffer(MomentsMode(a.numIter), first), Buffer(MomentsMode(a.numIter), second), Buffer(RW, param)],
         Pack(a), None)
  }

  /** What the CPU wrapper hands to the kernel. */
  datatype KernelCall = KernelCall(args: Args, grad: Handle, first: Handle, second: Handle, param: Handle)

  /** `cpu<T>`: grad, the two moments and p are interfaces 0 to 3. */
  function CpuWrapper(t: Task): Option<KernelCall>
  {
    if |t.buffers| < 4 then None
    else match Unpack(t.args)
      case None => None
      case Some(a) => Some(KernelCall(a, t.buffers[0].handle, t.buffers[1].handle, t.buffers[2].handle, t.buffers[3].handle))
  }

  /** The kernel run for a submitted task receives the submitted scalars
      and every handle in its role. */
  lemma WrapperSeesSubmit(p: Precision, a: Args, grad: Handle, first: Handle, second: Handle, param: Handle)
    ensures CpuWrapper(TaskOf(p, a, grad, first, second, param)) == Some(KernelCall(a, grad, first, second, param))
  {
  }

  /** `submit<T>`: inserts one task; a nonzero return code (the oracle
      `ret`) becomes the error. */
  method Submit(rt: Runtime, p: Precision, numIter: int, numElems: int, beta1: real, beta2: real, eps: real,
                lr: real, weightDecay: real, grad: Handle, first: Handle, second: Handle, param: Handle, ret: int)
    returns (o: Outcome)
    modifies rt
    ensures o == (if ret == 0 then Pass else Fail("Error in adamw_step task submission"))
    ensures rt.log == old(rt.log) + (if ret == 0 then [Submitted(TaskOf(p, Args(numIter, numElems, beta1, beta2, eps, lr, weightDecay),
                                                                         grad, first, second, param))] else [])
    ensures rt.initialized == old(rt.initialized) && rt.owner == old(rt.owner)
    ensures old(rt.Valid()) ==> rt.Valid()
  {
    var args := Pack(Args(numIter, numElems, beta1, beta2, eps, lr, weightDecay));
    var momentsMode: Mode;
    if numIter == 1 {
      momentsMode := W;
    } else {
      momentsMode := RW;
    }
    LookupPrecision(AdamwStep, p);
    var cl := Lookup(AdamwStep, TypeOf(p)).value;
    var ok := rt.Insert(Task(cl, [Buffer(R, grad), Buffer(momentsMode, first), Buffer(momentsMode, second), Buffer(RW, param)],
                             args, None), ret);
    if !ok {
      return Fail("Error in adamw_step task submission");
    }
    return Pass;
  }

  /** `init`: both codelets without a footprint. */
  method Init(reg: Registry, useCuda: bool)
    modifies reg
    ensures reg.codelets == old(reg.codelets)[Typed(AdamwStep, P32) := Standard(AdamwStep, "nntile_adamw_step_", P32, false, useCuda)]
                                             [Typed(AdamwStep, P64) := Standard(AdamwStep, "nntile_adamw_step_", P64, false, useCuda)]
    ensures reg.codelets[Typed(AdamwStep, P32)].footprint == NoFootprint
    ensures reg.codelets[Typed(AdamwStep, P64)].footprint == NoFootprint
    ensures reg.restricted == old(reg.restricted)
  {
    InitStandard(reg, AdamwStep, "nntile_adamw_step_", false, useCuda);
  }
}
