/** Conversion of fp32 buffers to fp16 (src/starpu/fp32_to_fp16.cc): a
    single codelet, not templated on the element type, whose wrappers exist
    only in CUDA builds. */
module Fp32ToFp16Codelet {
  import opened Wrappers
  import opened Codelets
  import opened Starpu

  /** What `init` installs: no footprint, and the CPU and CUDA wrappers in
      a CUDA build, no wrapper at all otherwise. */
  function Codelet(useCuda: bool): (c: CodeletInfo)
    ensures c.name == "nntile_fp32_to_fp16" && c.footprint == NoFootprint
    ensures useCuda ==> c.cpu == [Func(Cpu, Fp32ToFp16)] && c.cuda == [Func(Cuda, Fp32ToFp16)]
    ensures !useCuda ==> c.cpu == [] && c.cuda == []
  {
    if useCuda then CodeletInfo("nntile_fp32_to_fp16", NoFootprint, [Func(Cpu, Fp32ToFp16)], [Func(Cuda, Fp32ToFp16)])
    else CodeletInfo("nntile_fp32_to_fp16", NoFootprint, [], [])
  }

  /** The codelet can run somewhere exactly in a CUDA build. */
  lemma BackendsIffCuda(useCuda: bool)
    ensures |Codelet(useCuda).cpu| + |Codelet(useCuda).cuda| > 0 <==> useCuda
  {
  }

  /** `init`. */
  method Init(reg: Registry, useCuda: bool)
    modifies reg
    ensures reg.codelets == old(reg.codelets)[Fp32ToFp16 := Codelet(useCuda)]
    ensures reg.restricted == old(reg.restricted)
  {
    reg.InitCodelet(Fp32ToFp16, Codelet(useCuda));
  }

  /** `restrict_where`. */
  method RestrictWhere(reg: Registry, where: int)
    modifies reg
    ensures reg.restricted == old(reg.restricted)[Fp32ToFp16 := where]
    ensures reg.codelets == old(reg.codelets)
  {
    reg.RestrictWhere(Fp32ToFp16, where);
  }

  /** `restore_where`. */
  method RestoreWhere(reg: Registry)
    modifies reg
    ensures reg.restricted == old(reg.restricted) - {Fp32ToFp16}
    ensures reg.codelets == old(reg.codelets)
  {
    reg.RestoreWhere(Fp32ToFp16);
  }

  /** The task `submit` inserts: src read-only, dst write-only. */
  function TaskOf(nelems: int, src: Handle, dst: Handle): (t: Task)
    ensures t.codelet == Fp32ToFp16
    ensures t.buffers == [Buffer(R, src), Buffer(W, dst)]
    ensures t.args == IndexBlob(nelems) && t.flops == None
  {
    Task(Fp32ToFp16, [Buffer(R, src), Buffer(W, dst)], IndexBlob(nelems), None)
  }

  /** The CPU and CUDA wrappers: nelems is the first Index, src and dst
      interfaces 0 and 1. */
  function Wrapper(t: Task): Option<(int, Handle, Handle)>
  {
    if |t.buffers| < 2 then None
    else match FirstIndex(t.args)
      case None => None
      case Some(n) => Some((n, t.buffers[0].handle, t.buffers[1].handle))
  }

  lemma WrapperSeesSubmit(nelems: int, src: Handle, dst: Handle)
    ensures Wrapper(TaskOf(nelems, src, dst)) == Some((nelems, src, dst))
    ensures !ReadsOld(TaskOf(nelems, src, dst).buffers[1].mode) && !Writes(TaskOf(nelems, src, dst).buffers[0].mode)
  {
  }

  /** `submit`: inserts one task; a nonzero return code (the oracle `ret`)
      becomes the error. */
  method Submit(rt: Runtime, nelems: int, src: Handle, dst: Handle, ret: int) returns (o: Outcome)
    modifies rt
    ensures o == (if ret == 0 then Pass else Fail("Error in fp32_to_fp16 task submission"))
    ensures rt.log == old(rt.log) + (if ret == 0 then [Submitted(TaskOf(nelems, src, dst))] else [])
    ensures rt.initialized == old(rt.initialized) && rt.owner == old(rt.owner)
    ensures old(rt.Valid()) ==> rt.Valid()
  {
    var nelemsBlob := IndexBlob(nelems);
    var ok := rt.Insert(Task(Fp32ToFp16, [Buffer(R, src), Buffer(W, dst)], nelemsBlob, None), ret);
    if !ok {
      return Fail("Error in fp32_to_fp16 task submission");
    }
    return Pass;
  }
}
