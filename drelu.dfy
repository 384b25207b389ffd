/** Submission of drelu tasks (src/starpu/drelu.cc): one buffer updated in
    place, the blob one Index. */
module Drelu {
  import opened Wrappers
  import opened Codelets
  import opened Starpu

  /** The task `submit<T>` inserts. */
  function TaskOf(p: Precision, nelems: int, data: Handle): (t: Task)
    ensures t.codelet == Typed(Drelu, p)
    ensures t.buffers == [Buffer(RW, data)]
    ensures t.args == IndexBlob(nelems) && t.flops == None
  {
    Task(Typed(Drelu, p), [Buffer(RW, data)], IndexBlob(nelems), None)
  }

  /** `cpu<T>`: nelems is the first Index of the blob, data interface 0. */
  function CpuWrapper(t: Task): Option<(int, Handle)>
  {
    if |t.buffers| < 1 then None
    else match FirstIndex(t.args)
      case None => None
      case Some(n) => Some((n, t.buffers[0].handle))
  }

  lemma WrapperSeesSubmit(p: Precision, nelems: int, data: Handle)
    ensures CpuWrapper(TaskOf(p, nelems, data)) == Some((nelems, data))
    ensures ReadsOld(TaskOf(p, nelems, data).buffers[0].mode) && Writes(TaskOf(p, nelems, data).buffers[0].mode)
  {
  }

  /** `submit<T>`: inserts one task; a nonzero return code (the oracle
      `ret`) becomes the error. */
  method Submit(rt: Runtime, p: Precision, nelems: int, data: Handle, ret: int) returns (o: Outcome)
    modifies rt
    ensures o == (if ret == 0 then Pass else Fail("Error in drelu task submission"))
    ensures rt.log == old(rt.log) + (if ret == 0 then [Submitted(TaskOf(p, nelems, data))] else [])
    ensures rt.initialized == old(rt.initialized) && rt.owner == old(rt.owner)
    ensures old(rt.Valid()) ==> rt.Valid()
  {
    var nelemsBlob := IndexBlob(nelems);
    LookupPrecision(Drelu, p);
    var cl := Lookup(Drelu, TypeOf(p)).value;
    var ok := rt.Insert(Task(cl, [Buffer(RW, data)], nelemsBlob, None), ret);
    if !ok {
      return Fail("Error in drelu task submission");
    }
    return Pass;
  }

  /** `init`: both codelets without a footprint. */
  method Init(reg: Registry, useCuda: bool)
    modifies reg
    ensures reg.codelets == old(reg.codelets)[Typed(Drelu, P32) := Standard(Drelu, "nntile_drelu_", P32, false, useCuda)]
                                             [Typed(Drelu, P64) := Standard(Drelu, "nntile_drelu_", P64, false, useCuda)]
    ensures reg.codelets[Typed(Drelu, P32)].footprint == NoFootprint
    ensures reg.codelets[Typed(Drelu, P64)].footprint == NoFootprint
    ensures reg.restricted == old(reg.restricted)
  {
    InitStandard(reg, Drelu, "nntile_drelu_", false, useCuda);
  }
}
