/** Submission of logsumexp tasks (src/starpu/logsumexp.cc): reads the
    (max, sum of exponents) pairs and overwrites the output. */
module Logsumexp {
  import opened Wrappers
  import opened Codelets
  import opened Starpu

  /** The task `submit<T>` inserts: maxsumexp read-only, logsumexp
      write-only, the blob one Index. */
  function TaskOf(p: Precision, nelems: int, maxsumexp: Handle, logsumexp: Handle): (t: Task)
    ensures t.codelet == Typed(Logsumexp, p)
    ensures t.buffers == [Buffer(R, maxsumexp), Buffer(W, logsumexp)]
    ensures t.args == IndexBlob(nelems) && t.flops == None
  {
    Task(Typed(Logsumexp, p), [Buffer(R, maxsumexp), Buffer(W, logsumexp)], IndexBlob(nelems), None)
  }

  /** `cpu<T>`: nelems is the first Index of the blob; maxsumexp and
      logsumexp are interfaces 0 and 1. */
  function CpuWrapper(t: Task): Option<(int, Handle, Handle)>
  {
    if |t.buffers| < 2 then None
    else match FirstIndex(t.args)
      case None => None
      case Some(n) => Some((n, t.buffers[0].handle, t.buffers[1].handle))
  }

  /** The kernel gets nelems back and each handle in its role; the output
      does not depend on its old content and the input is not written. */
  lemma WrapperSeesSubmit(p: Precision, nelems: int, maxsumexp: Handle, logsumexp: Handle)
    ensures CpuWrapper(TaskOf(p, nelems, maxsumexp, logsumexp)) == Some((nelems, maxsumexp, logsumexp))
    ensures !ReadsOld(TaskOf(p, nelems, maxsumexp, logsumexp).buffers[1].mode)
    ensures !Writes(TaskOf(p, nelems, maxsumexp, logsumexp).buffers[0].mode)
  {
  }

  /** `submit<T>`: inserts one task; a nonzero return code (the oracle
      `ret`) becomes the error. */
  method Submit(rt: Runtime, p: Precision, nelems: int, maxsumexp: Handle, logsumexp: Handle, ret: int)
    returns (o: Outcome)
    modifies rt
    ensures o == (if ret == 0 then Pass else Fail("Error in logsumexp task submission"))
    ensures rt.log == old(rt.log) + (if ret == 0 then [Submitted(TaskOf(p, nelems, maxsumexp, logsumexp))] else [])
    ensures rt.initialized == old(rt.initialized) && rt.owner == old(rt.owner)
    ensures old(rt.Valid()) ==> rt.Valid()
  {
    var nelemsBlob := IndexBlob(nelems);
    LookupPrecision(Logsumexp, p);
    var cl := Lookup(Logsumexp, TypeOf(p)).value;
    var ok := rt.Insert(Task(cl, [Buffer(R, maxsumexp), Buffer(W, logsumexp)], nelemsBlob, None), ret);
    if !ok {
      return Fail("Error in logsumexp task submission");
    }
    return Pass;
  }

  /** `init`: both codelets without a footprint. */
  method Init(reg: Registry, useCuda: bool)
    modifies reg
    ensures reg.codelets == old(reg.codelets)[Typed(Logsumexp, P32) := Standard(Logsumexp, "nntile_logsumexp_", P32, false, useCuda)]
                                             [Typed(Logsumexp, P64) := Standard(Logsumexp, "nntile_logsumexp_", P64, false, useCuda)]
    ensures reg.codelets[Typed(Logsumexp, P32)].footprint == NoFootprint
    ensures reg.codelets[Typed(Logsumexp, P64)].footprint == NoFootprint
    ensures reg.restricted == old(reg.restricted)
  {
    InitStandard(reg, Logsumexp, "nntile_logsumexp_", false, useCuda);
  }
}
