/** Codelets: the named, backend-polymorphic descriptions of a computation
    that every task refers to, and the per-element-type dispatch that picks
    one of them (`codelet<T>()` in the StarPU headers). */
module Codelets {
  import opened Wrappers

  /** Element types a template may be instantiated with. Only fp32_t and
      fp64_t have codelets; the others stand for every other type. */
  datatype ElemType = Fp32T | Fp64T | Fp16T | IndexT | BoolT

  /** The two element types that have codelets. */
  datatype Precision = P32 | P64

  /** The element type of a precision. */
  function TypeOf(p: Precision): ElemType
  {
    match p
    case P32 => Fp32T
    case P64 => Fp64T
  }

  /** Operations whose codelets come in one fp32 and one fp64 flavour. */
  datatype Op = SumprodFiber | SumprodSlice | AdamwStep | Randn | Normalize
              | HypotScalarInverse | Logsumexp | Drelu

  /** Identity of one global codelet object: `codelet_fp32`, `codelet_fp64`
      of an operation, randn's two `_ndim0` codelets, and the single
      codelet of fp32_to_fp16. */
  datatype CodeletId = Typed(op: Op, prec: Precision) | RandnNdim0(p: Precision) | Fp32ToFp16

  datatype Backend = Cpu | Cuda

  /** A backend entry point: the wrapper of the given codelet for one backend. */
  datatype Func = Func(backend: Backend, codelet: CodeletId)

  /** Which footprint function a codelet carries: `footprint<T>` of the
      codelet's operation, or none (a null pointer). */
  datatype Footprint = NoFootprint | FootprintOf(op: Op, prec: Precision)

  /** What `Codelet::init(name, footprint, cpu_funcs, cuda_funcs)` stores. */
  datatype CodeletInfo = CodeletInfo(name: string, footprint: Footprint, cpu: seq<Func>, cuda: seq<Func>)

  /** `codelet<T>()`: the fp32 or fp64 codelet of an operation, and for any
      other T the "Non-supported type" error. */
  function Lookup(op: Op, t: ElemType): (r: Result<CodeletId>)
    ensures r.Success? <==> t == Fp32T || t == Fp64T
    ensures r.Success? ==> r.value.Typed? && r.value.op == op && TypeOf(r.value.prec) == t
    ensures r.Failure? ==> r.error == "Non-supported type"
  {
    match t
    case Fp32T => Success(Typed(op, P32))
    case Fp64T => Success(Typed(op, P64))
    case _ => Failure("Non-supported type")
  }

  /** `codelet_ndim0<T>()` of randn: a separate table of the two codelets
      for 0-dimensional outputs. */
  function LookupNdim0(t: ElemType): (r: Result<CodeletId>)
    ensures r.Success? <==> t == Fp32T || t == Fp64T
    ensures r.Success? ==> r.value.RandnNdim0? && TypeOf(r.value.p) == t
    ensures r.Failure? ==> r.error == "Non-supported type"
  {
    match t
    case Fp32T => Success(RandnNdim0(P32))
    case Fp64T => Success(RandnNdim0(P64))
    case _ => Failure("Non-supported type")
  }

  /** Every explicitly instantiated submit finds its codelet, and the
      codelet found carries the same precision: dispatch round-trips. */
  lemma LookupPrecision(op: Op, p: Precision)
    ensures Lookup(op, TypeOf(p)) == Success(Typed(op, p))
    ensures LookupNdim0(TypeOf(p)) == Success(RandnNdim0(p))
    ensures Lookup(op, TypeOf(p)) != LookupNdim0(TypeOf(p))
  {
  }

  /** Name suffix of a precision. */
  function PrecName(p: Precision): string
  {
    match p
    case P32 => "fp32"
    case P64 => "fp64"
  }

  /** Distinct precisions give distinct name strings once appended to the
      same stem. */
  lemma SuffixDistinct(stem: string)
    ensures stem + PrecName(P32) != stem + PrecName(P64)
  {
    var a, b := stem + PrecName(P32), stem + PrecName(P64);
    assert a[|stem| + 2] == '3' && b[|stem| + 2] == '6';
  }

  /** The global codelet objects. `init` fills in a codelet;
      `restrict_where` narrows the backends it may run on and
      `restore_where` lifts the restriction. */
  class Registry {
    var codelets: map<CodeletId, CodeletInfo>
    var restricted: map<CodeletId, int>

    constructor ()
      ensures codelets == map[] && restricted == map[]
    {
      codelets := map[];
      restricted := map[];
    }

    /** Codelet::init. */
    method InitCodelet(id: CodeletId, info: CodeletInfo)
      modifies this
      ensures codelets == old(codelets)[id := info]
      ensures restricted == old(restricted)
    {
      codelets := codelets[id := info];
    }

    /** Codelet::restrict_where. */
    method RestrictWhere(id: CodeletId, where: int)
      modifies this
      ensures restricted == old(restricted)[id := where]
      ensures codelets == old(codelets)
    {
      restricted := restricted[id := where];
    }

    /** Codelet::restore_where. */
    method RestoreWhere(id: CodeletId)
      modifies this
      ensures restricted == old(restricted) - {id}
      ensures codelets == old(codelets)
    {
      restricted := restricted - {id};
    }

    /** restrict_where of an operation over both of its codelets. */
    method RestrictBoth(op: Op, where: int)
      modifies this
      ensures restricted == old(restricted)[Typed(op, P32) := where][Typed(op, P64) := where]
      ensures codelets == old(codelets)
    {
      RestrictWhere(Typed(op, P32), where);
      RestrictWhere(Typed(op, P64), where);
    }

    /** restore_where of an operation over both of its codelets. */
    method RestoreBoth(op: Op)
      modifies this
      ensures restricted == old(restricted) - {Typed(op, P32), Typed(op, P64)}
      ensures codelets == old(codelets)
    {
      RestoreWhere(Typed(op, P32));
      RestoreWhere(Typed(op, P64));
    }
  }

  /** The codelet that `init` of an operation with one cpu wrapper per
      precision, an optional footprint and cuda wrappers only when built
      with CUDA installs. */
  function Standard(op: Op, stem: string, p: Precision, footprint: bool, useCuda: bool): (c: CodeletInfo)
    ensures c.name == stem + PrecName(p)
    ensures c.cpu == [Func(Cpu, Typed(op, p))]
    ensures c.cuda == (if useCuda then [Func(Cuda, Typed(op, p))] else [])
    ensures c.footprint == (if footprint then FootprintOf(op, p) else NoFootprint)
  {
    CodeletInfo(stem + PrecName(p), if footprint then FootprintOf(op, p) else NoFootprint,
                [Func(Cpu, Typed(op, p))], if useCuda then [Func(Cuda, Typed(op, p))] else [])
  }

  /** Each entry point of a codelet built by Standard is the wrapper of that
      same codelet, so a task can only run the code of its own operation
      and precision. */
  lemma StandardDispatch(op: Op, stem: string, p: Precision, footprint: bool, useCuda: bool)
    ensures forall f :: f in Standard(op, stem, p, footprint, useCuda).cpu ==> f == Func(Cpu, Typed(op, p))
    ensures forall f :: f in Standard(op, stem, p, footprint, useCuda).cuda ==> f == Func(Cuda, Typed(op, p))
    ensures Standard(op, stem, P32, footprint, useCuda).name != Standard(op, stem, P64, footprint, useCuda).name
  {
    SuffixDistinct(stem);
  }

  /** Installs both codelets of an operation built by Standard. */
  method InitStandard(reg: Registry, op: Op, stem: string, footprint: bool, useCuda: bool)
    modifies reg
    ensures reg.codelets == old(reg.codelets)[Typed(op, P32) := Standard(op, stem, P32, footprint, useCuda)]
                                             [Typed(op, P64) := Standard(op, stem, P64, footprint, useCuda)]
    ensures reg.restricted == old(reg.restricted)
  {
    reg.InitCodelet(Typed(op, P32), Standard(op, stem, P32, footprint, useCuda));
    reg.InitCodelet(Typed(op, P64), Standard(op, stem, P64, footprint, useCuda));
  }
}
