/** The StarPU runtime as NNTile sees it: an initialisation flag and an
    append-only log of the calls made into it. Tasks are recorded, never
    executed. Also the `Starpu` guard object and the shared, self-unregistering
    data handles of include/nntile/starpu.hh. */
module Starpu {
  import opened Wrappers
  import opened Codelets

  /** Identity of a registered piece of data (`starpu_data_handle_t`). */
  type Handle = int

  /** StarPU data access modes. */
  datatype Mode = R | W | RW | RWCommute | Redux | Scratch

  /** Whether a task in this mode depends on the buffer's previous content. */
  predicate ReadsOld(m: Mode)
  {
    m == R || m == RW || m == RWCommute || m == Redux
  }

  /** Whether a task in this mode changes the buffer. */
  predicate Writes(m: Mode)
  {
    m != R
  }

  /** One field of a packed argument blob, or one piece of data fed to
      the footprint hash. */
  datatype Value = IndexV(i: int) | RealV(x: real) | SeedV(s: int) | IndicesV(v: seq<int>)

  /** A blob holding a single Index, as `new Index{nelems}` builds it. */
  function IndexBlob(n: int): seq<Value>
  {
    [IndexV(n)]
  }

  /** `reinterpret_cast<Index *>(cl_args)[0]`: the first Index of a blob. */
  function FirstIndex(blob: seq<Value>): Option<int>
  {
    if |blob| >= 1 && blob[0].IndexV? then Some(blob[0].i) else None
  }

  /** A wrapper reading the first Index gets back the packed count, and the
      only blobs of one Index that give back n are IndexBlob(n). */
  lemma IndexBlobRoundTrip(n: int, blob: seq<Value>)
    ensures FirstIndex(IndexBlob(n)) == Some(n)
    ensures |blob| == 1 && FirstIndex(blob) == Some(n) ==> blob == IndexBlob(n)
  {
  }

  /** A data buffer of a task: its handle and access mode. */
  datatype Buffer = Buffer(mode: Mode, handle: Handle)

  /** What `starpu_task_insert` receives: the codelet, the buffers in
      interface order, the packed arguments and the flop count. */
  datatype Task = Task(codelet: CodeletId, buffers: seq<Buffer>, args: seq<Value>, flops: Option<int>)

  /** The uninterpreted CRC32C hash: a hash is the seed it started from and
      the data fed into it, in order. */
  datatype Hash = Seed(v: int) | Crc(prev: Hash, data: Value)

  /** 32-bit all-ones, the value of `(uint32_t)-1`. */
  const ALL_ONES: int := 0xFFFF_FFFF

  /** Calls made into StarPU and StarPU-MPI. */
  datatype Event =
    | Init(ret: int)
    | WaitForAll
    | Shutdown
    | Register(handle: Handle, home: int, ptr: int, size: int)
    | Unregister(handle: Handle)
    | Submitted(task: Task)
    | Called(name: string, elem: ElemType, args: seq<Value>, handles: seq<Handle>)
    | MpiTransfer(handle: Handle, dstRank: int, srcRank: int)
    | MpiFlush(handle: Handle)
    | MpiWaitForAll

  /** `STARPU_MAIN_RAM`, the memory node of the host. */
  const MAIN_RAM: int := 0

  /** The effect of one call on the initialisation flag; None for a
      call StarPU does not allow (a second init, a shutdown without init). */
  function Step(s: Option<bool>, e: Event): Option<bool>
  {
    match s
    case None => None
    case Some(up) =>
      match e
      case Init(ret) => if up then None else Some(ret == 0)
      case Shutdown => if up then Some(false) else None
      case _ => Some(up)
  }

  /** The initialisation flag a history of calls leads to, starting from an
      uninitialised runtime. */
  function Replay(log: seq<Event>): Option<bool>
  {
    if log == [] then Some(false) else Step(Replay(log[..|log| - 1]), log[|log| - 1])
  }

  /** Number of successful initialisations in a history. */
  function Inits(log: seq<Event>): nat
  {
    if log == [] then 0
    else Inits(log[..|log| - 1]) + (if log[|log| - 1] == Init(0) then 1 else 0)
  }

  /** Number of shutdowns in a history. */
  function Shutdowns(log: seq<Event>): nat
  {
    if log == [] then 0
    else Shutdowns(log[..|log| - 1]) + (if log[|log| - 1] == Shutdown then 1 else 0)
  }

  lemma ReplaySnoc(log: seq<Event>, e: Event)
    ensures Replay(log + [e]) == Step(Replay(log), e)
    ensures Inits(log + [e]) == Inits(log) + (if e == Init(0) then 1 else 0)
    ensures Shutdowns(log + [e]) == Shutdowns(log) + (if e == Shutdown then 1 else 0)
  {
    assert (log + [e])[..|log|] == log;
  }

  /** In every legal history each successful initialisation is matched by
      exactly one shutdown, except the one still running. */
  lemma {:induction false} InitsMatchShutdowns(log: seq<Event>)
    requires Replay(log).Some?
    ensures Inits(log) == Shutdowns(log) + (if Replay(log).value then 1 else 0)
  {
    if log != [] {
      var pre, e := log[..|log| - 1], log[|log| - 1];
      assert log == pre + [e];
      ReplaySnoc(pre, e);
      InitsMatchShutdowns(pre);
    }
  }

  /** The global StarPU state. */
  class Runtime {
    var initialized: bool
    var log: seq<Event>
    /** The live `Starpu` guard, if any. */
    ghost var owner: object?

    /** The log is a legal history that leads to the current flag, and a
        guard is alive exactly while the runtime is initialised. */
    ghost predicate Valid()
      reads this
    {
      Replay(log) == Some(initialized) && (initialized <==> owner != null)
    }

    constructor ()
      ensures Valid() && !initialized && log == [] && owner == null
    {
      initialized := false;
      log := [];
      owner := null;
    }

    /** Appends a call that does not change the initialisation flag. */
    method Record(e: Event)
      requires !e.Init? && !e.Shutdown?
      modifies this
      ensures log == old(log) + [e]
      ensures initialized == old(initialized) && owner == old(owner)
      ensures old(Valid()) ==> Valid()
    {
      ReplaySnoc(log, e);
      log := log + [e];
    }

    /** `starpu_task_insert`: the task enters the pool exactly when the
        (oracle) return code is 0. */
    method Insert(task: Task, ret: int) returns (ok: bool)
      modifies this
      ensures ok <==> ret == 0
      ensures log == old(log) + (if ok then [Submitted(task)] else [])
      ensures initialized == old(initialized) && owner == old(owner)
      ensures old(Valid()) ==> Valid()
    {
      ok := ret == 0;
      if ok {
        Record(Submitted(task));
      }
    }

    /** `starpu_task_wait_for_all`. */
    method WaitAll()
      modifies this
      ensures log == old(log) + [WaitForAll]
      ensures initialized == old(initialized) && owner == old(owner)
      ensures old(Valid()) ==> Valid()
    {
      Record(WaitForAll);
    }
  }

  /** The `Starpu` class: a non-copyable guard whose lifetime is the
      lifetime of the initialised runtime. Dafny objects are references, so
      the deleted copy and move operations become the single `alive` guard
      that Destroy consumes. */
  class Guard {
    const rt: Runtime
    var alive: bool

    ghost predicate Valid()
      reads this, rt
    {
      alive ==> rt.owner == this
    }

    /** Takes ownership of a runtime that has just been initialised and
        has no guard yet. */
    constructor Make(rt: Runtime)
      requires rt.initialized && rt.owner == null && Replay(rt.log) == Some(true)
      modifies rt
      ensures this.rt == rt && alive && rt.owner == this
      ensures rt.initialized == old(rt.initialized) && rt.log == old(rt.log)
      ensures rt.Valid() && Valid()
    {
      this.rt := rt;
      alive := true;
      new;
      rt.owner := this;
    }

    /** `~Starpu()`: waits for every submitted task, then shuts down. */
    method Destroy()
      requires alive && Valid() && rt.Valid()
      modifies this, rt
      ensures !alive && !rt.initialized && rt.owner == null
      ensures rt.log == old(rt.log) + [WaitForAll, Shutdown]
      ensures rt.Valid()
    {
      rt.WaitAll();
      ReplaySnoc(rt.log, Shutdown);
      rt.log := rt.log + [Shutdown];
      rt.initialized := false;
      rt.owner := null;
      alive := false;
    }
  }

  /** `Starpu(conf)`: refuses an initialised runtime, then calls
      `starpu_init`, whose return code is the oracle `initRet`. */
  method NewStarpuWithConf(rt: Runtime, initRet: int) returns (g: Guard?, o: Outcome)
    requires rt.Valid()
    modifies rt
    ensures rt.Valid()
    ensures o.Pass? <==> !old(rt.initialized) && initRet == 0
    ensures old(rt.initialized) ==> o == Fail("Starpu was already initialized") && rt.log == old(rt.log)
    ensures !old(rt.initialized) ==> rt.log == old(rt.log) + [Init(initRet)]
    ensures !old(rt.initialized) && initRet != 0 ==> o == Fail("Error in starpu_init()") && !rt.initialized
    ensures o.Pass? <==> g != null
    ensures g != null ==> fresh(g) && g.rt == rt && g.alive && g.Valid() && rt.initialized
    ensures g == null ==> rt.initialized == old(rt.initialized)
  {
    if rt.initialized {
      return null, Fail("Starpu was already initialized");
    }
    ReplaySnoc(rt.log, Init(initRet));
    rt.log := rt.log + [Init(initRet)];
    if initRet != 0 {
      return null, Fail("Error in starpu_init()");
    }
    rt.initialized := true;
    g := new Guard.Make(rt);
    o := Pass;
  }

  /** `Starpu()`: builds the default configuration (`starpu_conf_init`,
      oracle `confRet`) and delegates to the configured constructor. */
  method NewStarpu(rt: Runtime, confRet: int, initRet: int) returns (g: Guard?, o: Outcome)
    requires rt.Valid()
    modifies rt
    ensures rt.Valid()
    ensures o.Pass? <==> confRet == 0 && !old(rt.initialized) && initRet == 0
    ensures confRet != 0 ==> o == Fail("Error in starpu_conf_init()") && rt.log == old(rt.log)
    ensures confRet == 0 && old(rt.initialized) ==> o == Fail("Starpu was already initialized") && rt.log == old(rt.log)
    ensures confRet == 0 && !old(rt.initialized) ==> rt.log == old(rt.log) + [Init(initRet)]
    ensures o.Pass? <==> g != null
    ensures g != null ==> fresh(g) && g.rt == rt && g.alive && g.Valid()
    ensures g == null ==> rt.initialized == old(rt.initialized)
  {
    if confRet != 0 {
      return null, Fail("Error in starpu_conf_init()");
    }
    g, o := NewStarpuWithConf(rt, initRet);
  }

  /** The control block of the `shared_ptr` inside a StarpuHandle: one
      registered handle, the number of StarpuHandle objects sharing it and
      the number of times the deleter has unregistered it. */
  class Registration {
    const handle: Handle
    var useCount: nat
    var unregistered: nat
    /** The StarpuHandle objects currently sharing this block. */
    ghost var holders: set<object>

    /** The handle is unregistered once when, and only when, nobody holds it. */
    ghost predicate Valid()
      reads this
    {
      useCount == |holders| && unregistered == (if useCount == 0 then 1 else 0)
    }

    constructor (h: Handle, holder: object)
      ensures handle == h && useCount == 1 && unregistered == 0 && holders == {holder}
      ensures Valid()
    {
      handle := h;
      useCount := 1;
      unregistered := 0;
      holders := {holder};
    }
  }

  /** `StarpuHandle`: shared ownership of a registered handle; the last copy
      to go away unregisters it. */
  class StarpuHandle {
    /** The shared state, null for a default-constructed handle. */
    var reg: Registration?
    var alive: bool

    ghost predicate Valid()
      reads this, reg
    {
      alive && (reg != null ==> this in reg.holders && reg.Valid())
    }

    /** The raw `starpu_data_handle_t` (null when there is none). */
    function Raw(): (h: Option<Handle>)
      reads this, reg
      ensures h.Some? <==> reg != null
    {
      if reg == null then None else Some(reg.handle)
    }

    /** `StarpuHandle()`: owns nothing. */
    constructor Empty()
      ensures Valid() && reg == null && Raw() == None
    {
      reg := null;
      alive := true;
    }

    /** `StarpuHandle(handle)`: takes ownership of a registered handle. */
    constructor Own(h: Handle)
      ensures Valid() && reg != null && fresh(reg) && Raw() == Some(h)
      ensures reg.useCount == 1 && reg.unregistered == 0 && reg.holders == {this}
    {
      alive := true;
      new;
      reg := new Registration(h, this);
    }

    /** `StarpuVariableHandle(size)`: registers a variable whose memory
        StarPU allocates (home node -1, null pointer) and owns it; `h` is the
        handle StarPU hands back. */
    constructor Variable(rt: Runtime, h: Handle, size: int)
      modifies rt
      ensures Valid() && reg != null && fresh(reg) && Raw() == Some(h)
      ensures reg.useCount == 1 && reg.unregistered == 0
      ensures rt.log == old(rt.log) + [Register(h, -1, 0, size)]
      ensures rt.initialized == old(rt.initialized) && rt.owner == old(rt.owner)
      ensures old(rt.Valid()) ==> rt.Valid()
    {
      alive := true;
      new;
      rt.Record(Register(h, -1, 0, size));
      reg := new Registration(h, this);
    }

    /** `StarpuVariableHandle(ptr, size)`: registers caller memory at `ptr`
        in main RAM and owns the handle. */
    constructor VariableAt(rt: Runtime, h: Handle, ptr: int, size: int)
      modifies rt
      ensures Valid() && reg != null && fresh(reg) && Raw() == Some(h)
      ensures reg.useCount == 1 && reg.unregistered == 0
      ensures rt.log == old(rt.log) + [Register(h, MAIN_RAM, ptr, size)]
      ensures rt.initialized == old(rt.initialized) && rt.owner == old(rt.owner)
      ensures old(rt.Valid()) ==> rt.Valid()
    {
      alive := true;
      new;
      rt.Record(Register(h, MAIN_RAM, ptr, size));
      reg := new Registration(h, this);
    }

    /** Copy construction: shares the registration of `other`. */
    constructor Copy(other: StarpuHandle)
      requires other.Valid()
      modifies other.reg
      ensures Valid() && other.Valid() && reg == other.reg && Raw() == other.Raw()
      ensures reg != null ==> reg.useCount == old(other.reg.useCount) + 1 && reg.unregistered == 0
      ensures reg != null ==> reg.holders == old(other.reg.holders) + {this}
    {
      alive := true;
      reg := other.reg;
      new;
      if reg != null {
        reg.holders := reg.holders + {this};
        reg.useCount := reg.useCount + 1;
      }
    }

    /** Destruction: drops this copy; the last copy runs the deleter,
        `starpu_data_unregister`. */
    method Destroy(rt: Runtime)
      requires Valid()
      modifies this, reg, rt
      ensures !alive && reg == old(reg)
      ensures rt.initialized == old(rt.initialized) && rt.owner == old(rt.owner)
      ensures old(rt.Valid()) ==> rt.Valid()
      ensures reg == null ==> rt.log == old(rt.log)
      ensures reg != null ==> reg.Valid() && reg.holders == old(reg.holders) - {this}
      ensures reg != null ==> reg.useCount == old(reg.useCount) - 1
      ensures reg != null && old(reg.useCount) == 1 ==> rt.log == old(rt.log) + [Unregister(reg.handle)] && reg.unregistered == 1
      ensures reg != null && old(reg.useCount) > 1 ==> rt.log == old(rt.log) && reg.unregistered == 0
    {
      alive := false;
      if reg != null {
        reg.holders := reg.holders - {this};
        reg.useCount := reg.useCount - 1;
        if reg.useCount == 0 {
          rt.Record(Unregister(reg.handle));
          reg.unregistered := 1;
        }
      }
    }
  }

  /** Two copies of one handle: the first destruction leaves it registered,
      the second unregisters it, once. */
  method CopyThenDestroyBoth(rt: Runtime, h: Handle)
    requires rt.Valid()
    modifies rt
    ensures rt.log == old(rt.log) + [Unregister(h)]
    ensures rt.Valid()
  {
    var a := new StarpuHandle.Own(h);
    var b := new StarpuHandle.Copy(a);
    assert a.reg.holders == {a, b};
    a.Destroy(rt);
    assert rt.log == old(rt.log);
    b.Destroy(rt);
    assert b.reg.unregistered == 1;
  }

  /** A default-constructed handle unregisters nothing when destroyed. */
  method EmptyDestroy(rt: Runtime)
    modifies rt
    ensures rt.log == old(rt.log)
  {
    var e := new StarpuHandle.Empty();
    e.Destroy(rt);
  }
}
