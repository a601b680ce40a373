/** src/unicc_api.c: the public API over the mutable state of all the layers below, proved call
    by call against the specification in Spec. */
module Api {
  import opened Common
  import opened Platform
  import opened Families
  import opened Selection
  import opened Dispatch
  import opened Binding
  import opened VTable
  import opened Spec
  import opened Laws
  import Loading

  /** unicc_dtmap.h: the native datatype, or -1 out of range. */
  function LookupDatatype(dt: CInt): CInt {
    if 0 <= dt < DT_COUNT then dt else -1
  }

  function LookupOp(op: CInt): CInt {
    if 0 <= op < OP_COUNT then op else -1
  }

  function NumberOutput(n: Option<int>): Output {
    if n.Some? then Number(n.value) else Nothing
  }

  class Unicc {
    const table: seq<Descriptor>
    const host: Host
    const registry: Registry
    var initialized: bool
    var handle: Option<Handle>
    var lastResult: CInt
    var libPath: string

    /** Process start. */
    constructor (table: seq<Descriptor>, behave: Behaviour)
      requires WellFormed(table)
      ensures Valid() && Abs() == State(Closed, []) && RestOfProcess() == map[]
      ensures this.table == table && host.behave == behave
      ensures fresh(host) && fresh(registry) && fresh(registry.cell) && fresh(registry.binder)
    {
      this.table := table;
      var h := new Host(behave);
      host := h;
      registry := new Registry(h);
      initialized, handle, lastResult, libPath := false, None, 0, "";
    }

    /** While a session is open the table is wired to its handle, which is open; otherwise
        everything is back at its initial value except the binder's pointers, of which nothing
        is needed but that they come from loads of the past. */
    ghost predicate Valid()
      reads this, host, registry, registry.cell, registry.binder
    {
      && WellFormed(table) && registry.host == host && registry.Linked() && host.Valid()
      && Stamped(registry.binder.natives, host.next)
      && (if initialized then
            && handle.Some? && registry.handle == handle && host.IsOpen(handle.value)
            && Family().Some?
            && Wired(registry.cell.unicc, registry.binder.natives, handle.value, Family().value)
            && lastResult >= 0
          else registry.Clean() && handle.None? && libPath == "" && lastResult == 0)
    }

    /** The row of the published backend type. */
    function Family(): Option<Descriptor>
      reads registry
    {
      First(table, OfKind(registry.kind))
    }

    /** The specification state this process is in; the binder's pointers do not appear. */
    function Abs(): State
      requires Valid()
      reads this, host, registry, registry.cell, registry.binder
    {
      State(if initialized then Open(libPath, handle.value.image, Family().value, lastResult) else Closed, host.log)
    }

    /** The link map without this library's own open: what the rest of the process holds. Every
        call leaves it alone, so the library holds one open during a session and none outside. */
    function RestOfProcess(): LinkMap
      requires Valid()
      reads this, host, registry, registry.cell, registry.binder
    {
      if initialized then Release(host.loaded, handle.value.image) else host.loaded
    }

    /** In a process where nobody else opens libraries: one image with one open, or nothing. */
    lemma HoldsOneOpen()
      requires Valid() && RestOfProcess() == map[]
      ensures if initialized then host.loaded == map[handle.value.image := Mapping(handle.value.generation, 1)]
              else host.loaded == map[]
    {
    }

    /** A load of the past whose image is no longer mapped stays dead, whatever this library or the
        rest of the process opens and closes later. */
    lemma GoneForGood(h: Handle, later: Linker)
      requires host.Valid() && Reaches(host.Now(), later)
      requires h.generation < host.next && h.image !in host.loaded
      ensures !IsOpenIn(later.loaded, h)
    {
      hide LinkRun;
      var steps :| LinkRun(host.Now(), steps) == later;
      ClosedStaysClosed(host.Now(), steps, h);
    }

    /** The current state and this reply are what the specification gives for a backed call. */
    ghost predicate Forwards(before: State, call: Call, code: CInt, output: Output)
      requires Valid() && Backing(call).Some?
      reads this, host, registry, registry.cell, registry.binder
    {
      (Abs(), Reply(code, output)) == Forward(host.behave, before, call)
    }

    method MapBackendResult(code: CInt) returns (rc: CInt)
      modifies this`lastResult
      ensures rc == Unified(code) == if code > 0 then -10 else code
      ensures lastResult == if code > 0 then code else old(lastResult)
    {
      if code == 0 {
        return OK;
      }
      if code < 0 {
        return code;
      }
      lastResult := code;
      rc := ERR_UNHANDLED_BACKEND;
    }

    // ---- lifecycle ----

    /** Uninitialized, whatever libPath holds for the moment. */
    predicate Idle()
      reads this, host, registry, registry.cell, registry.binder
    {
      && WellFormed(table) && registry.host == host && registry.Linked() && host.Valid()
      && Stamped(registry.binder.natives, host.next)
      && !initialized && registry.Clean() && handle.None? && lastResult == 0
    }

    method Init(w: World) returns (rc: CInt)
      requires Valid()
      modifies this, host`loaded, host`next, registry, registry.cell, registry.binder
      ensures Valid() && RestOfProcess() == old(RestOfProcess())
      ensures (Abs(), Reply(rc, Nothing)) == Begin(table, old(Abs()), w)
      ensures Reaches(old(host.Now()), host.Now())
    {
      ReachesItself(host.Now());
      hide Reaches, Stamped;
      if initialized {
        return ERR_ALREADY_INITIALIZED;
      }
      var path;
      rc, path := Loading.DetectBackend(table, w);
      if rc != OK {
        return;
      }
      if |path| >= LIB_PATH_CAPACITY {
        return ERR_INVALID_ARGUMENT;
      }
      var h;
      rc, h, libPath := Loading.Load(host, table, w, Some(path), LIB_PATH_CAPACITY);
      if rc != OK {
        if rc == ERR_BACKEND_LOAD && NonEmpty(w.backend).None? && NonEmpty(w.library).None? {
          return ERR_NO_BACKEND;
        }
        return;
      }
      OpenedPathFits(table, w, path);
      ReleaseUndoesAcquire(old(host.loaded), h.value.image, old(host.next));
      MoreStamps(registry.binder.natives, old(host.next), host.next);
      ghost var opened' := host.Now();
      rc := Adopt(w, h.value);
      ReachesComposes(old(host.Now()), opened', host.Now());
    }

    /** The second half of unicc_init: bind the loaded library or give it back. */
    method Adopt(w: World, h: Handle) returns (rc: CInt)
      requires Idle() && host.IsOpen(h)
      modifies this, host`loaded, registry, registry.cell, registry.binder
      ensures Reaches(old(host.Now()), host.Now())
      ensures var bound := Selection.Bind(table, w, h.image);
              && (bound.Rejected? ==>
                    && rc == bound.code && Idle() && libPath == ""
                    && host.loaded == Release(old(host.loaded), h.image))
              && (bound.Bound? ==>
                    && rc == OK && Valid() && initialized && host.loaded == old(host.loaded)
                    && handle == Some(h) && libPath == old(libPath) && lastResult == 0
                    && Family() == Some(bound.row))
    {
      ReachesItself(host.Now());
      hide Reaches, Stamped, RetainsOnly;
      rc := registry.Init(table, w, h);
      StaysStamped(registry.binder.natives, old(registry.binder.natives), h, host.next, host.next);
      if rc != OK {
        Loading.Unload(host, h);
        libPath := "";
        return;
      }
      lastResult := 0;
      handle := Some(h);
      initialized := true;
    }

    method Finalize() returns (rc: CInt)
      requires Valid()
      modifies this, host`loaded, registry, registry.cell
      ensures Valid() && RestOfProcess() == old(RestOfProcess())
      ensures rc == (if old(initialized) then OK else ERR_NOT_INITIALIZED)
      ensures Abs() == old(Abs()).(session := Closed)
      ensures Reaches(old(host.Now()), host.Now())
    {
      ReachesItself(host.Now());
      hide Reaches, Stamped;
      if !initialized {
        return ERR_NOT_INITIALIZED;
      }
      registry.Cleanup();
      Loading.Unload(host, handle.value);
      handle := None;
      libPath := "";
      lastResult := 0;
      initialized := false;
      rc := OK;
    }

    method GetBackendName() returns (name: string)
      requires Valid()
      ensures name == if Abs().session.Open? then Abs().session.row.name else "unknown"
    {
      if !initialized {
        return "unknown";
      }
      var row := FamilyOf(table, registry.kind);
      name := if row.Some? then row.value.name else "unknown";
    }

    method Diagnose(w: World) returns (rc: CInt)
      requires Valid()
      modifies host`loaded, host`next
      ensures Valid() && RestOfProcess() == old(RestOfProcess())
      ensures rc == OK && Abs() == old(Abs())
      ensures Reaches(old(host.Now()), host.Now())
    {
      hide Reaches, Stamped;
      var path := Some(libPath);
      if !initialized {
        var detected, request := Loading.DetectBackend(table, w);
        path := if detected == OK then Some(request) else None;
      }
      Loading.DiagnoseBackend(host, table, w, path);
      MoreStamps(registry.binder.natives, old(host.next), host.next);
      rc := OK;
    }

    // ---- the pattern of every backed call ----

    /** The checks every backed call starts with, in their order. */
    function Gate(op: Operation, valid: bool): CInt
      requires Valid()
      reads this, host, registry, registry.cell, registry.binder
    {
      if !initialized then ERR_NOT_INITIALIZED
      else if SlotOf(registry.cell.unicc, op) == Empty then ERR_NOT_SUPPORTED
      else if !valid then ERR_INVALID_ARGUMENT
      else OK
    }

    lemma GateRefuses(call: Call)
      requires Valid() && Backing(call).Some? && Gate(Backing(call).value, ValidArguments(call)) != OK
      ensures Forward(host.behave, Abs(), call)
           == (Abs(), Reply(Gate(Backing(call).value, ValidArguments(call)), Nothing))
    {
    }

    /** Past the gate the slot has its family's shape and its native pointer is live. */
    lemma GateAdmits(op: Operation, valid: bool)
      requires Valid() && Gate(op, valid) == OK
      ensures var slot := SlotOf(registry.cell.unicc, op);
              && Shaped(slot, Family().value, op)
              && Resolve(slot, registry.binder.natives) == Fn(handle.value, SymbolName(Family().value, op))
              && host.Callable(Resolve(slot, registry.binder.natives))
              && Supports(Family().value, handle.value.image, op)
    {
    }

    /** The slot is empty exactly when the image does not offer the operation to the family, and
        otherwise calls that image's symbol through a pointer that is live. */
    predicate SlotIsLive(op: Operation)
      requires Valid() && initialized
      reads this, host, registry, registry.cell, registry.binder
    {
      var slot := SlotOf(registry.cell.unicc, op);
      if Supports(Family().value, handle.value.image, op) then
        && slot != Empty
        && Resolve(slot, registry.binder.natives) == Fn(handle.value, SymbolName(Family().value, op))
        && host.Callable(Resolve(slot, registry.binder.natives))
      else slot == Empty
    }

    /** The native call a valid backed call amounts to in the open session. */
    function NativeFor(call: Call): NativeCall
      requires Valid() && initialized && Backing(call).Some? && ValidArguments(call)
      reads this, host, registry, registry.cell, registry.binder
    {
      NativeCall(handle.value.image, SymbolName(Family().value, Backing(call).value), NativeArgs(Family().value, call))
    }

    /** One native call made and its code mapped: the state is the specification's. */
    lemma Delivered(before: State, call: Call, a: Answer)
      requires Valid() && initialized && Backing(call).Some? && ValidArguments(call) && IdFits(Family().value, call)
      requires SlotOf(registry.cell.unicc, Backing(call).value) != Empty
      requires before.session.Open?
      requires Abs().session == before.session.(raw := if a.code > 0 then a.code else before.session.raw)
      requires a == host.behave(before.log, NativeFor(call))
      requires host.log == before.log + [Entry(NativeFor(call), a)]
      ensures Forwards(before, call, Unified(a.code), NativeOutput(Family().value, call, a))
    {
    }

    // ---- backed calls ----

    method GetBackendVersion(out: bool) returns (rc: CInt, version: Option<int>)
      requires Valid()
      modifies this`lastResult, host`log
      ensures Valid() && RestOfProcess() == old(RestOfProcess())
      ensures Forwards(old(Abs()), BackendVersion(out), rc, NumberOutput(version))
    {
      hide SymbolName, WellFormed, Stamped;
      rc := Gate(GetVersion, out);
      if rc != OK {
        GateRefuses(BackendVersion(out));
        return rc, None;
      }
      GateAdmits(GetVersion, true);
      var a := host.Invoke(registry.cell.unicc.getVersion.target, GetVersionArgs);
      rc := MapBackendResult(a.code);
      Delivered(old(Abs()), BackendVersion(out), a);
      version := a.stored;
    }

    method GetUniqueIdInto(id: CommId?) returns (rc: CInt)
      requires Valid() && (id != null ==> id.Valid())
      modifies this`lastResult, host`log, if id == null then {} else {id, id.data}
      ensures Valid() && RestOfProcess() == old(RestOfProcess())
      ensures rc == OK ==> id != null && id.len <= COMM_ID_MAX
      ensures Forwards(old(Abs()), GetId(id != null), rc, if rc == OK then Bytes(id.data[..id.len]) else Nothing)
      ensures rc == OK ==> id.data[id.len..] == old(id.data[..])[id.len..]
      ensures id != null && rc != OK ==> id.len == old(id.len) && id.data[..] == old(id.data[..])
    {
      hide SymbolName, WellFormed, Stamped;
      rc := Gate(GetUniqueId, id != null);
      if rc != OK {
        GateRefuses(GetId(id != null));
        return;
      }
      GateAdmits(GetUniqueId, true);
      var code := registry.binder.CallGetUniqueId(id);
      rc := MapBackendResult(code);
      Delivered(old(Abs()), GetId(true), host.log[|host.log| - 1].answer);
    }

    method CommInitRankWith(out: bool, nranks: CInt, id: CommId?, rank: CInt) returns (rc: CInt, comm: Option<int>)
      requires Valid() && (id != null ==> id.Valid())
      modifies this`lastResult, host`log
      ensures Valid() && RestOfProcess() == old(RestOfProcess())
      ensures Forwards(old(Abs()), InitRank(out, nranks, Contents(id), rank), rc, NumberOutput(comm))
    {
      hide SymbolName, WellFormed, Stamped;
      var valid := out && nranks >= 1 && rank >= 0 && rank < nranks && id != null && id.len != 0;
      rc := Gate(CommInitRank, valid);
      ghost var call := InitRank(out, nranks, Contents(id), rank);
      if rc != OK {
        GateRefuses(call);
        return rc, None;
      }
      GateAdmits(CommInitRank, true);
      ghost var row := Family().value;
      assert id.data[..][..ConsumedIdBytes(row)] == id.data[..ConsumedIdBytes(row)];
      rc, comm := registry.binder.CallCommInitRank(nranks, id, rank);
      rc := MapBackendResult(rc);
      if id.len == ConsumedIdBytes(row) {
        Delivered(old(Abs()), call, host.log[|host.log| - 1].answer);
      }
    }

    /** What an id argument holds when the call is made. */
    function Contents(id: CommId?): Option<IdValue>
      requires id != null ==> id.Valid()
      reads id, if id == null then {} else {id.data}
    {
      if id == null then None else Some(IdContents(id.len, id.data[..]))
    }

    method CommDestroyOf(comm: Address) returns (rc: CInt)
      requires Valid()
      modifies this`lastResult, host`log
      ensures Valid() && RestOfProcess() == old(RestOfProcess())
      ensures Forwards(old(Abs()), Destroy(comm), rc, Nothing)
    {
      hide SymbolName, WellFormed, Stamped;
      rc := Gate(CommDestroy, true);
      if rc != OK {
        GateRefuses(Destroy(comm));
        return rc;
      }
      GateAdmits(CommDestroy, true);
      var a := host.Invoke(registry.cell.unicc.commDestroy.target, DestroyArgs(comm));
      rc := MapBackendResult(a.code);
      Delivered(old(Abs()), Destroy(comm), a);
    }

    method CommCountOf(comm: Address, out: bool) returns (rc: CInt, count: Option<int>)
      requires Valid()
      modifies this`lastResult, host`log
      ensures Valid() && RestOfProcess() == old(RestOfProcess())
      ensures Forwards(old(Abs()), Count(comm, out), rc, NumberOutput(count))
    {
      hide SymbolName, WellFormed, Stamped;
      rc := Gate(CommCount, out);
      if rc != OK {
        GateRefuses(Count(comm, out));
        return rc, None;
      }
      GateAdmits(CommCount, true);
      var a := host.Invoke(registry.cell.unicc.commCount.target, CountArgs(comm));
      rc := MapBackendResult(a.code);
      Delivered(old(Abs()), Count(comm, out), a);
      count := a.stored;
    }

    method CommUserRankOf(comm: Address, out: bool) returns (rc: CInt, rank: Option<int>)
      requires Valid()
      modifies this`lastResult, host`log
      ensures Valid() && RestOfProcess() == old(RestOfProcess())
      ensures Forwards(old(Abs()), UserRank(comm, out), rc, NumberOutput(rank))
    {
      hide SymbolName, WellFormed, Stamped;
      rc := Gate(CommUserRank, out);
      if rc != OK {
        GateRefuses(UserRank(comm, out));
        return rc, None;
      }
      GateAdmits(CommUserRank, true);
      var a := host.Invoke(registry.cell.unicc.commUserRank.target, UserRankArgs(comm));
      rc := MapBackendResult(a.code);
      Delivered(old(Abs()), UserRank(comm, out), a);
      rank := a.stored;
    }

    method AllReduceOn(send: Address, recv: Address, count: SizeT, dt: CInt, op: CInt, comm: Address, stream: Address)
      returns (rc: CInt)
      requires Valid()
      modifies this`lastResult, host`log
      ensures Valid() && RestOfProcess() == old(RestOfProcess())
      ensures Forwards(old(Abs()), Reduce(send, recv, count, dt, op, comm, stream), rc, Nothing)
    {
      hide SymbolName, WellFormed, Stamped;
      var nativeType, nativeOp := LookupDatatype(dt), LookupOp(op);
      var valid := send != 0 && recv != 0 && count != 0 && nativeType >= 0 && nativeOp >= 0;
      rc := Gate(AllReduce, valid);
      if rc != OK {
        GateRefuses(Reduce(send, recv, count, dt, op, comm, stream));
        return;
      }
      GateAdmits(AllReduce, true);
      var a := host.Invoke(registry.cell.unicc.allReduce.target,
                           AllReduceArgs(send, recv, count, nativeType, nativeOp, comm, stream));
      rc := MapBackendResult(a.code);
      Delivered(old(Abs()), Reduce(send, recv, count, dt, op, comm, stream), a);
    }

    method BroadcastOn(buf: Address, count: SizeT, dt: CInt, root: CInt, comm: Address, stream: Address)
      returns (rc: CInt)
      requires Valid()
      modifies this`lastResult, host`log
      ensures Valid() && RestOfProcess() == old(RestOfProcess())
      ensures Forwards(old(Abs()), Bcast(buf, count, dt, root, comm, stream), rc, Nothing)
    {
      hide SymbolName, WellFormed, Stamped;
      var nativeType := LookupDatatype(dt);
      rc := Gate(Broadcast, buf != 0 && count != 0 && nativeType >= 0);
      if rc != OK {
        GateRefuses(Bcast(buf, count, dt, root, comm, stream));
        return;
      }
      GateAdmits(Broadcast, true);
      rc := registry.binder.CallBroadcast(buf, count, nativeType, root, comm, stream);
      rc := MapBackendResult(rc);
      Delivered(old(Abs()), Bcast(buf, count, dt, root, comm, stream), host.log[|host.log| - 1].answer);
    }

    method GroupStartNow() returns (rc: CInt)
      requires Valid()
      modifies this`lastResult, host`log
      ensures Valid() && RestOfProcess() == old(RestOfProcess())
      ensures Forwards(old(Abs()), StartGroup, rc, Nothing)
    {
      hide SymbolName, WellFormed, Stamped;
      rc := Gate(GroupStart, true);
      if rc != OK {
        GateRefuses(StartGroup);
        return rc;
      }
      GateAdmits(GroupStart, true);
      var a := host.Invoke(registry.cell.unicc.groupStart.target, GroupStartArgs);
      rc := MapBackendResult(a.code);
      Delivered(old(Abs()), StartGroup, a);
    }

    method GroupEndNow() returns (rc: CInt)
      requires Valid()
      modifies this`lastResult, host`log
      ensures Valid() && RestOfProcess() == old(RestOfProcess())
      ensures Forwards(old(Abs()), EndGroup, rc, Nothing)
    {
      hide SymbolName, WellFormed, Stamped;
      rc := Gate(GroupEnd, true);
      if rc != OK {
        GateRefuses(EndGroup);
        return rc;
      }
      GateAdmits(GroupEnd, true);
      var a := host.Invoke(registry.cell.unicc.groupEnd.target, GroupEndArgs);
      rc := MapBackendResult(a.code);
      Delivered(old(Abs()), EndGroup, a);
    }

    // ---- gates ----

    /** The slot test behind the *_available predicates. */
    predicate Has(op: Operation)
      requires Valid()
      reads this, host, registry, registry.cell, registry.binder
      ensures Has(op) <==> Offers(Abs().session, op)
    {
      if initialized then
        WiredSlotsAreLive(registry.cell.unicc, registry.binder.natives, handle.value, Family().value, op);
        SlotOf(registry.cell.unicc, op) != Empty
      else false
    }

    // ---- whole runs ----

    /** The objects a run may write. */
    ghost function Repr(): set<object> {
      {this, host, registry, registry.cell, registry.binder}
    }

    /** Make one call, through freshly built caller-side structures, and collect what it hands back. */
    method Do(e: Event) returns (reply: Reply)
      requires Valid()
      modifies Repr()
      ensures Valid() && RestOfProcess() == old(RestOfProcess())
      ensures (Abs(), reply) == Step(table, host.behave, old(Abs()), e)
      ensures Reaches(old(host.Now()), host.Now())
    {
      ReachesItself(host.Now());
      hide Reaches;
      if Backing(e.call).Some? {
        reply := DoBacked(e.call);
      } else {
        reply := DoLocal(e);
      }
    }

    method DoBacked(call: Call) returns (reply: Reply)
      requires Valid() && Backing(call).Some?
      modifies this`lastResult, host`log
      ensures Valid() && RestOfProcess() == old(RestOfProcess())
      ensures (Abs(), reply) == Forward(host.behave, old(Abs()), call)
    {
      hide SymbolName, WellFormed, Stamped;
      var rc, n := OK, None;
      match call {
        case BackendVersion(out) => rc, n := GetBackendVersion(out);
        case GetId(out) => reply := DoGetId(out); return;
        case InitRank(out, nranks, id, rank) => reply := DoInitRank(out, nranks, id, rank); return;
        case Destroy(comm) => rc := CommDestroyOf(comm);
        case Count(comm, out) => rc, n := CommCountOf(comm, out);
        case UserRank(comm, out) => rc, n := CommUserRankOf(comm, out);
        case Reduce(send, recv, count, dt, op, comm, stream) =>
          rc := AllReduceOn(send, recv, count, dt, op, comm, stream);
        case Bcast(buf, count, dt, root, comm, stream) => rc := BroadcastOn(buf, count, dt, root, comm, stream);
        case StartGroup => rc := GroupStartNow();
        case EndGroup => rc := GroupEndNow();
      }
      reply := Reply(rc, NumberOutput(n));
    }

    method DoGetId(out: bool) returns (reply: Reply)
      requires Valid()
      modifies this`lastResult, host`log
      ensures Valid() && RestOfProcess() == old(RestOfProcess())
      ensures (Abs(), reply) == Forward(host.behave, old(Abs()), GetId(out))
    {
      hide SymbolName, WellFormed, Stamped;
      var id: CommId? := null;
      if out {
        id := new CommId(0, seq(COMM_ID_MAX, i => 0));
      }
      var rc := GetUniqueIdInto(id);
      reply := Reply(rc, if rc == OK then Bytes(id.data[..id.len]) else Nothing);
    }

    method DoInitRank(out: bool, nranks: CInt, id: Option<IdValue>, rank: CInt) returns (reply: Reply)
      requires Valid()
      modifies this`lastResult, host`log
      ensures Valid() && RestOfProcess() == old(RestOfProcess())
      ensures (Abs(), reply) == Forward(host.behave, old(Abs()), InitRank(out, nranks, id, rank))
    {
      hide SymbolName, WellFormed, Stamped;
      var buffer: CommId? := null;
      if id.Some? {
        buffer := new CommId(id.value.len, id.value.data);
      }
      var rc, comm := CommInitRankWith(out, nranks, buffer, rank);
      reply := Reply(rc, NumberOutput(comm));
    }

    /** Lifecycle, queries and gates: no native call. */
    method DoLocal(e: Event) returns (reply: Reply)
      requires Valid() && Backing(e.call).None?
      modifies Repr()
      ensures Valid() && RestOfProcess() == old(RestOfProcess())
      ensures (Abs(), reply) == Step(table, host.behave, old(Abs()), e)
      ensures Reaches(old(host.Now()), host.Now())
    {
      ReachesItself(host.Now());
      hide SymbolName, WellFormed, Stamped, Reaches;
      var rc := OK;
      match e.call
      case Init => rc := Init(e.world); reply := Reply(rc, Nothing);
      case Finalize => rc := Finalize(); reply := Reply(rc, Nothing);
      case Diagnose => rc := Diagnose(e.world); reply := Reply(rc, Nothing);
      case IsInitialized => reply := Flag(initialized);
      case BackendName => var name := GetBackendName(); reply := Reply(OK, Text(name));
      case LibraryPath => reply := Reply(OK, Text(libPath));
      case CommAvailable => reply := Flag(Has(CommInitRank) && Has(GetUniqueId));
      case IdAvailable => reply := Flag(Has(GetUniqueId));
      case ReduceAvailable => reply := Flag(Has(AllReduce));
      case BcastAvailable => reply := Flag(Has(Broadcast));
      case StartGroupAvailable => reply := Flag(Has(GroupStart));
      case EndGroupAvailable => reply := Flag(Has(GroupEnd));
      case LastError(out) =>
        reply := if out then Reply(OK, Number(lastResult)) else Reply(ERR_INVALID_ARGUMENT, Nothing);
      case _ => assert false;
    }

    /** Refinement over whole runs: every reply, every native call and the final session are the
        specification's, and the process ends holding exactly the opens it should. */
    method Perform(events: seq<Event>) returns (replies: seq<Reply>)
      requires Valid()
      modifies Repr()
      ensures Valid() && RestOfProcess() == old(RestOfProcess())
      ensures (Abs(), replies) == Run(table, host.behave, old(Abs()), events)
      ensures Reaches(old(host.Now()), host.Now())
    {
      ReachesItself(host.Now());
      hide Reaches;
      replies := [];
      for i := 0 to |events|
        invariant Valid() && RestOfProcess() == old(RestOfProcess())
        invariant (Abs(), replies) == Run(table, host.behave, old(Abs()), events[..i])
        invariant Reaches(old(host.Now()), host.Now())
      {
        ghost var before := host.Now();
        var reply := Do(events[i]);
        ReachesComposes(old(host.Now()), before, host.Now());
        replies := replies + [reply];
        assert events[..i + 1][..i] == events[..i];
      }
      assert events[..|events|] == events;
    }
  }

  /** After a finalize, in every later state, nothing the binder still holds into an image that the
      rest of the process does not keep mapped can be called any more, nor can any symbol of the
      session's own load. */
  method FinalizeForGood(u: Unicc, events: seq<Event>) returns (replies: seq<Reply>)
    requires u.Valid() && u.initialized
    modifies u.Repr()
    ensures u.Valid()
    ensures (u.Abs(), replies)
         == Run(u.table, u.host.behave, State(Closed, old(u.host.log)), events)
    ensures forall p :: && p in Retained(old(u.registry.binder.natives)) && p.Fn?
                        && p.handle.image !in old(u.RestOfProcess())
                        ==> !u.host.Callable(p)
    ensures old(u.handle.value.image !in u.RestOfProcess()) ==>
              forall symbol :: !u.host.Callable(Fn(old(u.handle.value), symbol))
  {
    hide SymbolName, Step, Run, Reaches, Wired, WellFormed, Retained;
    var _ := u.Finalize();
    ghost var k := u.host.Now();
    forall h: Handle, later | h.generation < k.next && h.image !in k.loaded && Reaches(k, later)
      ensures !IsOpenIn(later.loaded, h)
    {
      u.GoneForGood(h, later);
    }
    replies := u.Perform(events);
  }

  /** A process from its start through any sequence of calls: the laws of the specification hold
      of the implementation, and whenever a session is open every slot either is empty, exactly when
      the image does not offer the operation, or ends at a live pointer to the family's symbol. */
  method RunProcess(table: seq<Descriptor>, behave: Behaviour, events: seq<Event>)
    returns (u: Unicc, replies: seq<Reply>)
    requires WellFormed(table)
    ensures u.Valid() && replies == Run(table, behave, State(Closed, []), events).1
    ensures Sane(table, u.Abs().session)
    ensures Raw(u.Abs().session) == LatestFailure(table, behave, State(Closed, []), events)
    ensures forall i :: 0 <= i < |events| && events[i].call == LastError(true) ==>
              replies[i] == Reply(0, Number(LatestFailure(table, behave, State(Closed, []), events[..i])))
    ensures forall i :: 0 <= i < |u.Abs().log| ==> GoodCall(table, u.Abs().log[i].call)
    ensures if u.initialized then u.host.loaded == map[u.handle.value.image := Mapping(u.handle.value.generation, 1)]
            else u.host.loaded == map[]
    ensures forall op :: u.initialized ==> u.SlotIsLive(op)
    ensures forall op :: !u.initialized ==> SlotOf(u.registry.cell.unicc, op) == Empty
  {
    hide SymbolName, Step, Run, LatestFailure, GoodCall, Reaches, Stamped;
    u := new Unicc(table, behave);
    replies := u.Perform(events);
    u.HoldsOneOpen();
    RawIsLatestFailure(table, behave, [], events);
    EveryNativeCallIsGood(table, behave, State(Closed, []), events);
    RunKeepsSane(table, behave, State(Closed, []), events);
    forall i | 0 <= i < |events| && events[i].call == LastError(true)
      ensures replies[i] == Reply(0, Number(LatestFailure(table, behave, State(Closed, []), events[..i])))
    {
      LastErrorReplies(table, behave, events, i);
    }
  }

  /** Stale state is unobservable: an uninitialized process with any past, whatever its binder
      pointers still hold, goes on exactly as a process that has just started would against
      backends that answer alike. */
  method Continue(used: Unicc, started: Unicc, events: seq<Event>) returns (replies: seq<Reply>, expected: seq<Reply>)
    requires used.Valid() && !used.initialized && started.Valid()
    requires started.Abs() == State(Closed, []) && started.table == used.table
    requires used.Repr() !! started.Repr()
    requires Agree(used.host.behave, used.host.log, started.host.behave, [])
    modifies used.Repr(), started.Repr()
    ensures used.Valid() && started.Valid()
    ensures replies == expected
    ensures used.Abs().session == started.Abs().session
    ensures used.host.log == old(used.host.log) + started.host.log
  {
    hide SymbolName, Step, Run, Reaches, Agree;
    ghost var s, s' := used.Abs(), started.Abs();
    assert |used.table| > 0;
    hide Unicc.Valid;
    SameContinuation(used.table, used.host.behave, s, started.host.behave, s', events);
    replies := used.Perform(events);
    expected := started.Perform(events);
    assert [] + started.host.log == started.host.log;
  }
}
