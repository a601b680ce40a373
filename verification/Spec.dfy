/** What a client of the API observes: a session is closed, or is one library seen through one
    family, and every call looks its native symbol up directly. There is no table, no adapter
    and no cached pointer here. */
module Spec {
  import opened Common
  import opened Platform
  import opened Families
  import opened Selection

  datatype Session =
    | Closed
    | Open(path: string, image: Image, row: Descriptor, raw: CInt)

  datatype State = State(session: Session, log: seq<Entry>)

  /** The contents of a caller's unicc_comm_id_t. */
  datatype IdContents = IdContents(len: SizeT, data: seq<Byte>)

  type IdValue = v: IdContents | |v.data| == COMM_ID_MAX
    witness IdContents(0, seq(COMM_ID_MAX, i => 0))

  /** One API call. A bool named `out` says whether the out-parameter is non-NULL. */
  datatype Call =
    | Init | Finalize | IsInitialized | BackendName | LibraryPath | Diagnose
    | BackendVersion(out: bool)
    | GetId(out: bool)
    | InitRank(out: bool, nranks: CInt, id: Option<IdValue>, rank: CInt)
    | Destroy(comm: Address)
    | Count(comm: Address, out: bool)
    | UserRank(comm: Address, out: bool)
    | Reduce(send: Address, recv: Address, count: SizeT, dt: CInt, op: CInt, comm: Address, stream: Address)
    | Bcast(buf: Address, count: SizeT, dt: CInt, root: CInt, comm: Address, stream: Address)
    | StartGroup | EndGroup
    | CommAvailable | IdAvailable | ReduceAvailable | BcastAvailable | StartGroupAvailable | EndGroupAvailable
    | LastError(out: bool)

  /** A call, made in the world as it is at that moment. */
  datatype Event = Event(world: World, call: Call)

  /** What a call hands back besides its code. */
  datatype Output = Nothing | Number(n: int) | Bytes(bytes: seq<Byte>) | Text(text: string)

  datatype Reply = Reply(code: CInt, output: Output)

  const DT_COUNT: int := 10
  const OP_COUNT: int := 4

  /** The native entry point behind a call, if it has one. */
  function Backing(call: Call): Option<Operation> {
    match call
    case BackendVersion(_) => Some(GetVersion)
    case GetId(_) => Some(GetUniqueId)
    case InitRank(_, _, _, _) => Some(CommInitRank)
    case Destroy(_) => Some(CommDestroy)
    case Count(_, _) => Some(CommCount)
    case UserRank(_, _) => Some(CommUserRank)
    case Reduce(_, _, _, _, _, _, _) => Some(AllReduce)
    case Bcast(_, _, _, _, _, _) => Some(Broadcast)
    case StartGroup => Some(GroupStart)
    case EndGroup => Some(GroupEnd)
    case _ => None
  }

  /** The arguments are acceptable to the API; the length of an id is the backend's business. */
  predicate ValidArguments(call: Call) {
    match call
    case BackendVersion(out) => out
    case GetId(out) => out
    case InitRank(out, nranks, id, rank) => out && nranks >= 1 && 0 <= rank < nranks && id.Some? && id.value.len != 0
    case Count(_, out) => out
    case UserRank(_, out) => out
    case Reduce(send, recv, count, dt, op, _, _) =>
      send != 0 && recv != 0 && count != 0 && 0 <= dt < DT_COUNT && 0 <= op < OP_COUNT
    case Bcast(buf, count, dt, _, _, _) => buf != 0 && count != 0 && 0 <= dt < DT_COUNT
    case _ => true
  }

  /** The id in the call, if there is one, is of the size this family consumes. */
  predicate IdFits(row: Descriptor, call: Call) {
    call.InitRank? && call.id.Some? ==> call.id.value.len == ConsumedIdBytes(row)
  }

  /** The native arguments for a call with a backing operation and valid arguments. */
  function NativeArgs(row: Descriptor, call: Call): Args
    requires Backing(call).Some? && ValidArguments(call)
  {
    match call
    case BackendVersion(_) => GetVersionArgs
    case GetId(_) => GetIdArgs(ProducedIdBytes(row))
    case InitRank(_, nranks, id, rank) =>
      InitRankArgs(if row.ranksAreSizeT then SizeRanks else IntRanks, nranks,
                   id.value.data[..ConsumedIdBytes(row)], rank)
    case Destroy(comm) => DestroyArgs(comm)
    case Count(comm, _) => CountArgs(comm)
    case UserRank(comm, _) => UserRankArgs(comm)
    case Reduce(send, recv, count, dt, op, comm, stream) => AllReduceArgs(send, recv, count, dt, op, comm, stream)
    case Bcast(buf, count, dt, root, comm, stream) =>
      if row.doubleBuffered then PairBroadcastArgs(buf, buf, count, dt, root, comm, stream)
      else InPlaceBroadcastArgs(buf, count, dt, root, comm, stream)
    case StartGroup => GroupStartArgs
    case EndGroup => GroupEndArgs
  }

  /** What the caller sees of a native answer. */
  function NativeOutput(row: Descriptor, call: Call, a: Answer): Output {
    match call
    case GetId(_) => if a.code == 0 then Bytes(a.id[..ProducedIdBytes(row)]) else Nothing
    case BackendVersion(_) => Stored(a)
    case InitRank(_, _, _, _) => Stored(a)
    case Count(_, _) => Stored(a)
    case UserRank(_, _) => Stored(a)
    case _ => Nothing
  }

  function Stored(a: Answer): Output {
    if a.stored.Some? then Number(a.stored.value) else Nothing
  }

  /** Only positive codes are the backend's; a negative one is already a unified code. */
  function Unified(code: CInt): CInt {
    if code > 0 then ERR_UNHANDLED_BACKEND else code
  }

  /** A backed call: gated, then looked up in the session's image under the family's name. */
  function Forward(behave: Behaviour, s: State, call: Call): (State, Reply)
    requires Backing(call).Some?
  {
    if s.session.Closed? then (s, Reply(ERR_NOT_INITIALIZED, Nothing))
    else
      var op := Backing(call).value;
      var row := s.session.row;
      if !Supports(row, s.session.image, op) then (s, Reply(ERR_NOT_SUPPORTED, Nothing))
      else if !ValidArguments(call) || !IdFits(row, call) then (s, Reply(ERR_INVALID_ARGUMENT, Nothing))
      else
        var native := NativeCall(s.session.image, SymbolName(row, op), NativeArgs(row, call));
        var a := behave(s.log, native);
        var raw := if a.code > 0 then a.code else s.session.raw;
        (State(s.session.(raw := raw), s.log + [Entry(native, a)]), Reply(Unified(a.code), NativeOutput(row, call, a)))
  }

  predicate Offers(session: Session, op: Operation) {
    session.Open? && Supports(session.row, session.image, op)
  }

  function Flag(b: bool): Reply {
    Reply(if b then 1 else 0, Nothing)
  }

  /** Start a session, or say why not. */
  function Begin(table: seq<Descriptor>, s: State, w: World): (State, Reply)
    requires |table| > 0
  {
    if s.session.Open? then (s, Reply(ERR_ALREADY_INITIALIZED, Nothing))
    else
      match InitOutcome(table, w)
      case Refused(code) => (s, Reply(code, Nothing))
      case Started(path, image, row) => (s.(session := Open(path, image, row, 0)), Reply(OK, Nothing))
  }

  function Step(table: seq<Descriptor>, behave: Behaviour, s: State, e: Event): (State, Reply)
    requires |table| > 0
  {
    var session := s.session;
    match e.call
    case Init => Begin(table, s, e.world)
    case Finalize =>
      if session.Closed? then (s, Reply(ERR_NOT_INITIALIZED, Nothing))
      else (s.(session := Closed), Reply(OK, Nothing))
    case IsInitialized => (s, Flag(session.Open?))
    case BackendName => (s, Reply(OK, Text(if session.Open? then session.row.name else "unknown")))
    case LibraryPath => (s, Reply(OK, Text(if session.Open? then session.path else "")))
    case Diagnose => (s, Reply(OK, Nothing))
    case CommAvailable => (s, Flag(Offers(session, CommInitRank) && Offers(session, GetUniqueId)))
    case IdAvailable => (s, Flag(Offers(session, GetUniqueId)))
    case ReduceAvailable => (s, Flag(Offers(session, AllReduce)))
    case BcastAvailable => (s, Flag(Offers(session, Broadcast)))
    case StartGroupAvailable => (s, Flag(Offers(session, GroupStart)))
    case EndGroupAvailable => (s, Flag(Offers(session, GroupEnd)))
    case LastError(out) =>
      if !out then (s, Reply(ERR_INVALID_ARGUMENT, Nothing))
      else (s, Reply(OK, Number(if session.Open? then session.raw else 0)))
    case _ => Forward(behave, s, e.call)
  }

  /** A whole run, with every reply. */
  function Run(table: seq<Descriptor>, behave: Behaviour, s: State, events: seq<Event>): (r: (State, seq<Reply>))
    requires |table| > 0
    ensures |r.1| == |events|
    decreases |events|
  {
    if events == [] then (s, [])
    else
      var (before, replies) := Run(table, behave, s, events[..|events| - 1]);
      var (after, reply) := Step(table, behave, before, events[|events| - 1]);
      (after, replies + [reply])
  }

  function Final(table: seq<Descriptor>, behave: Behaviour, s: State, events: seq<Event>): State
    requires |table| > 0
  {
    Run(table, behave, s, events).0
  }
}
