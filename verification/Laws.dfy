/** What the specification promises over every run; the API inherits it by refinement. */
module Laws {
  import opened Common
  import opened Platform
  import opened Families
  import opened Selection
  import opened Spec

  // ---- what every reachable session satisfies ----

  /** An open session is seen through the family its image was identified as, which has all its
      core symbols; its raw code is never negative. */
  predicate Sane(table: seq<Descriptor>, session: Session) {
    session.Open? ==>
      && Identified(table, session.image) == Some(session.row)
      && HasBinding(session.row.kind)
      && CoreExported(session.row, session.image)
      && session.raw >= 0
  }

  lemma StepKeepsSane(table: seq<Descriptor>, behave: Behaviour, s: State, e: Event)
    requires |table| > 0 && Sane(table, s.session)
    ensures Sane(table, Step(table, behave, s, e).0.session)
  {
  }

  /** A call makes at most one native call, and only logs it. */
  lemma StepLogs(table: seq<Descriptor>, behave: Behaviour, s: State, e: Event)
    requires |table| > 0
    ensures var after := Step(table, behave, s, e).0;
            after.log == s.log || (|after.log| == |s.log| + 1 && after.log[..|s.log|] == s.log)
  {
  }

  lemma {:induction false} RunKeepsSane(table: seq<Descriptor>, behave: Behaviour, s: State, events: seq<Event>)
    requires |table| > 0 && Sane(table, s.session)
    ensures Sane(table, Final(table, behave, s, events).session)
    decreases |events|
  {
    if events == [] {
    } else {
      var prefix := events[..|events| - 1];
      RunKeepsSane(table, behave, s, prefix);
      StepKeepsSane(table, behave, Final(table, behave, s, prefix), events[|events| - 1]);
    }
  }

  // ---- stale state is unobservable ----

  /** From here on the two backends answer alike. */
  ghost predicate Agree(b: Behaviour, log: seq<Entry>, b': Behaviour, log': seq<Entry>) {
    forall more, call :: b(log + more, call) == b'(log' + more, call)
  }

  /** Both logs grew by the same entries. */
  predicate SameGrowth(from: seq<Entry>, to: seq<Entry>, from': seq<Entry>, to': seq<Entry>) {
    |to| >= |from| && to == from + to[|from|..] && to' == from' + to[|from|..]
  }

  lemma GrowthComposes(a: seq<Entry>, b: seq<Entry>, c: seq<Entry>, a': seq<Entry>, b': seq<Entry>, c': seq<Entry>)
    requires SameGrowth(a, b, a', b') && SameGrowth(b, c, b', c')
    ensures SameGrowth(a, c, a', c')
  {
  }

  /** Two processes in the same session, whatever each did before, give the same replies and make
      the same native calls for ever after. */
  lemma {:induction false} SameContinuation(table: seq<Descriptor>, b: Behaviour, s: State, b': Behaviour, s': State,
                                            events: seq<Event>)
    requires |table| > 0 && s.session == s'.session && Agree(b, s.log, b', s'.log)
    ensures Run(table, b, s, events).1 == Run(table, b', s', events).1
    ensures Final(table, b, s, events).session == Final(table, b', s', events).session
    ensures SameGrowth(s.log, Final(table, b, s, events).log, s'.log, Final(table, b', s', events).log)
    decreases |events|
  {
    hide Step;
    if events == [] {
    } else {
      var prefix, e := events[..|events| - 1], events[|events| - 1];
      SameContinuation(table, b, s, b', s', prefix);
      var t, t' := Final(table, b, s, prefix), Final(table, b', s', prefix);
      SameStep(table, b, t, b', t', e, s.log, s'.log);
      GrowthComposes(s.log, t.log, Step(table, b, t, e).0.log, s'.log, t'.log, Step(table, b', t', e).0.log);
    }
  }

  lemma SameStep(table: seq<Descriptor>, b: Behaviour, t: State, b': Behaviour, t': State, e: Event,
                 log: seq<Entry>, log': seq<Entry>)
    requires |table| > 0 && t.session == t'.session && Agree(b, log, b', log')
    requires SameGrowth(log, t.log, log', t'.log)
    ensures Step(table, b, t, e).1 == Step(table, b', t', e).1
    ensures Step(table, b, t, e).0.session == Step(table, b', t', e).0.session
    ensures SameGrowth(t.log, Step(table, b, t, e).0.log, t'.log, Step(table, b', t', e).0.log)
  {
  }

  // ---- the raw error code ----

  function Raw(session: Session): CInt {
    if session.Open? then session.raw else 0
  }

  /** The most recent positive native result since the last successful init or finalize, read off
      the replies and the log alone; 0 if there is none. */
  function LatestFailure(table: seq<Descriptor>, behave: Behaviour, s: State, events: seq<Event>): CInt
    requires |table| > 0
    decreases |events|
  {
    if events == [] then 0
    else
      var prefix, call := events[..|events| - 1], events[|events| - 1].call;
      var before, after := Final(table, behave, s, prefix), Final(table, behave, s, events);
      var code := Run(table, behave, s, events).1[|events| - 1].code;
      if (call.Init? || call.Finalize?) && code == OK then 0
      else if |after.log| > |before.log| && after.log[|after.log| - 1].answer.code > 0
        then after.log[|after.log| - 1].answer.code
      else LatestFailure(table, behave, s, prefix)
  }

  lemma {:induction false} RawIsLatestFailure(table: seq<Descriptor>, behave: Behaviour, log: seq<Entry>,
                                              events: seq<Event>)
    requires |table| > 0
    ensures var s := State(Closed, log);
            && Raw(Final(table, behave, s, events).session) == LatestFailure(table, behave, s, events) >= 0
            && (Final(table, behave, s, events).session.Closed? ==> LatestFailure(table, behave, s, events) == 0)
    decreases |events|
  {
    hide SymbolName;
    if events == [] {
    } else {
      RawIsLatestFailure(table, behave, log, events[..|events| - 1]);
    }
  }

  /** The reply at each place of a run is that of the step taken there. */
  lemma {:induction false} ReplyAt(table: seq<Descriptor>, behave: Behaviour, s: State, events: seq<Event>, i: nat)
    requires |table| > 0 && i < |events|
    ensures Run(table, behave, s, events).1[i] == Step(table, behave, Final(table, behave, s, events[..i]), events[i]).1
    decreases |events|
  {
    hide Step;
    if i == |events| - 1 {
    } else {
      var prefix := events[..|events| - 1];
      assert prefix[..i] == events[..i];
      ReplyAt(table, behave, s, prefix, i);
    }
  }

  /** Wherever unicc_get_last_error is called in a run, it succeeds with the latest failure before it;
      with a null pointer it is refused. Neither changes anything. */
  lemma LastErrorExactly(table: seq<Descriptor>, behave: Behaviour, log: seq<Entry>, events: seq<Event>, w: World)
    requires |table| > 0
    ensures var s := Final(table, behave, State(Closed, log), events);
            && Step(table, behave, s, Event(w, LastError(true)))
            == (s, Reply(0, Number(LatestFailure(table, behave, State(Closed, log), events))))
            && Step(table, behave, s, Event(w, LastError(false))) == (s, Reply(-8, Nothing))
  {
    RawIsLatestFailure(table, behave, log, events);
    hide LatestFailure, Run;
  }

  lemma LastErrorReplies(table: seq<Descriptor>, behave: Behaviour, events: seq<Event>, i: nat)
    requires |table| > 0 && i < |events| && events[i].call == LastError(true)
    ensures Run(table, behave, State(Closed, []), events).1[i]
         == Reply(0, Number(LatestFailure(table, behave, State(Closed, []), events[..i])))
  {
    hide Step, Run, LatestFailure;
    ReplyAt(table, behave, State(Closed, []), events, i);
    LastErrorExactly(table, behave, [], events[..i], events[i].world);
    assert events[i] == Event(events[i].world, LastError(true));
  }

  // ---- what native functions are called with ----

  /** The arguments have the family's signature for the operation and are in range. */
  predicate GoodArgs(row: Descriptor, op: Operation, args: Args) {
    match args
    case GetVersionArgs => op == GetVersion
    case AllReduceArgs(send, recv, count, dt, rop, _, _) =>
      op == AllReduce && send != 0 && recv != 0 && count >= 1 && 0 <= dt <= 9 && 0 <= rop <= 3
    case InPlaceBroadcastArgs(buf, count, dt, _, _, _) =>
      op == Broadcast && !row.doubleBuffered && buf != 0 && count >= 1 && 0 <= dt <= 9
    case PairBroadcastArgs(send, recv, count, dt, _, _, _) =>
      op == Broadcast && row.doubleBuffered && send == recv != 0 && count >= 1 && 0 <= dt <= 9
    case InitRankArgs(abi, nranks, uid, rank) =>
      && op == CommInitRank && (abi == SizeRanks <==> row.ranksAreSizeT)
      && 0 <= rank < nranks < 0x8000_0000 && |uid| == ConsumedIdBytes(row)
    case GetIdArgs(n) => op == GetUniqueId && n == ProducedIdBytes(row)
    case DestroyArgs(_) => op == CommDestroy
    case CountArgs(_) => op == CommCount
    case UserRankArgs(_) => op == CommUserRank && row.hasUserRank
    case GroupStartArgs => op == GroupStart
    case GroupEndArgs => op == GroupEnd
  }

  /** A native call to an exported symbol of the family its image was identified as. */
  ghost predicate GoodCall(table: seq<Descriptor>, call: NativeCall) {
    exists op ::
      && Identified(table, call.image).Some?
      && call.symbol == SymbolName(Identified(table, call.image).value, op)
      && call.symbol in call.image.exports
      && GoodArgs(Identified(table, call.image).value, op, call.args)
  }

  lemma {:induction false} EveryNativeCallIsGood(table: seq<Descriptor>, behave: Behaviour, s: State,
                                                 events: seq<Event>)
    requires |table| > 0 && Sane(table, s.session)
    ensures var log := Final(table, behave, s, events).log;
            && |log| >= |s.log|
            && forall i :: |s.log| <= i < |log| ==> GoodCall(table, log[i].call)
    decreases |events|
  {
    hide Step, GoodCall, Sane;
    if events == [] {
    } else {
      var prefix, e := events[..|events| - 1], events[|events| - 1];
      EveryNativeCallIsGood(table, behave, s, prefix);
      RunKeepsSane(table, behave, s, prefix);
      StepCallsGood(table, behave, Final(table, behave, s, prefix), e);
    }
  }

  lemma StepCallsGood(table: seq<Descriptor>, behave: Behaviour, s: State, e: Event)
    requires |table| > 0 && Sane(table, s.session)
    ensures var log := Step(table, behave, s, e).0.log;
            log == s.log || (&& |log| == |s.log| + 1 && log[..|s.log|] == s.log && GoodCall(table, log[|s.log|].call))
  {
    hide SymbolName;
    StepLogs(table, behave, s, e);
    var after := Step(table, behave, s, e).0;
    if after.log != s.log {
      var call := after.log[|s.log|].call;
      var op := Backing(e.call).value;
      assert call.symbol == SymbolName(s.session.row, op) && call.symbol in call.image.exports;
      assert GoodArgs(s.session.row, op, call.args);
    }
  }

  // ---- availability ----

  /** The gate that answers for an operation. */
  function GateCall(op: Operation): Option<Call> {
    match op
    case AllReduce => Some(ReduceAvailable)
    case Broadcast => Some(BcastAvailable)
    case GetUniqueId => Some(IdAvailable)
    case GroupStart => Some(StartGroupAvailable)
    case GroupEnd => Some(EndGroupAvailable)
    case _ => None
  }

  /** Availability is exact: the gate says 1 exactly when a well-formed call makes one native
      call; otherwise the call changes nothing. */
  lemma GateIsExact(table: seq<Descriptor>, behave: Behaviour, s: State, w: World, call: Call)
    requires |table| > 0 && Backing(call).Some? && ValidArguments(call)
    requires s.session.Open? ==> IdFits(s.session.row, call)
    ensures var op := Backing(call).value;
            var after := Step(table, behave, s, Event(w, call)).0;
            && (Offers(s.session, op) <==> |after.log| == |s.log| + 1)
            && (!Offers(s.session, op) ==> after == s)
            && (GateCall(op).Some? ==>
                  (Step(table, behave, s, Event(w, GateCall(op).value)).1.code == 1 <==> |after.log| == |s.log| + 1))
  {
  }

  /** In a reachable state the core gates only repeat is_initialized, and bootstrap hangs on the
      id half alone. */
  lemma CoreGatesFollowTheSession(table: seq<Descriptor>, behave: Behaviour, log: seq<Entry>, events: seq<Event>,
                                  w: World)
    requires |table| > 0
    ensures var s := Final(table, behave, State(Closed, log), events);
            && Step(table, behave, s, Event(w, ReduceAvailable)).1 == Step(table, behave, s, Event(w, IsInitialized)).1
            && Step(table, behave, s, Event(w, BcastAvailable)).1 == Step(table, behave, s, Event(w, IsInitialized)).1
            && Step(table, behave, s, Event(w, CommAvailable)).1 == Step(table, behave, s, Event(w, IdAvailable)).1
  {
    hide SymbolName;
    RunKeepsSane(table, behave, State(Closed, log), events);
  }

  // ---- initialization ----

  /** The failures of unicc_init that come before anything is opened, or from opening it; each
      failure leaves the state as it was. */
  lemma InitRefusals(table: seq<Descriptor>, behave: Behaviour, s: State, w: World)
    requires |table| > 0 && ShortLibraries(table[0])
    ensures var (after, reply) := Step(table, behave, s, Event(w, Init));
            var name := Requested(table, w);
            && (reply.code == ERR_ALREADY_INITIALIZED <==> s.session.Open?)
            && (reply.code == ERR_NO_BACKEND <==>
                  && s.session.Closed? && w.library in {None, Some("")} && w.backend in {None, Some("")}
                  && NeitherOpens(table, w, table[0].lib))
            && (reply.code == ERR_INVALID_ARGUMENT <==> s.session.Closed? && |name| >= LIB_PATH_CAPACITY)
            && (reply.code == ERR_BACKEND_LOAD <==>
                  && s.session.Closed? && !(w.library in {None, Some("")} && w.backend in {None, Some("")})
                  && |name| < LIB_PATH_CAPACITY && NeitherOpens(table, w, name))
            && (reply.code != OK ==> after == s)
            && reply.code in {OK, ERR_ALREADY_INITIALIZED, ERR_NO_BACKEND, ERR_INVALID_ARGUMENT, ERR_BACKEND_LOAD,
                              ERR_SYMBOL_NOT_FOUND, ERR_BACKEND_NOT_SUPPORTED, ERR_BACKEND_INIT_FAILED}
  {
    hide SymbolName, NeitherOpens, Opened, ShortLibraries, Identified, CoreExported;
    NoBackendExactly(table, w);
    LoadFailureExactly(table, w);
  }

  /** The failures of unicc_init that are about the library it has opened. */
  lemma InitRejections(table: seq<Descriptor>, behave: Behaviour, s: State, w: World)
    requires |table| > 0 && Ascending(table)
    ensures var code := Step(table, behave, s, Event(w, Init)).1.code;
            var tried := s.session.Closed? && Loads(table, w);
            && (code == ERR_SYMBOL_NOT_FOUND <==>
                  tried && var image := LoadedImage(table, w);
                  || NoProbe(table, image)
                  || (&& w.supported
                      && exists d :: TopProbed(table, image, d) && HasBinding(d.kind) && !CoreExported(d, image)))
            && (code == ERR_BACKEND_NOT_SUPPORTED <==>
                  tried && !NoProbe(table, LoadedImage(table, w)) && !w.supported)
            && (code == ERR_BACKEND_INIT_FAILED <==>
                  tried && w.supported
                  && exists d :: TopProbed(table, LoadedImage(table, w), d) && !HasBinding(d.kind))
  {
    hide SymbolName, Opened, Identified, CoreExported, TopProbed, NoProbe, InitOutcome, Requested;
    SymbolNotFoundExactly(table, w);
    PlatformRefusalExactly(table, w);
    BindingMissingExactly(table, w);
  }

  /** Some row outranks every other probed row of the loaded image, and can be bound here. */
  ghost predicate CanBind(table: seq<Descriptor>, w: World, image: Image) {
    && w.supported
    && exists row ::
         TopProbed(table, image, row) && HasBinding(row.kind) && forall op :: Core(op) ==> Supports(row, image, op)
  }

  lemma CanBindExactly(table: seq<Descriptor>, w: World, image: Image)
    requires Ascending(table)
    ensures CanBind(table, w, image) <==> Bind(table, w, image).Bound?
  {
    hide SymbolName, TopProbed, Identified, CoreExported;
    IdentifiedIsTop(table, image);
    forall row ensures CoreExported(row, image) <==> forall op :: Core(op) ==> Supports(row, image, op) {
      CoreIsSupported(row, image);
    }
    if Bind(table, w, image).Bound? {
      assert TopProbed(table, image, Identified(table, image).value);
    }
  }

  /** The success of unicc_init: the name fits, one of its spellings opens, and what opens can be
      bound. */
  lemma InitSuccess(table: seq<Descriptor>, behave: Behaviour, s: State, w: World)
    requires |table| > 0 && Ascending(table)
    ensures var (after, reply) := Step(table, behave, s, Event(w, Init));
            var name := Requested(table, w);
            && (reply.code == OK <==> && s.session.Closed? && |name| < LIB_PATH_CAPACITY
                                      && !NeitherOpens(table, w, name)
                                      && Loads(table, w) && CanBind(table, w, LoadedImage(table, w)))
            && (reply.code == OK ==>
                  && after.session.Open? && after.session.raw == 0 && after.log == s.log
                  && after.session.path in w.files && after.session.image == w.files[after.session.path]
                  && Sane(table, after.session))
  {
    hide SymbolName, NeitherOpens, CanBind;
    NeitherOpensIsExact(table, w, Requested(table, w));
    if Loads(table, w) {
      CanBindExactly(table, w, LoadedImage(table, w));
    }
  }

  // ---- bootstrap ids ----

  /** Going out and coming back: an id this session produced reaches the native CommInitRank byte
      for byte exactly when the row is not the int ABI with a 4096-byte id; otherwise it is turned
      away. The session may meanwhile have seen other calls. */
  lemma IdRoundTrip(behave: Behaviour, s: State, later: State, tail: seq<Byte>, nranks: CInt, rank: CInt)
    requires s.session.Open? && later.session.Open?
    requires later.session.row == s.session.row && later.session.image == s.session.image
    requires Supports(s.session.row, s.session.image, CommInitRank)
    requires 0 <= rank < nranks
    requires var (_, reply) := Forward(behave, s, GetId(true));
             reply.code == OK && |reply.output.bytes| + |tail| == COMM_ID_MAX
    ensures var (produced, reply) := Forward(behave, s, GetId(true));
            var id := reply.output.bytes;
            var (after, _) := Forward(behave, later, InitRank(true, nranks, Some(IdContents(|id|, id + tail)), rank));
            && id == produced.log[|s.log|].answer.id[..ProducedIdBytes(s.session.row)]
            && ((s.session.row.uidKind.OnecclUid? ==> s.session.row.ranksAreSizeT) <==>
                  && |after.log| == |later.log| + 1
                  && after.log[|later.log|].call.symbol == SymbolName(s.session.row, CommInitRank)
                  && after.log[|later.log|].call.args.InitRankArgs?
                  && after.log[|later.log|].call.args.uid == id)
  {
  }

  /** An id of any other length is rejected without a native call and without touching the raw
      code, whatever its bytes and wherever it came from. */
  lemma WrongLengthIsRejected(behave: Behaviour, s: State, id: IdValue, nranks: CInt, rank: CInt, out: bool)
    requires s.session.Open? && Supports(s.session.row, s.session.image, CommInitRank)
    ensures id.len != ConsumedIdBytes(s.session.row) ==>
              Forward(behave, s, InitRank(out, nranks, Some(id), rank)) == (s, Reply(ERR_INVALID_ARGUMENT, Nothing))
  {
  }
}
