/** Every API call spelled out: which native function it calls with which arguments, what it hands
    back, and with which code it is refused. Nothing here goes through the tables, suffixes and
    constants of the specification. */
module Calls {
  import opened Common
  import opened Platform
  import opened Families
  import opened Selection
  import opened Spec

  /** In an open session the family's name leaves room for every entry point in the 96-byte buffer. */
  predicate ShortSession(s: State) {
    s.session.Open? ==> |s.session.row.name| < 84
  }

  /** The open library exports the family's function of this name. */
  predicate Exports(s: State, entry: string)
    requires s.session.Open?
  {
    s.session.row.name + entry in s.session.image.exports
  }

  function Native(s: State, entry: string, args: Args): NativeCall
    requires s.session.Open?
  {
    NativeCall(s.session.image, s.session.row.name + entry, args)
  }

  /** What came out of one native call and nothing else: it is logged with its answer, a positive code is
      kept and reported as UNHANDLED_BACKEND, any other code is reported as it is. */
  predicate Performed(s: State, call: NativeCall, a: Answer, r: (State, Reply))
    requires s.session.Open?
  {
    && r.0.log == s.log + [Entry(call, a)]
    && r.0.session == Open(s.session.path, s.session.image, s.session.row, if a.code > 0 then a.code else s.session.raw)
    && r.1.code == (if a.code > 0 then -10 else a.code)
  }

  predicate Refused(s: State, code: CInt, r: (State, Reply)) {
    r == (s, Reply(code, Nothing))
  }

  /** The int or communicator the native function stored, if it stored one. */
  function StoredOutput(a: Answer): Output {
    match a.stored
    case Some(n) => Number(n)
    case None => Nothing
  }

  lemma EntryName(row: Descriptor, op: Operation)
    requires |row.name| < 84
    ensures SymbolName(row, op) == row.name + Suffix(op)
  {
  }

  // ---- backed calls ----

  lemma BackendVersionExactly(table: seq<Descriptor>, behave: Behaviour, s: State, w: World, out: bool)
    requires |table| > 0 && ShortSession(s)
    ensures var r := Step(table, behave, s, Event(w, BackendVersion(out)));
            if s.session.Closed? then Refused(s, -5, r)
            else if !Exports(s, "GetVersion") then Refused(s, -9, r)
            else if !out then Refused(s, -8, r)
            else
              var call := Native(s, "GetVersion", GetVersionArgs);
              Performed(s, call, behave(s.log, call), r) && r.1.output == StoredOutput(behave(s.log, call))
  {
    if s.session.Open? {
      EntryName(s.session.row, GetVersion);
    }
    hide SymbolName;
  }

  lemma GetUniqueIdExactly(table: seq<Descriptor>, behave: Behaviour, s: State, w: World, out: bool)
    requires |table| > 0 && ShortSession(s)
    ensures var r := Step(table, behave, s, Event(w, GetId(out)));
            if s.session.Closed? then Refused(s, -5, r)
            else if !Exports(s, "GetUniqueId") then Refused(s, -9, r)
            else if !out then Refused(s, -8, r)
            else
              var n: IdSize := if s.session.row.uidKind == OnecclUid then 4096 else 128;
              var call := Native(s, "GetUniqueId", GetIdArgs(n));
              var a := behave(s.log, call);
              Performed(s, call, a, r) && r.1.output == if a.code == 0 then Bytes(a.id[..n]) else Nothing
  {
    if s.session.Open? {
      EntryName(s.session.row, GetUniqueId);
    }
    hide SymbolName;
  }

  lemma CommInitRankExactly(table: seq<Descriptor>, behave: Behaviour, s: State, w: World,
                            out: bool, nranks: CInt, id: Option<IdValue>, rank: CInt)
    requires |table| > 0 && ShortSession(s)
    ensures var r := Step(table, behave, s, Event(w, InitRank(out, nranks, id, rank)));
            if s.session.Closed? then Refused(s, -5, r)
            else if !Exports(s, "CommInitRank") then Refused(s, -9, r)
            else
              var row := s.session.row;
              var n := if row.ranksAreSizeT && row.uidKind == OnecclUid then 4096 else 128;
              if !out || nranks < 1 || rank < 0 || rank >= nranks || id == None || id.value.len != n
              then Refused(s, -8, r)
              else
                var abi := if row.ranksAreSizeT then SizeRanks else IntRanks;
                var call := Native(s, "CommInitRank", InitRankArgs(abi, nranks, id.value.data[..n], rank));
                Performed(s, call, behave(s.log, call), r) && r.1.output == StoredOutput(behave(s.log, call))
  {
    if s.session.Open? {
      EntryName(s.session.row, CommInitRank);
    }
    hide SymbolName;
  }

  lemma CommDestroyExactly(table: seq<Descriptor>, behave: Behaviour, s: State, w: World, comm: Address)
    requires |table| > 0 && ShortSession(s)
    ensures var r := Step(table, behave, s, Event(w, Destroy(comm)));
            if s.session.Closed? then Refused(s, -5, r)
            else if !Exports(s, "CommDestroy") then Refused(s, -9, r)
            else
              var call := Native(s, "CommDestroy", DestroyArgs(comm));
              Performed(s, call, behave(s.log, call), r) && r.1.output == Nothing
  {
    if s.session.Open? {
      EntryName(s.session.row, CommDestroy);
    }
    hide SymbolName;
  }

  lemma CommCountExactly(table: seq<Descriptor>, behave: Behaviour, s: State, w: World, comm: Address, out: bool)
    requires |table| > 0 && ShortSession(s)
    ensures var r := Step(table, behave, s, Event(w, Count(comm, out)));
            if s.session.Closed? then Refused(s, -5, r)
            else if !Exports(s, "CommCount") then Refused(s, -9, r)
            else if !out then Refused(s, -8, r)
            else
              var call := Native(s, "CommCount", CountArgs(comm));
              Performed(s, call, behave(s.log, call), r) && r.1.output == StoredOutput(behave(s.log, call))
  {
    if s.session.Open? {
      EntryName(s.session.row, CommCount);
    }
    hide SymbolName;
  }

  lemma CommUserRankExactly(table: seq<Descriptor>, behave: Behaviour, s: State, w: World, comm: Address, out: bool)
    requires |table| > 0 && ShortSession(s)
    ensures var r := Step(table, behave, s, Event(w, UserRank(comm, out)));
            if s.session.Closed? then Refused(s, -5, r)
            else if !s.session.row.hasUserRank || !Exports(s, "CommUserRank") then Refused(s, -9, r)
            else if !out then Refused(s, -8, r)
            else
              var call := Native(s, "CommUserRank", UserRankArgs(comm));
              Performed(s, call, behave(s.log, call), r) && r.1.output == StoredOutput(behave(s.log, call))
  {
    if s.session.Open? {
      EntryName(s.session.row, CommUserRank);
    }
    hide SymbolName;
  }

  lemma AllReduceExactly(table: seq<Descriptor>, behave: Behaviour, s: State, w: World, send: Address, recv: Address,
                         count: SizeT, dt: CInt, op: CInt, comm: Address, stream: Address)
    requires |table| > 0 && ShortSession(s)
    ensures var r := Step(table, behave, s, Event(w, Reduce(send, recv, count, dt, op, comm, stream)));
            if s.session.Closed? then Refused(s, -5, r)
            else if !Exports(s, "AllReduce") then Refused(s, -9, r)
            else if send == 0 || recv == 0 || count == 0 || dt < 0 || dt > 9 || op < 0 || op > 3
            then Refused(s, -8, r)
            else
              var call := Native(s, "AllReduce", AllReduceArgs(send, recv, count, dt, op, comm, stream));
              Performed(s, call, behave(s.log, call), r) && r.1.output == Nothing
  {
    if s.session.Open? {
      EntryName(s.session.row, AllReduce);
    }
    hide SymbolName;
  }

  lemma BroadcastExactly(table: seq<Descriptor>, behave: Behaviour, s: State, w: World, buf: Address, count: SizeT,
                         dt: CInt, root: CInt, comm: Address, stream: Address)
    requires |table| > 0 && ShortSession(s)
    ensures var r := Step(table, behave, s, Event(w, Bcast(buf, count, dt, root, comm, stream)));
            if s.session.Closed? then Refused(s, -5, r)
            else if !Exports(s, "Broadcast") then Refused(s, -9, r)
            else if buf == 0 || count == 0 || dt < 0 || dt > 9 then Refused(s, -8, r)
            else
              var args := if s.session.row.doubleBuffered
                          then PairBroadcastArgs(buf, buf, count, dt, root, comm, stream)
                          else InPlaceBroadcastArgs(buf, count, dt, root, comm, stream);
              var call := Native(s, "Broadcast", args);
              Performed(s, call, behave(s.log, call), r) && r.1.output == Nothing
  {
    if s.session.Open? {
      EntryName(s.session.row, Broadcast);
    }
    hide SymbolName;
  }

  lemma GroupStartExactly(table: seq<Descriptor>, behave: Behaviour, s: State, w: World)
    requires |table| > 0 && ShortSession(s)
    ensures var r := Step(table, behave, s, Event(w, StartGroup));
            if s.session.Closed? then Refused(s, -5, r)
            else if !Exports(s, "GroupStart") then Refused(s, -9, r)
            else
              var call := Native(s, "GroupStart", GroupStartArgs);
              Performed(s, call, behave(s.log, call), r) && r.1.output == Nothing
  {
    if s.session.Open? {
      EntryName(s.session.row, GroupStart);
    }
    hide SymbolName;
  }

  lemma GroupEndExactly(table: seq<Descriptor>, behave: Behaviour, s: State, w: World)
    requires |table| > 0 && ShortSession(s)
    ensures var r := Step(table, behave, s, Event(w, EndGroup));
            if s.session.Closed? then Refused(s, -5, r)
            else if !Exports(s, "GroupEnd") then Refused(s, -9, r)
            else
              var call := Native(s, "GroupEnd", GroupEndArgs);
              Performed(s, call, behave(s.log, call), r) && r.1.output == Nothing
  {
    if s.session.Open? {
      EntryName(s.session.row, GroupEnd);
    }
    hide SymbolName;
  }

  // ---- queries ----

  /** What a client reads back: nothing but its own session, and never at the cost of a native call. */
  lemma QueriesExactly(table: seq<Descriptor>, behave: Behaviour, s: State, w: World)
    requires |table| > 0
    ensures Step(table, behave, s, Event(w, IsInitialized))
         == (s, Reply(if s.session.Open? then 1 else 0, Nothing))
    ensures Step(table, behave, s, Event(w, BackendName))
         == (s, Reply(0, Text(if s.session.Open? then s.session.row.name else "unknown")))
    ensures Step(table, behave, s, Event(w, LibraryPath))
         == (s, Reply(0, Text(if s.session.Open? then s.session.path else "")))
    ensures Step(table, behave, s, Event(w, LastError(true)))
         == (s, Reply(0, Number(if s.session.Open? then s.session.raw else 0)))
    ensures Step(table, behave, s, Event(w, LastError(false))) == (s, Reply(-8, Nothing))
    ensures Step(table, behave, s, Event(w, Diagnose)) == (s, Reply(0, Nothing))
  {
  }

  predicate Answers(table: seq<Descriptor>, behave: Behaviour, s: State, e: Event, yes: bool)
    requires |table| > 0
  {
    Step(table, behave, s, e) == (s, Reply(if yes then 1 else 0, Nothing))
  }

  /** Each gate looks for its own functions, and the communicator gate for both halves. */
  lemma GatesExactly(table: seq<Descriptor>, behave: Behaviour, s: State, w: World)
    requires |table| > 0 && ShortSession(s)
    ensures var session := s.session;
            && Answers(table, behave, s, Event(w, IdAvailable), session.Open? && Exports(s, "GetUniqueId"))
            && Answers(table, behave, s, Event(w, ReduceAvailable), session.Open? && Exports(s, "AllReduce"))
            && Answers(table, behave, s, Event(w, BcastAvailable), session.Open? && Exports(s, "Broadcast"))
            && Answers(table, behave, s, Event(w, StartGroupAvailable), session.Open? && Exports(s, "GroupStart"))
            && Answers(table, behave, s, Event(w, EndGroupAvailable), session.Open? && Exports(s, "GroupEnd"))
            && Answers(table, behave, s, Event(w, CommAvailable),
                       session.Open? && Exports(s, "CommInitRank") && Exports(s, "GetUniqueId"))
  {
    if s.session.Open? {
      EntryName(s.session.row, GetUniqueId);
      EntryName(s.session.row, AllReduce);
      EntryName(s.session.row, Broadcast);
      EntryName(s.session.row, GroupStart);
      EntryName(s.session.row, GroupEnd);
      EntryName(s.session.row, CommInitRank);
    }
    hide SymbolName;
  }

  // ---- lifecycle ----

  lemma FinalizeExactly(table: seq<Descriptor>, behave: Behaviour, s: State, w: World)
    requires |table| > 0
    ensures Step(table, behave, s, Event(w, Finalize))
         == if s.session.Open? then (State(Closed, s.log), Reply(0, Nothing)) else (s, Reply(-5, Nothing))
  {
  }

  predicate FourCoreSymbols(row: Descriptor, image: Image) {
    && row.name + "GetVersion" in image.exports && row.name + "CommInitRank" in image.exports
    && row.name + "AllReduce" in image.exports && row.name + "Broadcast" in image.exports
  }

  lemma CoreExactly(row: Descriptor, image: Image)
    requires |row.name| < 84
    ensures CoreExported(row, image) <==> FourCoreSymbols(row, image)
  {
    EntryName(row, GetVersion);
    EntryName(row, CommInitRank);
    EntryName(row, AllReduce);
    EntryName(row, Broadcast);
    hide SymbolName;
  }

  /** Binding a loaded image, by the one row that outranks every other probed row. */
  lemma BindExactly(table: seq<Descriptor>, w: World, image: Image, row: Descriptor)
    requires Ascending(table) && TopProbed(table, image, row) && |row.name| < 84
    ensures Bind(table, w, image)
         == if !w.supported then Rejected(-11)
            else if row.kind != Nccl && row.kind != Rccl && row.kind != Oneccl && row.kind != Eccl then Rejected(-3)
            else if !FourCoreSymbols(row, image) then Rejected(-4)
            else Bound(row)
  {
    IdentificationIsArgmax(table, image, row);
    CoreExactly(row, image);
    hide TopProbed, Identified, CoreExported, FourCoreSymbols;
  }

  lemma NothingToBind(table: seq<Descriptor>, w: World, image: Image)
    requires forall i :: 0 <= i < |table| ==> table[i].probe !in image.exports
    ensures Bind(table, w, image) == Rejected(-4)
  {
    UnidentifiedMeansNoProbe(table, image);
  }

  /** unicc_init before anything is opened, and when nothing opens. What the requested name is, and which
      of its spellings opens, is Selection.RequestedExactly and Selection.OpenedExactly. */
  lemma InitFailsEarly(table: seq<Descriptor>, behave: Behaviour, s: State, w: World)
    requires |table| > 0
    ensures var r := Step(table, behave, s, Event(w, Init));
            var name := Requested(table, w);
            && (s.session.Open? ==> Refused(s, -6, r))
            && (s.session.Closed? && |name| >= 256 ==> Refused(s, -8, r))
            && (s.session.Closed? && |name| < 256 && Opened(table, w, name) == None ==>
                  Refused(s, if w.library in {None, Some("")} && w.backend in {None, Some("")} then -1 else -2, r))
  {
    SelectedExactly(w);
    hide Selected, Requested, Opened;
  }

  /** unicc_init once a spelling has opened. */
  lemma InitBinds(table: seq<Descriptor>, behave: Behaviour, s: State, w: World, path: string)
    requires |table| > 0 && s.session.Closed?
    requires |Requested(table, w)| < 256 && Opened(table, w, Requested(table, w)) == Some(path)
    ensures Step(table, behave, s, Event(w, Init))
         == match Bind(table, w, w.files[path])
            case Rejected(code) => (s, Reply(code, Nothing))
            case Bound(row) => (State(Open(path, w.files[path], row, 0), s.log), Reply(0, Nothing))
  {
    hide Bind, Requested, Opened;
  }

  // ---- the four families ----

  /** Which library each name stands for, and its other spelling. */
  lemma FamilyLibraries(w: World)
    requires w.library in {None, Some("")}
    ensures w.backend == Some("nccl") ==> Requested(BACKENDS, w) == "libnccl.so"
    ensures w.backend == Some("rccl") ==> Requested(BACKENDS, w) == "librccl.so"
    ensures w.backend == Some("oneccl") ==> Requested(BACKENDS, w) == "libccl.so.2"
    ensures w.backend == Some("eccl") ==> Requested(BACKENDS, w) == "libeccl.so"
    ensures w.backend in {None, Some("")} ==> Requested(BACKENDS, w) == "libnccl.so"
    ensures Fallback(BACKENDS, "libnccl.so") == Some("libnccl.so.2")
    ensures Fallback(BACKENDS, "librccl.so") == Some("librccl.so.1")
    ensures Fallback(BACKENDS, "libccl.so.2") == Some("libccl.so")
    ensures Fallback(BACKENDS, "libeccl.so") == None
  {
    RequestedExactly(BACKENDS, w);
    FamilyFacts();
    hide Requested, First;
    FirstAt(BACKENDS, WithLib("libnccl.so"), 0);
    FirstAt(BACKENDS, WithLib("librccl.so"), 1);
    FirstAt(BACKENDS, WithLib("libccl.so.2"), 2);
    FirstAt(BACKENDS, WithLib("libeccl.so"), 3);
  }

  lemma FamilyFacts()
    ensures |BACKENDS| == 4
    ensures BACKENDS[0].name == "nccl" && BACKENDS[0].lib == "libnccl.so" && BACKENDS[0].probe == "ncclGetVersion"
    ensures BACKENDS[1].name == "rccl" && BACKENDS[1].lib == "librccl.so" && BACKENDS[1].probe == "rcclGetVersion"
    ensures BACKENDS[2].name == "oneccl" && BACKENDS[2].lib == "libccl.so.2" && BACKENDS[2].probe == "onecclGetVersion"
    ensures BACKENDS[3].name == "eccl" && BACKENDS[3].lib == "libeccl.so" && BACKENDS[3].probe == "ecclGetVersion"
    ensures forall i, j :: 0 <= i < j < 4 ==> BACKENDS[i].name != BACKENDS[j].name && BACKENDS[i].lib != BACKENDS[j].lib
  {
    assert BACKENDS[0].name[0] == 'n' && BACKENDS[1].name[0] == 'r';
    assert BACKENDS[2].name[0] == 'o' && BACKENDS[3].name[0] == 'e';
    assert BACKENDS[0].lib[3] == 'n' && BACKENDS[1].lib[3] == 'r';
    assert BACKENDS[2].lib[3] == 'c' && BACKENDS[3].lib[3] == 'e';
  }

  /** The conventions of a family: is nranks a size_t, is the id 4096 bytes long, does Broadcast take
      two buffers, is there a CommUserRank. */
  predicate Conventions(row: Descriptor, sizeRanks: bool, longId: bool, pairBroadcast: bool, userRank: bool) {
    && row.ranksAreSizeT == sizeRanks && (row.uidKind == OnecclUid) == longId
    && row.doubleBuffered == pairBroadcast && row.hasUserRank == userRank
  }

  /** A library is ECCL, oneCCL, RCCL or NCCL by the first of these probes that it exports. */
  lemma FamilyOfLibrary(image: Image)
    ensures var row := Identified(BACKENDS, image);
            if "ecclGetVersion" in image.exports then
              row.Some? && row.value.name == "eccl" && Conventions(row.value, true, false, true, false)
            else if "onecclGetVersion" in image.exports then
              row.Some? && row.value.name == "oneccl" && Conventions(row.value, true, true, true, true)
            else if "rcclGetVersion" in image.exports then
              row.Some? && row.value.name == "rccl" && Conventions(row.value, false, false, false, true)
            else if "ncclGetVersion" in image.exports then
              row.Some? && row.value.name == "nccl" && Conventions(row.value, false, false, false, true)
            else row == None
  {
    FamilyFacts();
    hide Last;
    if "ecclGetVersion" in image.exports {
      LastAt(BACKENDS, Probed(image), 3);
    } else if "onecclGetVersion" in image.exports {
      LastAt(BACKENDS, Probed(image), 2);
    } else if "rcclGetVersion" in image.exports {
      LastAt(BACKENDS, Probed(image), 1);
    } else if "ncclGetVersion" in image.exports {
      LastAt(BACKENDS, Probed(image), 0);
    } else {
      UnidentifiedMeansNoProbe(BACKENDS, image);
    }
  }
}
