/** tests/integration/test_integration.c: rank 0 publishes its bootstrap id through a file and the
    other ranks poll for it. Any number of ranks, any interleaving, any piecewise write and read,
    and any rank may stop at any point. Each rank is a process with its own open session. */
module Bootstrap {
  import opened Common
  import opened Platform
  import opened Families
  import opened Spec

  const MAX_TRIES: nat := 3000

  type Inode = nat

  /** The two names of the protocol and the inodes behind them; an open file keeps its inode. */
  datatype Files = Files(target: Option<Inode>, temp: Option<Inode>, contents: map<Inode, seq<Byte>>)

  datatype Rank =
    | Ready
    | Obtained(id: seq<Byte>)
    | Writing(id: seq<Byte>, inode: Inode, written: nat)
    | Written(id: seq<Byte>)
    | Polling(tries: nat)
    | Reading(tries: nat, inode: Inode, got: seq<Byte>)
    | Holding(id: seq<Byte>)
    | Joined(code: CInt)
    | Stopped

  datatype Cluster = Cluster(files: Files, ranks: seq<Rank>, unicc: seq<State>)

  datatype Action =
    | ObtainId
    | OpenTemp(inode: Inode)
    | WritePiece(n: nat)
    | CloseTemp
    | Rename
    | OpenTarget(r: nat)
    | ReadPiece(r: nat, n: nat)
    | EndRead(r: nat)
    | GiveUp(r: nat)
    | Join(r: nat, tail: seq<Byte>)
    | Stop(r: nat)

  // ---- the steps ----

  predicate Sized(c: Cluster) {
    1 <= |c.ranks| == |c.unicc| < 0x8000_0000
  }

  function JoinCall(c: Cluster, r: nat, tail: seq<Byte>): Call
    requires Sized(c) && r < |c.ranks| && c.ranks[r].Holding? && |c.ranks[r].id| + |tail| == COMM_ID_MAX
  {
    InitRank(true, |c.ranks|, Some(IdContents(|c.ranks[r].id|, c.ranks[r].id + tail)), r)
  }

  ghost predicate Next(behave: seq<Behaviour>, c: Cluster, a: Action, c': Cluster)
    requires Sized(c) && |behave| == |c.ranks|
  {
    match a
    case ObtainId =>
      var (u, reply) := Forward(behave[0], c.unicc[0], GetId(true));
      && c.ranks[0].Ready?
      && c' == c.(unicc := c.unicc[0 := u],
                  ranks := c.ranks[0 := if reply.code != OK then Stopped
                                        else if |c.ranks| > 1 then Obtained(reply.output.bytes)
                                        else Holding(reply.output.bytes)])
    case OpenTemp(inode) =>
      && c.ranks[0].Obtained?
      && (if c.files.temp.Some? then inode == c.files.temp.value else inode !in c.files.contents)
      && c' == c.(files := c.files.(temp := Some(inode), contents := c.files.contents[inode := []]),
                  ranks := c.ranks[0 := Writing(c.ranks[0].id, inode, 0)])
    case WritePiece(n) =>
      && c.ranks[0].Writing? && c.ranks[0].inode in c.files.contents
      && 1 <= n && c.ranks[0].written + n <= |c.ranks[0].id|
      && var Writing(id, inode, written) := c.ranks[0];
         var longer := c.files.contents[inode] + id[written..written + n];
         c' == c.(files := c.files.(contents := c.files.contents[inode := longer]),
                  ranks := c.ranks[0 := Writing(id, inode, written + n)])
    case CloseTemp =>
      && c.ranks[0].Writing? && c.ranks[0].written == |c.ranks[0].id|
      && c' == c.(ranks := c.ranks[0 := Written(c.ranks[0].id)])
    case Rename =>
      && c.ranks[0].Written?
      && c' == c.(files := c.files.(target := c.files.temp, temp := None),
                  ranks := c.ranks[0 := Holding(c.ranks[0].id)])
    case OpenTarget(r) =>
      && 0 < r < |c.ranks| && c.ranks[r].Polling? && c.ranks[r].tries < MAX_TRIES
      && var tries := c.ranks[r].tries;
         c' == c.(ranks := c.ranks[r := if c.files.target.Some? then Reading(tries, c.files.target.value, [])
                                        else Polling(tries + 1)])
    case ReadPiece(r, n) =>
      && 0 < r < |c.ranks| && c.ranks[r].Reading? && c.ranks[r].inode in c.files.contents
      && var Reading(tries, inode, got) := c.ranks[r];
         && 1 <= n && |got| + n <= COMM_ID_MAX && |got| + n <= |c.files.contents[inode]|
         && c' == c.(ranks := c.ranks[r := Reading(tries, inode, got + c.files.contents[inode][|got|..|got| + n])])
    case EndRead(r) =>
      && 0 < r < |c.ranks| && c.ranks[r].Reading? && c.ranks[r].inode in c.files.contents
      && var Reading(tries, inode, got) := c.ranks[r];
         && (|got| == COMM_ID_MAX || |got| >= |c.files.contents[inode]|)
         && c' == c.(ranks := c.ranks[r := if got == [] then Polling(tries + 1) else Holding(got)])
    case GiveUp(r) =>
      && 0 < r < |c.ranks| && c.ranks[r].Polling? && c.ranks[r].tries >= MAX_TRIES
      && c' == c.(ranks := c.ranks[r := Stopped])
    case Join(r, tail) =>
      && r < |c.ranks| && c.ranks[r].Holding? && |c.ranks[r].id| + |tail| == COMM_ID_MAX
      && var (u, reply) := Forward(behave[r], c.unicc[r], JoinCall(c, r, tail));
         c' == c.(unicc := c.unicc[r := u], ranks := c.ranks[r := Joined(reply.code)])
    case Stop(r) =>
      r < |c.ranks| && c' == c.(ranks := c.ranks[r := Stopped])
  }

  // ---- what rank 0's backend produced ----

  /** The bytes of the latest successful native GetUniqueId in a log. */
  function Produced(log: seq<Entry>): Option<seq<Byte>> {
    if log == [] then None
    else
      var last := log[|log| - 1];
      if last.call.args.GetIdArgs? && last.answer.code == 0 then Some(last.answer.id[..last.call.args.bytes])
      else Produced(log[..|log| - 1])
  }

  function Origin(c: Cluster): Option<seq<Byte>>
    requires Sized(c)
  {
    Produced(c.unicc[0].log)
  }

  predicate NoIdCalls(log: seq<Entry>) {
    forall i :: 0 <= i < |log| ==> !log[i].call.args.GetIdArgs? && !log[i].call.args.InitRankArgs?
  }

  // ---- the invariant ----

  /** Every process is initialized and no id call has been made; the temporary name is not a link
      to the target's file. */
  predicate Prepared(c: Cluster) {
    && Sized(c) && c.ranks[0] == Ready
    && (forall r :: 0 < r < |c.ranks| ==> c.ranks[r] == Polling(0))
    && (forall r :: 0 <= r < |c.ranks| ==> c.unicc[r].session.Open? && NoIdCalls(c.unicc[r].log))
    && (c.files.target.Some? ==> c.files.target.value in c.files.contents)
    && (c.files.temp.Some? ==> c.files.temp.value in c.files.contents && c.files.temp != c.files.target)
  }

  /** What an earlier run left under the target's name. */
  datatype Stale = Stale(inode: Inode, bytes: seq<Byte>)

  function Leftover(c: Cluster): Option<Stale> {
    if c.files.target.Some? && c.files.target.value in c.files.contents
       && c.files.contents[c.files.target.value] != []
    then Some(Stale(c.files.target.value, c.files.contents[c.files.target.value]))
    else None
  }

  /** The launcher's mktemp leaves the target empty; an absent one will do as well. */
  predicate CleanTarget(c: Cluster) {
    Leftover(c).None?
  }

  /** What a reader takes from a file of these bytes. */
  function Taken(bytes: seq<Byte>): seq<Byte> {
    if |bytes| < COMM_ID_MAX then bytes else bytes[..COMM_ID_MAX]
  }

  /** This process hands an id of this length on to its backend. */
  predicate Accepts(session: Session, id: seq<Byte>) {
    && session.Open? && Supports(session.row, session.image, CommInitRank)
    && |id| == ConsumedIdBytes(session.row)
  }

  /** Every reader that could take the leftover bytes for an id would turn them away. */
  predicate Harmless(c: Cluster, stale: Option<Stale>)
    requires Sized(c)
  {
    stale.Some? ==> forall r :: 0 < r < |c.ranks| ==> !Accepts(c.unicc[r].session, Taken(stale.value.bytes))
  }

  /** The leftover file keeps its bytes, whatever becomes of its name. */
  predicate Untouched(files: Files, stale: Option<Stale>) {
    stale.Some? ==>
      && stale.value.inode in files.contents && files.contents[stale.value.inode] == stale.value.bytes != []
      && files.temp != Some(stale.value.inode)
  }

  /** The file is empty or holds the whole id, and is not being written. */
  predicate Whole(files: Files, inode: Inode, origin: Option<seq<Byte>>) {
    && inode in files.contents && Some(inode) != files.temp
    && (files.contents[inode] == [] || Some(files.contents[inode]) == origin)
  }

  /** An inode a reader can be looking at. */
  predicate Readable(files: Files, inode: Inode, origin: Option<seq<Byte>>, stale: Option<Stale>) {
    Whole(files, inode, origin) || (stale.Some? && inode == stale.value.inode)
  }

  predicate PublisherOk(files: Files, rank: Rank, origin: Option<seq<Byte>>) {
    match rank
    case Ready => origin == None
    case Obtained(id) => origin == Some(id)
    case Writing(id, inode, written) =>
      && origin == Some(id) && files.temp == Some(inode) && inode in files.contents
      && written <= |id| && files.contents[inode] == id[..written]
    case Written(id) =>
      && origin == Some(id) && files.temp.Some? && files.temp.value in files.contents
      && files.contents[files.temp.value] == id
    case Holding(id) => origin == Some(id)
    case Polling(_) => false
    case Reading(_, _, _) => false
    case _ => true
  }

  predicate ReaderOk(files: Files, rank: Rank, origin: Option<seq<Byte>>, stale: Option<Stale>) {
    match rank
    case Polling(_) => true
    case Reading(_, inode, got) =>
      Readable(files, inode, origin, stale) && inode in files.contents
      && |got| <= COMM_ID_MAX && got <= files.contents[inode]
    case Holding(id) => origin == Some(id) || (stale.Some? && id == Taken(stale.value.bytes))
    case Joined(_) => true
    case Stopped => true
    case _ => false
  }

  /** Every communicator this process asked its backend for used the origin's bytes. */
  predicate CallsOk(log: seq<Entry>, r: nat, world: nat, origin: Option<seq<Byte>>) {
    forall i :: 0 <= i < |log| && log[i].call.args.InitRankArgs? ==>
      && origin == Some(log[i].call.args.uid)
      && log[i].call.args.nranks == world && log[i].call.args.rank == r
  }

  predicate OriginOk(c: Cluster)
    requires Sized(c)
  {
    Origin(c).Some? ==>
      && c.unicc[0].session.Open?
      && |Origin(c).value| == ProducedIdBytes(c.unicc[0].session.row)
  }

  /** The leftover, if there is one, is all that a reader can get besides the origin's id; and as long
      as no reader's family accepts it, no backend is ever given it. */
  predicate Inv(c: Cluster, stale: Option<Stale>) {
    && Sized(c) && OriginOk(c) && Untouched(c.files, stale)
    && (forall r :: 0 <= r < |c.ranks| ==> c.unicc[r].session.Open?)
    && (Harmless(c, stale) ==>
          forall r :: 0 <= r < |c.ranks| ==> CallsOk(c.unicc[r].log, r, |c.ranks|, Origin(c)))
    && (c.files.target.Some? ==> Readable(c.files, c.files.target.value, Origin(c), stale))
    && (c.files.temp.Some? ==> c.files.temp.value in c.files.contents)
    && PublisherOk(c.files, c.ranks[0], Origin(c))
    && (forall r :: 0 < r < |c.ranks| ==> ReaderOk(c.files, c.ranks[r], Origin(c), stale))
  }

  lemma {:induction false} NothingProduced(log: seq<Entry>)
    requires NoIdCalls(log)
    ensures Produced(log) == None
  {
    if log == [] {
    } else {
      NothingProduced(log[..|log| - 1]);
    }
  }

  lemma StartHasInv(c: Cluster)
    requires Prepared(c)
    ensures Inv(c, Leftover(c))
  {
    NothingProduced(c.unicc[0].log);
  }

  // ---- preservation, one action at a time ----

  /** The process is still the same library seen through the same family. */
  predicate SameLibrary(before: Session, after: Session) {
    after.Open? && before.Open? && after.row == before.row && after.image == before.image
  }

  /** One rank and its process move, the files stay: the origin is settled once. */
  lemma RankMoves(c: Cluster, c': Cluster, stale: Option<Stale>, r: nat, rank: Rank, u: State)
    requires Inv(c, stale) && r < |c.ranks|
    requires c' == Cluster(c.files, c.ranks[r := rank], c.unicc[r := u])
    requires SameLibrary(c.unicc[r].session, u.session)
    requires Origin(c') == Origin(c) || (Origin(c) == None && OriginOk(c'))
    requires Harmless(c, stale) ==> CallsOk(u.log, r, |c.ranks|, Origin(c'))
    requires if r == 0 then PublisherOk(c.files, rank, Origin(c'))
             else ReaderOk(c.files, rank, Origin(c'), stale) && PublisherOk(c.files, c.ranks[0], Origin(c'))
    ensures Inv(c', stale)
  {
    assert Harmless(c', stale) ==> Harmless(c, stale) by {
      assert forall i :: 0 <= i < |c.ranks| ==> SameLibrary(c.unicc[i].session, c'.unicc[i].session);
    }
  }

  /** What asking for an id does to the asking process. */
  lemma ObtainProduces(behave: Behaviour, s: State)
    requires s.session.Open?
    ensures var (u, reply) := Forward(behave, s, GetId(true));
            && SameLibrary(s.session, u.session)
            && (u.log == s.log || (&& |u.log| == |s.log| + 1 && u.log[..|s.log|] == s.log
                                   && u.log[|s.log|].call.args.GetIdArgs?))
            && (if reply.code == OK then
                  && reply.output.Bytes? && |reply.output.bytes| == ProducedIdBytes(s.session.row)
                  && Produced(u.log) == Some(reply.output.bytes)
                else Produced(u.log) == Produced(s.log))
  {
  }

  /** Rank 0 after asking: the rank follows from the reply. */
  lemma Obtained0(c: Cluster, stale: Option<Stale>, u: State, rank: Rank)
    requires Inv(c, stale) && c.ranks[0].Ready?
    requires SameLibrary(c.unicc[0].session, u.session)
    requires Harmless(c, stale) ==> CallsOk(u.log, 0, |c.ranks|, None)
    requires match rank
             case Obtained(id) => Produced(u.log) == Some(id) && |id| == ProducedIdBytes(u.session.row)
             case Holding(id) => Produced(u.log) == Some(id) && |id| == ProducedIdBytes(u.session.row)
             case Stopped => Produced(u.log) == None
             case _ => false
    ensures Inv(Cluster(c.files, c.ranks[0 := rank], c.unicc[0 := u]), stale)
  {
    hide Produced, Taken, Accepts;
    var c' := Cluster(c.files, c.ranks[0 := rank], c.unicc[0 := u]);
    assert Harmless(c', stale) ==> Harmless(c, stale) by {
      assert forall i :: 0 < i < |c.ranks| ==> c'.unicc[i] == c.unicc[i];
    }
  }

  lemma ObtainKeepsInv(behave: seq<Behaviour>, c: Cluster, stale: Option<Stale>, c': Cluster)
    requires Inv(c, stale) && |behave| == |c.ranks| && Next(behave, c, ObtainId, c')
    ensures Inv(c', stale)
  {
    ObtainProduces(behave[0], c.unicc[0]);
    hide Forward, Produced, ProducedIdBytes, Whole, Readable, ReaderOk, Harmless, Untouched;
    var (u, _) := Forward(behave[0], c.unicc[0], GetId(true));
    if Harmless(c, stale) {
      assert CallsOk(c.unicc[0].log, 0, |c.ranks|, None);
      assert CallsOk(u.log, 0, |c.ranks|, None);
    }
    Obtained0(c, stale, u, c'.ranks[0]);
    assert c' == Cluster(c.files, c.ranks[0 := c'.ranks[0]], c.unicc[0 := u]);
  }

  lemma PublishKeepsInv(behave: seq<Behaviour>, c: Cluster, stale: Option<Stale>, a: Action, c': Cluster)
    requires Inv(c, stale) && |behave| == |c.ranks| && Next(behave, c, a, c')
    requires a.OpenTemp? || a.WritePiece? || a.CloseTemp? || a.Rename?
    ensures Inv(c', stale)
  {
    hide Taken, Accepts, CallsOk, Produced;
  }

  lemma ReadKeepsInv(behave: seq<Behaviour>, c: Cluster, stale: Option<Stale>, a: Action, c': Cluster)
    requires Inv(c, stale) && |behave| == |c.ranks| && Next(behave, c, a, c')
    requires a.OpenTarget? || a.ReadPiece? || a.EndRead? || a.GiveUp? || a.Stop?
    ensures Inv(c', stale)
  {
    hide Forward, Produced, Harmless;
    var r := a.r;
    assert c.unicc[r := c.unicc[r]] == c.unicc;
    if r > 0 {
      assert ReaderOk(c.files, c.ranks[r], Origin(c), stale);
      if a.EndRead? {
        var Reading(_, inode, got) := c.ranks[r];
        ReadToTheEnd(c, r, got, c.files.contents[inode]);
      }
    }
    RankMoves(c, c', stale, r, c'.ranks[r], c.unicc[r]);
  }

  /** A reader that is done has taken the file, up to the size of an id structure; a whole id is
      shorter than that. */
  lemma ReadToTheEnd(c: Cluster, r: nat, got: seq<Byte>, bytes: seq<Byte>)
    requires got <= bytes && |got| <= COMM_ID_MAX && (|got| == COMM_ID_MAX || |got| >= |bytes|)
    requires Sized(c) && OriginOk(c)
    ensures got == Taken(bytes) && (Some(bytes) == Origin(c) ==> got == bytes)
  {
    hide Produced;
  }

  lemma JoinKeepsInv(behave: seq<Behaviour>, c: Cluster, stale: Option<Stale>, r: nat, tail: seq<Byte>, c': Cluster)
    requires Inv(c, stale) && |behave| == |c.ranks| && Next(behave, c, Join(r, tail), c')
    ensures Inv(c', stale)
  {
    JoinCallsOrigin(behave, c, stale, r, tail);
    hide Forward;
    var u := c'.unicc[r];
    assert u.log == c.unicc[r].log || u.log[..|u.log| - 1] == c.unicc[r].log;
    assert Origin(c') == Origin(c);
    hide Produced, Taken, Accepts, Readable;
    if Harmless(c, stale) {
      assert CallsOk(c.unicc[r].log, r, |c.ranks|, Origin(c));
    }
    RankMoves(c, c', stale, r, c'.ranks[r], u);
  }

  /** Joining hands the held bytes to the backend exactly when the family accepts their length. */
  lemma JoinCallsHeld(behave: seq<Behaviour>, c: Cluster, r: nat, tail: seq<Byte>)
    requires Sized(c) && |behave| == |c.ranks| && r < |c.ranks| && c.unicc[r].session.Open?
    requires c.ranks[r].Holding? && |c.ranks[r].id| + |tail| == COMM_ID_MAX
    ensures var u := Forward(behave[r], c.unicc[r], JoinCall(c, r, tail)).0;
            var log := c.unicc[r].log;
            && SameLibrary(c.unicc[r].session, u.session)
            && (if Accepts(c.unicc[r].session, c.ranks[r].id) then
                  && |u.log| == |log| + 1 && u.log[..|log|] == log
                  && u.log[|log|].call.args.InitRankArgs?
                  && u.log[|log|].call.args.uid == c.ranks[r].id
                  && u.log[|log|].call.args.nranks == |c.ranks| && u.log[|log|].call.args.rank == r
                else u.log == log)
  {
    hide SymbolName;
  }

  /** What joining does to the joining process, in any state of the protocol: with a leftover that
      nobody accepts, the bytes handed on are the origin's, and a rank that holds them and shares
      rank 0's coherent family does hand them on. */
  lemma JoinCallsOrigin(behave: seq<Behaviour>, c: Cluster, stale: Option<Stale>, r: nat, tail: seq<Byte>)
    requires Inv(c, stale) && |behave| == |c.ranks| && r < |c.ranks|
    requires c.ranks[r].Holding? && |c.ranks[r].id| + |tail| == COMM_ID_MAX
    ensures var u := Forward(behave[r], c.unicc[r], JoinCall(c, r, tail)).0;
            var log := c.unicc[r].log;
            && SameLibrary(c.unicc[r].session, u.session)
            && (u.log == log ||
                  (&& |u.log| == |log| + 1 && u.log[..|log|] == log
                   && u.log[|log|].call.args.InitRankArgs?
                   && (Harmless(c, stale) ==> Some(u.log[|log|].call.args.uid) == Origin(c))
                   && u.log[|log|].call.args.nranks == |c.ranks| && u.log[|log|].call.args.rank == r))
            && ((&& Origin(c) == Some(c.ranks[r].id)
                 && Supports(c.unicc[r].session.row, c.unicc[r].session.image, CommInitRank)
                 && c.unicc[r].session.row == c.unicc[0].session.row
                 && Coherent(c.unicc[0].session.row)) ==> |u.log| == |log| + 1)
  {
    JoinCallsHeld(behave, c, r, tail);
    hide Forward, Produced, Taken, SymbolName;
  }

  lemma NextKeepsInv(behave: seq<Behaviour>, c: Cluster, stale: Option<Stale>, a: Action, c': Cluster)
    requires Inv(c, stale) && |behave| == |c.ranks| && Next(behave, c, a, c')
    ensures Inv(c', stale)
  {
    hide Forward, Inv;
    match a {
      case ObtainId => ObtainKeepsInv(behave, c, stale, c');
      case Join(r, tail) => JoinKeepsInv(behave, c, stale, r, tail, c');
      case OpenTemp(_) => PublishKeepsInv(behave, c, stale, a, c');
      case WritePiece(_) => PublishKeepsInv(behave, c, stale, a, c');
      case CloseTemp => PublishKeepsInv(behave, c, stale, a, c');
      case Rename => PublishKeepsInv(behave, c, stale, a, c');
      case _ => ReadKeepsInv(behave, c, stale, a, c');
    }
  }

  lemma NextKeepsLibrary(behave: seq<Behaviour>, c: Cluster, a: Action, c': Cluster, i: nat)
    requires Sized(c) && |behave| == |c.ranks| && Next(behave, c, a, c')
    requires i < |c.ranks| && c.unicc[i].session.Open?
    ensures Sized(c') && |c'.ranks| == |c.ranks| && SameLibrary(c.unicc[i].session, c'.unicc[i].session)
  {
    hide SymbolName;
  }

  lemma NextKeepsHarmless(behave: seq<Behaviour>, c: Cluster, stale: Option<Stale>, a: Action, c': Cluster)
    requires Inv(c, stale) && |behave| == |c.ranks| && Next(behave, c, a, c') && Harmless(c, stale)
    ensures Sized(c') && Harmless(c', stale)
  {
    hide Next, Taken, SymbolName;
    NextKeepsLibrary(behave, c, a, c', 0);
    forall i | 0 <= i < |c.ranks| ensures SameLibrary(c.unicc[i].session, c'.unicc[i].session) {
      NextKeepsLibrary(behave, c, a, c', i);
    }
  }

  // ---- whole runs ----

  ghost predicate IsRun(behave: seq<Behaviour>, states: seq<Cluster>, actions: seq<Action>) {
    && |states| == |actions| + 1
    && Prepared(states[0]) && |behave| == |states[0].ranks|
    && (forall i :: 0 <= i < |states| ==> Sized(states[i]) && |states[i].ranks| == |behave|)
    && (forall i :: 0 <= i < |actions| ==> Next(behave, states[i], actions[i], states[i + 1]))
  }

  lemma {:induction false} RunKeepsInv(behave: seq<Behaviour>, states: seq<Cluster>, actions: seq<Action>, n: nat)
    requires IsRun(behave, states, actions) && n < |states|
    ensures Inv(states[n], Leftover(states[0]))
    ensures Harmless(states[0], Leftover(states[0])) ==> Harmless(states[n], Leftover(states[0]))
  {
    hide Inv, Next, Leftover, Harmless;
    if n == 0 {
      StartHasInv(states[0]);
    } else {
      RunKeepsInv(behave, states, actions, n - 1);
      NextKeepsInv(behave, states[n - 1], Leftover(states[0]), actions[n - 1], states[n]);
      if Harmless(states[0], Leftover(states[0])) {
        NextKeepsHarmless(behave, states[n - 1], Leftover(states[0]), actions[n - 1], states[n]);
      }
    }
  }

  /** No rank reads another run's file: there is none, or there are no readers. */
  predicate Undisturbed(c: Cluster) {
    CleanTarget(c) || |c.ranks| == 1
  }

  /** Atomic publication: at every moment, if there are readers, the target is absent, empty or the
      complete id, and no rank has left its loop with anything but the complete id. */
  predicate Atomic(c: Cluster)
    requires Sized(c)
  {
    && (|c.ranks| > 1 && c.files.target.Some? ==>
          && c.files.target.value in c.files.contents
          && var bytes := c.files.contents[c.files.target.value]; bytes == [] || Some(bytes) == Origin(c))
    && (forall r :: 0 <= r < |c.ranks| && c.ranks[r].Holding? ==> Origin(c) == Some(c.ranks[r].id))
  }

  /** End-to-end agreement: every native CommInitRank, on any rank, was given exactly the bytes that
      rank 0's native GetUniqueId produced, with the world size and that rank's own number. */
  predicate Agreement(c: Cluster)
    requires Sized(c)
  {
    forall r, i :: 0 <= r < |c.ranks| && 0 <= i < |c.unicc[r].log| && c.unicc[r].log[i].call.args.InitRankArgs? ==>
      && Origin(c) == Some(c.unicc[r].log[i].call.args.uid)
      && c.unicc[r].log[i].call.args.nranks == |c.ranks| && c.unicc[r].log[i].call.args.rank == r
  }

  lemma EveryRunAgrees(behave: seq<Behaviour>, states: seq<Cluster>, actions: seq<Action>, n: nat)
    requires IsRun(behave, states, actions) && n < |states|
    ensures Undisturbed(states[0]) ==> Atomic(states[n]) && Agreement(states[n])
    ensures Harmless(states[0], Leftover(states[0])) ==> Agreement(states[n])
  {
    RunKeepsInv(behave, states, actions, n);
    hide Next, Produced, Taken, Accepts;
    var c, stale := states[n], Leftover(states[0]);
    if Harmless(states[0], stale) {
      assert forall r :: 0 <= r < |c.ranks| ==> CallsOk(c.unicc[r].log, r, |c.ranks|, Origin(c));
    }
    assert forall r :: 0 < r < |c.ranks| ==> ReaderOk(c.files, c.ranks[r], Origin(c), stale);
  }

  /** A rank that holds an id and runs the same coherent family as rank 0 is never turned away by
      the length guard: joining makes its one native call. */
  lemma SharedFamilyJoins(behave: seq<Behaviour>, states: seq<Cluster>, actions: seq<Action>, n: nat,
                          r: nat, tail: seq<Byte>)
    requires IsRun(behave, states, actions) && Undisturbed(states[0]) && n < |states| && r < |states[n].ranks|
    requires states[n].ranks[r].Holding? && |states[n].ranks[r].id| + |tail| == COMM_ID_MAX
    requires var mine, publishers := states[n].unicc[r].session, states[n].unicc[0].session;
             mine.Open? && publishers.Open? && mine.row == publishers.row && Coherent(publishers.row)
    requires Supports(states[n].unicc[r].session.row, states[n].unicc[r].session.image, CommInitRank)
    ensures |Forward(behave[r], states[n].unicc[r], JoinCall(states[n], r, tail)).0.log| == |states[n].unicc[r].log| + 1
  {
    hide SymbolName, Next, Forward;
    RunKeepsInv(behave, states, actions, n);
    EveryRunAgrees(behave, states, actions, n);
    JoinCallsOrigin(behave, states[n], Leftover(states[0]), r, tail);
  }

  // ---- over a leftover file ----

  lemma RunExtends(behave: seq<Behaviour>, states: seq<Cluster>, actions: seq<Action>, a: Action, c: Cluster)
    requires IsRun(behave, states, actions) && Sized(c) && |c.ranks| == |behave|
    requires Next(behave, states[|states| - 1], a, c)
    ensures IsRun(behave, states + [c], actions + [a])
  {
    hide Next;
  }

  /** Over any other file every reader has a run in which it leaves its loop with that file's bytes
      before rank 0 has produced anything. */
  lemma StaleTargetIsRead(behave: seq<Behaviour>, c: Cluster, r: nat)
    returns (states: seq<Cluster>, actions: seq<Action>)
    requires Prepared(c) && !CleanTarget(c) && 0 < r < |c.ranks| && |behave| == |c.ranks|
    ensures IsRun(behave, states, actions) && states[0] == c && |states| == 4
    ensures states[3] == c.(ranks := c.ranks[r := Holding(Taken(Leftover(c).value.bytes))])
    ensures Origin(states[3]) == None && !Atomic(states[3])
  {
    hide Forward;
    NothingProduced(c.unicc[0].log);
    var inode := c.files.target.value;
    var stale := c.files.contents[inode];
    var n := |Taken(stale)|;
    var opened' := c.(ranks := c.ranks[r := Reading(0, inode, [])]);
    var read := c.(ranks := c.ranks[r := Reading(0, inode, Taken(stale))]);
    var done := c.(ranks := c.ranks[r := Holding(Taken(stale))]);
    states := [c, opened', read, done];
    actions := [OpenTarget(r), ReadPiece(r, n), EndRead(r)];
    assert [] + stale[0..n] == Taken(stale);
    assert opened'.ranks[r := Reading(0, inode, Taken(stale))] == read.ranks;
    assert read.ranks[r := Holding(Taken(stale))] == done.ranks;
    assert Next(behave, states[0], actions[0], states[1]);
    assert Next(behave, states[1], actions[1], states[2]);
    assert Next(behave, states[2], actions[2], states[3]);
    assert done.ranks[r].Holding?;
  }

  /** If that reader's family accepts the length, its backend is then given those bytes. */
  lemma StaleTargetIsJoined(behave: seq<Behaviour>, c: Cluster, r: nat)
    returns (states: seq<Cluster>, actions: seq<Action>)
    requires Prepared(c) && !CleanTarget(c) && 0 < r < |c.ranks| && |behave| == |c.ranks|
    requires Accepts(c.unicc[r].session, Taken(Leftover(c).value.bytes))
    ensures IsRun(behave, states, actions) && states[0] == c && |states| == 5 && !Agreement(states[4])
  {
    hide Forward, Accepts, Atomic, Taken, Leftover, Produced;
    states, actions := StaleTargetIsRead(behave, c, r);
    var read := states[3];
    var id := read.ranks[r].id;
    assert |id| <= COMM_ID_MAX by {
      TakenFits(Leftover(c).value.bytes);
    }
    var tail: seq<Byte> := seq(COMM_ID_MAX - |id|, i => 0);
    JoinCallsHeld(behave, read, r, tail);
    var (u, reply) := Forward(behave[r], read.unicc[r], JoinCall(read, r, tail));
    var joined := read.(unicc := read.unicc[r := u], ranks := read.ranks[r := Joined(reply.code)]);
    assert Next(behave, read, Join(r, tail), joined);
    RunExtends(behave, states, actions, Join(r, tail), joined);
    assert joined.unicc[0] == read.unicc[0];
    assert joined.unicc[r].log[|read.unicc[r].log|].call.args.InitRankArgs?;
    states, actions := states + [joined], actions + [Join(r, tail)];
  }

  lemma TakenFits(bytes: seq<Byte>)
    ensures |Taken(bytes)| <= COMM_ID_MAX
  {
  }

  ghost predicate AlwaysAtomic(behave: seq<Behaviour>, c: Cluster) {
    forall states, actions, n: nat :: IsRun(behave, states, actions) && states[0] == c && n < |states| ==>
      Atomic(states[n])
  }

  ghost predicate AlwaysAgrees(behave: seq<Behaviour>, c: Cluster) {
    forall states, actions, n: nat :: IsRun(behave, states, actions) && states[0] == c && n < |states| ==>
      Agreement(states[n])
  }

  /** Publication is atomic over every run exactly when the target starts absent or empty, or there
      are no readers. */
  lemma AtomicExactly(behave: seq<Behaviour>, c: Cluster)
    requires Prepared(c) && |behave| == |c.ranks|
    ensures AlwaysAtomic(behave, c) <==> Undisturbed(c)
  {
    hide Next, Atomic, Leftover;
    if Undisturbed(c) {
      forall states, actions, n: nat | IsRun(behave, states, actions) && states[0] == c && n < |states|
        ensures Atomic(states[n])
      {
        EveryRunAgrees(behave, states, actions, n);
      }
    } else {
      var states, actions := StaleTargetIsRead(behave, c, 1);
      assert !Atomic(states[3]);
    }
  }

  /** Every backend is given rank 0's id over every run exactly when no reader's family accepts what
      it could take from a leftover file. */
  lemma AgreementExactly(behave: seq<Behaviour>, c: Cluster)
    requires Prepared(c) && |behave| == |c.ranks|
    ensures AlwaysAgrees(behave, c) <==> Harmless(c, Leftover(c))
  {
    hide Next, Agreement, Accepts, Taken;
    if Harmless(c, Leftover(c)) {
      forall states, actions, n: nat | IsRun(behave, states, actions) && states[0] == c && n < |states|
        ensures Agreement(states[n])
      {
        EveryRunAgrees(behave, states, actions, n);
      }
    } else {
      var r :| 0 < r < |c.ranks| && Accepts(c.unicc[r].session, Taken(Leftover(c).value.bytes));
      var states, actions := StaleTargetIsJoined(behave, c, r);
      assert !Agreement(states[4]);
    }
  }

  // ---- progress ----

  /** The target holds the complete id. */
  predicate Published(c: Cluster) {
    && Sized(c)
    && c.files.target.Some? && c.files.target.value in c.files.contents
    && Some(c.files.contents[c.files.target.value]) == Origin(c)
  }

  /** The rank is reading the complete id, or is past its loop with nothing else. */
  predicate Committed(c: Cluster, r: nat)
    requires Sized(c) && r < |c.ranks|
  {
    match c.ranks[r]
    case Reading(_, inode, got) =>
      && inode in c.files.contents && Some(inode) != c.files.temp
      && Some(c.files.contents[inode]) == Origin(c) && got <= c.files.contents[inode]
    case Holding(id) => Origin(c) == Some(id)
    case Joined(_) => true
    case Stopped => true
    case _ => false
  }

  /** How far the rank is from the end of its loop. */
  function Left(c: Cluster, r: nat): nat
    requires Sized(c) && r < |c.ranks| && Committed(c, r)
  {
    if c.ranks[r].Reading? then |c.files.contents[c.ranks[r].inode]| - |c.ranks[r].got| + 1 else 0
  }

  lemma OriginStays(behave: seq<Behaviour>, c: Cluster, stale: Option<Stale>, a: Action, c': Cluster)
    requires Inv(c, stale) && |behave| == |c.ranks| && Next(behave, c, a, c') && Origin(c).Some?
    ensures Sized(c') && |c'.ranks| == |c.ranks| && Origin(c') == Origin(c)
  {
    if a.Join? {
      JoinCallsHeld(behave, c, a.r, a.tail);
      var u := Forward(behave[a.r], c.unicc[a.r], JoinCall(c, a.r, a.tail)).0;
      assert u.log == c.unicc[a.r].log || u.log[..|u.log| - 1] == c.unicc[a.r].log;
    }
    hide Forward;
  }

  /** Once published, always published. */
  lemma PublishedStays(behave: seq<Behaviour>, c: Cluster, stale: Option<Stale>, a: Action, c': Cluster)
    requires Inv(c, stale) && |behave| == |c.ranks| && Next(behave, c, a, c') && Published(c)
    ensures Sized(c') && Published(c')
  {
    OriginStays(behave, c, stale, a, c');
    hide Forward, Produced, Accepts, CallsOk, ReaderOk;
  }

  /** Opening a published target always commits the rank: it is never told that the file is empty. */
  lemma OpeningCommits(behave: seq<Behaviour>, c: Cluster, stale: Option<Stale>, r: nat, c': Cluster)
    requires Inv(c, stale) && |behave| == |c.ranks| && Next(behave, c, OpenTarget(r), c') && Published(c)
    ensures Sized(c') && |c'.ranks| == |c.ranks| && c'.ranks[r].Reading? && Committed(c', r)
  {
    hide Forward, Produced, Accepts, CallsOk, ReaderOk;
  }

  /** Nothing the others do disturbs a committed rank. */
  lemma OthersKeepCommitted(behave: seq<Behaviour>, c: Cluster, stale: Option<Stale>, a: Action, c': Cluster, r: nat)
    requires Inv(c, stale) && |behave| == |c.ranks| && Next(behave, c, a, c')
    requires 0 < r < |c.ranks| && Committed(c, r) && c'.ranks[r] == c.ranks[r]
    ensures Sized(c') && |c'.ranks| == |c.ranks| && Committed(c', r) && Left(c', r) == Left(c, r)
  {
    if Origin(c).Some? {
      OriginStays(behave, c, stale, a, c');
    }
    hide Forward, Origin, Accepts, CallsOk, ReaderOk, Harmless, Readable, OriginOk;
  }

  /** What a committed rank does itself. */
  lemma OwnStepProgresses(behave: seq<Behaviour>, c: Cluster, stale: Option<Stale>, a: Action, c': Cluster, r: nat)
    requires Inv(c, stale) && |behave| == |c.ranks| && Next(behave, c, a, c')
    requires 0 < r < |c.ranks| && Committed(c, r)
    requires (a.ReadPiece? || a.EndRead?) && a.r == r
    ensures Sized(c') && |c'.ranks| == |c.ranks| && Committed(c', r) && Left(c', r) < Left(c, r)
    ensures a.EndRead? ==> c'.ranks[r].Holding? && Origin(c') == Some(c'.ranks[r].id)
  {
    hide Forward, Produced, Accepts, CallsOk, ReaderOk, Harmless, Readable, PublisherOk;
    var Reading(_, inode, got) := c.ranks[r];
    var bytes := c.files.contents[inode];
    assert 0 < |bytes| <= COMM_ID_MAX;
    if a.EndRead? {
      assert got == bytes;
    }
  }

  /** A committed rank stays committed and never gets further from the end of its loop; each of its own
      steps brings it closer, and the last one leaves it holding the id. */
  lemma CommittedProgresses(behave: seq<Behaviour>, c: Cluster, stale: Option<Stale>, a: Action, c': Cluster, r: nat)
    requires Inv(c, stale) && |behave| == |c.ranks| && Next(behave, c, a, c')
    requires 0 < r < |c.ranks| && Committed(c, r)
    ensures Sized(c') && |c'.ranks| == |c.ranks| && Committed(c', r) && Left(c', r) <= Left(c, r)
    ensures (a.ReadPiece? || a.EndRead?) && a.r == r ==> Left(c', r) < Left(c, r)
    ensures a == EndRead(r) ==> c'.ranks[r].Holding? && Origin(c') == Some(c'.ranks[r].id)
  {
    assert Sized(c);
    hide Inv, Forward, Origin;
    if (a.ReadPiece? || a.EndRead?) && a.r == r {
      OwnStepProgresses(behave, c, stale, a, c', r);
    } else if c'.ranks[r] == c.ranks[r] {
      OthersKeepCommitted(behave, c, stale, a, c', r);
    } else {
      assert c'.ranks[r].Joined? || c'.ranks[r].Stopped?;
    }
  }

  /** A committed rank that has not finished can always take a step of its own. */
  lemma CommittedCanStep(behave: seq<Behaviour>, c: Cluster, stale: Option<Stale>, r: nat)
    returns (a: Action, c': Cluster)
    requires Inv(c, stale) && |behave| == |c.ranks| && 0 < r < |c.ranks| && Committed(c, r) && c.ranks[r].Reading?
    ensures (a.ReadPiece? || a.EndRead?) && a.r == r && Next(behave, c, a, c')
  {
    hide Forward, Produced, Accepts, CallsOk;
    var Reading(tries, inode, got) := c.ranks[r];
    var bytes := c.files.contents[inode];
    if |got| < |bytes| {
      a := ReadPiece(r, 1);
      c' := c.(ranks := c.ranks[r := Reading(tries, inode, got + bytes[|got|..|got| + 1])]);
    } else {
      a := EndRead(r);
      assert got != [];
      c' := c.(ranks := c.ranks[r := Holding(got)]);
    }
  }

  /** Some step of the rank's own reading can be taken next. */
  ghost predicate CanRead(behave: seq<Behaviour>, c: Cluster, r: nat)
    requires Sized(c) && |behave| == |c.ranks|
  {
    exists a: Action, c': Cluster :: (a.ReadPiece? || a.EndRead?) && a.r == r && Next(behave, c, a, c')
  }

  lemma ReaderCanRead(behave: seq<Behaviour>, c: Cluster, stale: Option<Stale>, r: nat)
    requires Inv(c, stale) && |behave| == |c.ranks| && 0 < r < |c.ranks| && Committed(c, r) && c.ranks[r].Reading?
    ensures CanRead(behave, c, r)
  {
    hide Next, Inv, Committed;
    var a, c' := CommittedCanStep(behave, c, stale, r);
  }

  /** The rank is on its way out of its loop with the published id: it does not go back to polling and
      its next step can be taken. */
  ghost predicate Joining(behave: seq<Behaviour>, c: Cluster, r: nat) {
    && Published(c) && |behave| == |c.ranks| && 0 < r < |c.ranks| && Committed(c, r)
    && (c.ranks[r].Reading? ==> CanRead(behave, c, r))
  }

  predicate HoldsOrigin(c: Cluster, r: nat) {
    Sized(c) && r < |c.ranks| && c.ranks[r].Holding? && Origin(c) == Some(c.ranks[r].id)
  }

  lemma OpenerStarts(behave: seq<Behaviour>, c: Cluster, stale: Option<Stale>, r: nat, c': Cluster)
    requires Inv(c, stale) && |behave| == |c.ranks| && Next(behave, c, OpenTarget(r), c') && Published(c)
    ensures Joining(behave, c', r)
  {
    assert 0 < r < |c.ranks|;
    PublishedStays(behave, c, stale, OpenTarget(r), c');
    OpeningCommits(behave, c, stale, r, c');
    NextKeepsInv(behave, c, stale, OpenTarget(r), c');
    hide Next, Inv, Published, Committed, CanRead;
    ReaderCanRead(behave, c', stale, r);
  }

  lemma OpenerGoesOn(behave: seq<Behaviour>, c: Cluster, stale: Option<Stale>, a: Action, c': Cluster, r: nat)
    requires Inv(c, stale) && |behave| == |c.ranks| && Next(behave, c, a, c') && Joining(behave, c, r)
    ensures Joining(behave, c', r)
    ensures a == EndRead(r) ==> HoldsOrigin(c', r)
  {
    hide Next, Inv, Published, Committed, CanRead;
    PublishedStays(behave, c, stale, a, c');
    CommittedProgresses(behave, c, stale, a, c', r);
    NextKeepsInv(behave, c, stale, a, c');
    if c'.ranks[r].Reading? {
      ReaderCanRead(behave, c', stale, r);
    }
  }

  /** Progress, over whole runs: a rank that opens the target once it holds the complete id never goes
      back to polling, can always take its next step, and finishes by holding the id. */
  lemma {:induction false} OpenerHolds(behave: seq<Behaviour>, states: seq<Cluster>, actions: seq<Action>, i: nat,
                                       r: nat, n: nat)
    requires IsRun(behave, states, actions) && i < n < |states|
    requires Published(states[i]) && actions[i] == OpenTarget(r)
    ensures Joining(behave, states[n], r)
    ensures actions[n - 1] == EndRead(r) ==> HoldsOrigin(states[n], r)
    decreases n
  {
    hide Next, Inv, Published, Joining, HoldsOrigin, Leftover;
    RunKeepsInv(behave, states, actions, n - 1);
    if n == i + 1 {
      OpenerStarts(behave, states[i], Leftover(states[0]), r, states[n]);
    } else {
      OpenerHolds(behave, states, actions, i, r, n - 1);
      OpenerGoesOn(behave, states[n - 1], Leftover(states[0]), actions[n - 1], states[n], r);
    }
  }

  // ---- publication happens ----

  /** Renaming is what publishes: from then on the target is the complete id, and rank 0 holds it. */
  lemma RenamePublishes(behave: seq<Behaviour>, c: Cluster, stale: Option<Stale>, c': Cluster)
    requires Inv(c, stale) && |behave| == |c.ranks| && Next(behave, c, Rename, c')
    ensures Published(c') && HoldsOrigin(c', 0) && c'.files.target == c.files.temp && c'.files.temp == None
  {
    hide Forward, Produced, ReaderOk, Accepts;
  }

  /** Asking for the id: a refusal is the end of rank 0; alone it goes straight on with the bytes it was
      given, and with others it has them to publish. */
  lemma ObtainExactly(behave: seq<Behaviour>, c: Cluster, c': Cluster)
    requires Sized(c) && |behave| == |c.ranks| && Next(behave, c, ObtainId, c')
    ensures var reply := Forward(behave[0], c.unicc[0], GetId(true)).1;
            && c.ranks[0] == Ready && |c'.ranks| == |c.ranks| && c'.files == c.files
            && (reply.code != 0 ==> c'.ranks[0] == Stopped)
            && (reply.code == 0 ==>
                  && reply.output.Bytes?
                  && c'.ranks[0] == (if |c.ranks| == 1 then Holding(reply.output.bytes)
                                     else Obtained(reply.output.bytes)))
  {
    hide SymbolName;
  }

  /** Joining reports the native code, as the API does: a positive one as UNHANDLED_BACKEND, and an id
      of the wrong length as INVALID_ARGUMENT. */
  lemma JoinReports(behave: seq<Behaviour>, c: Cluster, r: nat, tail: seq<Byte>, c': Cluster)
    requires Sized(c) && |behave| == |c.ranks| && Next(behave, c, Join(r, tail), c')
    requires c.unicc[r].session.Open? && Supports(c.unicc[r].session.row, c.unicc[r].session.image, CommInitRank)
    ensures |c'.ranks| == |c.ranks| && |c'.unicc| == |c.unicc| && c'.ranks[r].Joined?
    ensures Accepts(c.unicc[r].session, c.ranks[r].id) ==>
              && |c'.unicc[r].log| == |c.unicc[r].log| + 1
              && var code := c'.unicc[r].log[|c.unicc[r].log|].answer.code;
                 c'.ranks[r].code == if code > 0 then -10 else code
    ensures !Accepts(c.unicc[r].session, c.ranks[r].id) ==> c'.ranks[r].code == -8
  {
    hide SymbolName;
  }

  /** The polling loop: 3000 looks at the target; an absent or empty one is looked at again, and anything
      else is taken, up to 4112 bytes of it. */
  lemma PollingExactly(behave: seq<Behaviour>, c: Cluster, stale: Option<Stale>, a: Action, c': Cluster, r: nat)
    requires Inv(c, stale) && |behave| == |c.ranks| && Next(behave, c, a, c') && 0 < r < |c.ranks|
    ensures a == OpenTarget(r) ==>
              && c.ranks[r].Polling? && c.ranks[r].tries < 3000 && |c'.ranks| == |c.ranks|
              && c'.ranks[r] == (if c.files.target == None then Polling(c.ranks[r].tries + 1)
                                 else Reading(c.ranks[r].tries, c.files.target.value, []))
    ensures a == EndRead(r) ==>
              && c.ranks[r].Reading? && c.ranks[r].inode in c.files.contents && |c'.ranks| == |c.ranks|
              && var bytes := c.files.contents[c.ranks[r].inode];
                 c'.ranks[r] == if bytes == [] then Polling(c.ranks[r].tries + 1)
                                else Holding(if |bytes| > 4112 then bytes[..4112] else bytes)
    ensures a == GiveUp(r) ==>
              c.ranks[r].Polling? && c.ranks[r].tries >= 3000 && r < |c'.ranks| && c'.ranks[r] == Stopped
  {
    hide Forward, Produced, Accepts, CallsOk, Harmless;
    if a == EndRead(r) {
      assert ReaderOk(c.files, c.ranks[r], Origin(c), stale);
      ReadToTheEnd(c, r, c.ranks[r].got, c.files.contents[c.ranks[r].inode]);
    }
  }

  lemma {:induction false} Beyond(inodes: set<Inode>) returns (inode: Inode)
    ensures forall i :: i in inodes ==> i < inode
  {
    if inodes == {} {
      inode := 0;
    } else {
      var i :| i in inodes;
      var j := Beyond(inodes - {i});
      inode := if i < j then j else i + 1;
      assert forall k :: k in inodes ==> k == i || k in inodes - {i};
    }
  }

  /** Rank 0, having obtained its id, writes it out in one piece and renames. */
  lemma PublisherRuns(behave: seq<Behaviour>, states: seq<Cluster>, actions: seq<Action>)
    returns (states': seq<Cluster>, actions': seq<Action>)
    requires IsRun(behave, states, actions)
    requires var c := states[|states| - 1]; c.ranks[0].Obtained? && |c.ranks[0].id| > 0
    ensures IsRun(behave, states', actions') && |states'| == |states| + 4 && states'[0] == states[0]
    ensures var c, c' := states[|states| - 1], states'[|states'| - 1];
            && c'.ranks == c.ranks[0 := Holding(c.ranks[0].id)] && c'.unicc == c.unicc
            && actions'[|actions'| - 1] == Rename
  {
    var c := states[|states| - 1];
    var id := c.ranks[0].id;
    var inode := Beyond(c.files.contents.Keys);
    if c.files.temp.Some? {
      inode := c.files.temp.value;
    }
    var created := c.files.(temp := Some(inode), contents := c.files.contents[inode := []]);
    var filled := created.(contents := created.contents[inode := id]);
    var c1 := c.(files := created, ranks := c.ranks[0 := Writing(id, inode, 0)]);
    var c2 := c.(files := filled, ranks := c.ranks[0 := Writing(id, inode, |id|)]);
    var c3 := c.(files := filled, ranks := c.ranks[0 := Written(id)]);
    var c4 := c.(files := filled.(target := filled.temp, temp := None), ranks := c.ranks[0 := Holding(id)]);
    assert [] + id[0..|id|] == id;
    assert c1.ranks[0 := Writing(id, inode, |id|)] == c2.ranks;
    assert c2.ranks[0 := Written(id)] == c3.ranks && c3.ranks[0 := Holding(id)] == c4.ranks;
    assert Next(behave, c, OpenTemp(inode), c1) && Next(behave, c1, WritePiece(|id|), c2);
    assert Next(behave, c2, CloseTemp, c3) && Next(behave, c3, Rename, c4);
    hide Next;
    RunExtends(behave, states, actions, OpenTemp(inode), c1);
    RunExtends(behave, states + [c1], actions + [OpenTemp(inode)], WritePiece(|id|), c2);
    RunExtends(behave, states + [c1] + [c2], actions + [OpenTemp(inode)] + [WritePiece(|id|)], CloseTemp, c3);
    states', actions' := states + [c1] + [c2] + [c3], actions + [OpenTemp(inode)] + [WritePiece(|id|)] + [CloseTemp];
    RunExtends(behave, states', actions', Rename, c4);
    states', actions' := states' + [c4], actions' + [Rename];
  }

  /** What a polling rank does with a published id, reading it in one piece. */
  lemma ReaderSteps(behave: seq<Behaviour>, c: Cluster, r: nat, id: seq<Byte>) returns (c1: Cluster, c2: Cluster)
    requires Published(c) && |behave| == |c.ranks| && 0 < r < |c.ranks| && c.ranks[r] == Polling(0)
    requires Origin(c) == Some(id) && 0 < |id| <= COMM_ID_MAX
    ensures Next(behave, c, OpenTarget(r), c1) && Sized(c1) && |c1.ranks| == |c.ranks|
    ensures Next(behave, c1, ReadPiece(r, |id|), c2) && Sized(c2) && |c2.ranks| == |c.ranks|
    ensures Next(behave, c2, EndRead(r), c.(ranks := c.ranks[r := Holding(id)]))
  {
    hide Origin, Forward;
    var inode := c.files.target.value;
    c1 := c.(ranks := c.ranks[r := Reading(0, inode, [])]);
    c2 := c.(ranks := c.ranks[r := Reading(0, inode, id)]);
    assert [] + id[0..|id|] == id;
    assert c1.ranks[r := Reading(0, inode, id)] == c2.ranks;
    assert c2.ranks[r := Holding(id)] == c.ranks[r := Holding(id)];
  }

  lemma OriginIsSized(c: Cluster, stale: Option<Stale>)
    requires Inv(c, stale) && Origin(c).Some?
    ensures 0 < |Origin(c).value| <= COMM_ID_MAX
  {
  }

  lemma ReaderRuns(behave: seq<Behaviour>, states: seq<Cluster>, actions: seq<Action>, r: nat)
    returns (states': seq<Cluster>, actions': seq<Action>)
    requires IsRun(behave, states, actions)
    requires var c := states[|states| - 1]; Published(c) && 0 < r < |c.ranks| && c.ranks[r] == Polling(0)
    ensures IsRun(behave, states', actions') && states'[0] == states[0] && |states'| > 0
    ensures var c := states[|states| - 1];
            states'[|states'| - 1] == c.(ranks := c.ranks[r := Holding(Origin(c).value)])
  {
    hide Next, Inv, Origin;
    var c := states[|states| - 1];
    RunKeepsInv(behave, states, actions, |states| - 1);
    OriginIsSized(c, Leftover(states[0]));
    var id := Origin(c).value;
    var c1, c2 := ReaderSteps(behave, c, r, id);
    var c3 := c.(ranks := c.ranks[r := Holding(id)]);
    RunExtends(behave, states, actions, OpenTarget(r), c1);
    RunExtends(behave, states + [c1], actions + [OpenTarget(r)], ReadPiece(r, |id|), c2);
    RunExtends(behave, states + [c1] + [c2], actions + [OpenTarget(r)] + [ReadPiece(r, |id|)], EndRead(r), c3);
    states' := states + [c1] + [c2] + [c3];
    actions' := actions + [OpenTarget(r)] + [ReadPiece(r, |id|)] + [EndRead(r)];
  }

  /** The ranks below r hold the origin's id, and the others have yet to look for it. */
  predicate HeldBelow(c: Cluster, r: nat) {
    && Sized(c)
    && (forall i :: 0 <= i < r ==> HoldsOrigin(c, i))
    && (forall i :: r <= i < |c.ranks| ==> c.ranks[i] == Polling(0))
  }

  lemma OneMoreHolds(c: Cluster, r: nat, c': Cluster)
    requires HeldBelow(c, r) && r < |c.ranks| && Origin(c).Some?
    requires c' == c.(ranks := c.ranks[r := Holding(Origin(c).value)])
    ensures HeldBelow(c', r + 1) && Origin(c') == Origin(c)
  {
    assert forall i :: 0 <= i < r ==> HoldsOrigin(c, i) && c'.ranks[i] == c.ranks[i];
  }

  /** The ranks from r on, one after another. */
  lemma {:induction false} ReadersRun(behave: seq<Behaviour>, states: seq<Cluster>, actions: seq<Action>, r: nat)
    returns (states': seq<Cluster>, actions': seq<Action>)
    requires IsRun(behave, states, actions) && 0 < r <= |behave|
    requires Published(states[|states| - 1]) && HeldBelow(states[|states| - 1], r)
    ensures IsRun(behave, states', actions') && states'[0] == states[0] && |states'| > 0
    ensures var c, c' := states[|states| - 1], states'[|states'| - 1];
            HeldBelow(c', |behave|) && Origin(c') == Origin(c)
    decreases |behave| - r
  {
    hide Next, Origin;
    if r == |behave| {
      states', actions' := states, actions;
    } else {
      states', actions' := ReaderRuns(behave, states, actions, r);
      OneMoreHolds(states[|states| - 1], r, states'[|states'| - 1]);
      states', actions' := ReadersRun(behave, states', actions', r + 1);
    }
  }

  /** Every rank holds these bytes. */
  predicate AllHold(c: Cluster, id: seq<Byte>) {
    forall r :: 0 <= r < |c.ranks| ==> c.ranks[r] == Holding(id)
  }

  lemma HeldByAll(c: Cluster, id: seq<Byte>)
    requires HeldBelow(c, |c.ranks|) && Origin(c) == Some(id)
    ensures AllHold(c, id)
  {
    forall r | 0 <= r < |c.ranks| ensures c.ranks[r] == Holding(id) {
      assert HoldsOrigin(c, r);
    }
  }

  lemma PublisherObtains(behave: seq<Behaviour>, c: Cluster) returns (obtained: Cluster)
    requires Prepared(c) && |behave| == |c.ranks|
    requires Forward(behave[0], c.unicc[0], GetId(true)).1.code == 0
    ensures Next(behave, c, ObtainId, obtained) && Sized(obtained) && |obtained.ranks| == |c.ranks|
    ensures var out := Forward(behave[0], c.unicc[0], GetId(true)).1.output;
            && out.Bytes? && |out.bytes| > 0 && Origin(obtained) == Some(out.bytes)
            && obtained.ranks == c.ranks[0 := if |c.ranks| > 1 then Obtained(out.bytes) else Holding(out.bytes)]
  {
    ObtainProduces(behave[0], c.unicc[0]);
    hide Produced;
    var (u, reply) := Forward(behave[0], c.unicc[0], GetId(true));
    var id := reply.output.bytes;
    var rank := if |c.ranks| > 1 then Obtained(id) else Holding(id);
    obtained := c.(unicc := c.unicc[0 := u], ranks := c.ranks[0 := rank]);
  }

  /** Publication succeeds: from every prepared cluster whose rank 0 is given an id there is a run that
      ends with every rank holding exactly the bytes that unicc_get_unique_id handed out. */
  lemma EveryoneCanHold(behave: seq<Behaviour>, c: Cluster) returns (states: seq<Cluster>, actions: seq<Action>)
    requires Prepared(c) && |behave| == |c.ranks|
    requires Forward(behave[0], c.unicc[0], GetId(true)).1.code == 0
    ensures IsRun(behave, states, actions) && states[0] == c && |states| > 0
    ensures var out := Forward(behave[0], c.unicc[0], GetId(true)).1.output;
            out.Bytes? && AllHold(states[|states| - 1], out.bytes) && Origin(states[|states| - 1]) == Some(out.bytes)
  {
    hide Next, Forward, Produced, Leftover, HoldsOrigin, Published, Inv;
    var obtained := PublisherObtains(behave, c);
    states, actions := [c, obtained], [ObtainId];
    assert IsRun(behave, states, actions);
    if |c.ranks| > 1 {
      states, actions := PublisherRuns(behave, states, actions);
      var n := |actions| - 1;
      RunKeepsInv(behave, states, actions, n);
      assert Next(behave, states[n], actions[n], states[n + 1]);
      RenamePublishes(behave, states[n], Leftover(c), states[n + 1]);
      states, actions := ReadersRun(behave, states, actions, 1);
      HeldByAll(states[|states| - 1], Origin(obtained).value);
    }
  }
}
