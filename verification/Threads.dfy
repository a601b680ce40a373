/** Concurrent callers under the documented discipline (docs/API.md, "Thread safety"): lifecycle
    calls are serialized, and no thread is inside a backed call while a finalize runs. An init may
    overlap backed calls, because it flips the state flag last. */
module Threads {
  import opened Common
  import opened Platform
  import opened Families
  import opened Dispatch
  import opened Api

  /** The process-wide variables that backed calls read. */
  datatype Memory = Memory(
    initialized: bool, table: Table, natives: Natives,
    handle: Option<Handle>, row: Option<Descriptor>, loaded: LinkMap, raw: CInt)

  /** Where a thread is inside a backed call: outside, past the state test, past the slot test,
      or back from the native function with a code not yet stored. */
  datatype Thread = Outside | Entered(op: Operation) | Admitted(op: Operation) | Returned(code: CInt)

  /** Which lifecycle call is in progress, if any. */
  datatype Phase = Quiet | Initializing | Finalizing

  /** `codes` are the positive native results of the current session. */
  datatype System = System(memory: Memory, phase: Phase, threads: seq<Thread>, codes: set<CInt>)

  datatype Action =
    | Enter(t: nat, op: Operation)
    | TestSlot(t: nat)
    | CallSlot(t: nat, code: CInt)
    | StoreResult(t: nat)
    | BeginInit
    | InitWrite(memory: Memory)
    | PublishInit
    | RefuseInit
    | BeginFinalize
    | FinalizeWrite(memory: Memory)
    | EndFinalize

  /** What every lifecycle call leaves behind. */
  ghost predicate Settled(m: Memory) {
    if m.initialized then
      && m.handle.Some? && IsOpenIn(m.loaded, m.handle.value) && m.row.Some?
      && Wired(m.table, m.natives, m.handle.value, m.row.value)
    else m.table == ZEROED && m.raw == 0
  }

  predicate AllOutside(threads: seq<Thread>) {
    forall t :: 0 <= t < |threads| ==> threads[t].Outside?
  }

  ghost predicate Next(s: System, a: Action, s': System) {
    match a
    case Enter(t, op) =>
      && t < |s.threads| && s.threads[t].Outside? && !s.phase.Finalizing?
      && s' == s.(threads := s.threads[t := if s.memory.initialized then Entered(op) else Outside])
    case TestSlot(t) =>
      && t < |s.threads| && s.threads[t].Entered?
      && s' == s.(threads := s.threads[t := if SlotOf(s.memory.table, s.threads[t].op) == Empty then Outside
                                            else Admitted(s.threads[t].op)])
    case CallSlot(t, code) =>
      && t < |s.threads| && s.threads[t].Admitted?
      && s' == s.(threads := s.threads[t := Returned(code)], codes := s.codes + (if code > 0 then {code} else {}))
    case StoreResult(t) =>
      && t < |s.threads| && s.threads[t].Returned?
      && s' == s.(threads := s.threads[t := Outside],
                  memory := s.memory.(raw := if s.threads[t].code > 0 then s.threads[t].code else s.memory.raw))
    case BeginInit =>
      s.phase.Quiet? && s' == s.(phase := Initializing)
    case InitWrite(memory) =>
      // Only a closed process is written to: anything but the flag and a non-zero raw code.
      && s.phase.Initializing? && !s.memory.initialized && !memory.initialized && memory.raw == 0
      && s' == s.(memory := memory)
    case PublishInit =>
      && s.phase.Initializing? && !s.memory.initialized && Settled(s.memory.(initialized := true))
      && s' == s.(phase := Quiet, memory := s.memory.(initialized := true), codes := {})
    case RefuseInit =>
      && s.phase.Initializing? && Settled(s.memory)
      && s' == s.(phase := Quiet)
    case BeginFinalize =>
      s.phase.Quiet? && AllOutside(s.threads) && s' == s.(phase := Finalizing)
    case FinalizeWrite(memory) =>
      s.phase.Finalizing? && s' == s.(memory := memory)
    case EndFinalize =>
      && s.phase.Finalizing? && !s.memory.initialized && Settled(s.memory)
      && s' == s.(phase := Quiet, codes := {})
  }

  /** The pointer a thread is about to call, if it is. */
  function Target(s: System, t: nat): Pointer
    requires t < |s.threads| && s.threads[t].Admitted?
  {
    Resolve(SlotOf(s.memory.table, s.threads[t].op), s.memory.natives)
  }

  predicate RawIsKnown(m: Memory, codes: set<CInt>) {
    m.raw == 0 || m.raw in codes
  }

  /** No thread is about to call a null or stale pointer, or another family's; and outside a
      finalize the raw cell holds 0 or a positive code some native call of this session returned. */
  ghost predicate Safe(s: System) {
    && (forall t :: 0 <= t < |s.threads| && s.threads[t].Admitted? ==>
          && s.memory.handle.Some? && s.memory.row.Some? && IsOpenIn(s.memory.loaded, s.memory.handle.value)
          && Target(s, t) == Fn(s.memory.handle.value, SymbolName(s.memory.row.value, s.threads[t].op))
          && SymbolName(s.memory.row.value, s.threads[t].op) in s.memory.handle.value.image.exports)
    && (!s.phase.Finalizing? ==> RawIsKnown(s.memory, s.codes))
    && (forall code :: code in s.codes ==> code > 0)
  }

  ghost predicate Inv(s: System) {
    && (if s.phase.Finalizing? then AllOutside(s.threads)
        else RawIsKnown(s.memory, s.codes)
             && (s.phase.Quiet? || s.memory.initialized ==> Settled(s.memory))
             && (!s.memory.initialized ==> s.memory.raw == 0)
             && (forall t :: 0 <= t < |s.threads| && !s.threads[t].Outside? ==> s.memory.initialized))
    && (forall t :: 0 <= t < |s.threads| && s.threads[t].Admitted? ==>
          SlotOf(s.memory.table, s.threads[t].op) != Empty)
    && (forall t :: 0 <= t < |s.threads| && s.threads[t].Returned? && s.threads[t].code > 0 ==>
          s.threads[t].code in s.codes)
    && (forall code :: code in s.codes ==> code > 0)
  }

  lemma NextKeepsInv(s: System, a: Action, s': System)
    requires Inv(s) && Next(s, a, s')
    ensures Inv(s')
  {
    hide Wired;
  }

  lemma InvIsSafe(s: System)
    requires Inv(s)
    ensures Safe(s)
  {
  }

  /** A run: consecutive states related by the given actions, from a settled quiet start. */
  ghost predicate IsRun(states: seq<System>, actions: seq<Action>) {
    && |states| == |actions| + 1
    && states[0].phase.Quiet? && Settled(states[0].memory) && states[0].memory.raw == 0 && states[0].codes == {}
    && AllOutside(states[0].threads)
    && (forall i :: 0 <= i < |actions| ==> Next(states[i], actions[i], states[i + 1]))
  }

  /** The discipline suffices: every state of every run is safe. */
  lemma {:induction false} DisciplineSuffices(states: seq<System>, actions: seq<Action>, n: nat)
    requires IsRun(states, actions) && n < |states|
    ensures Inv(states[n]) && Safe(states[n])
  {
    hide Next, Wired;
    if n == 0 {
    } else {
      DisciplineSuffices(states, actions, n - 1);
      NextKeepsInv(states[n - 1], actions[n - 1], states[n]);
    }
    InvIsSafe(states[n]);
  }

  // ---- the discipline leaves room for what it is for ----

  /** The writes of unicc_finalize, in their order: the table, the published type, the library, the
      handle, the raw code and, last, the state flag. */
  function Write(m: Memory, n: nat): Memory {
    match n
    case 0 => m.(table := ZEROED)
    case 1 => m.(row := None)
    case 2 => m.(loaded := Unloaded(m))
    case 3 => m.(handle := None)
    case 4 => m.(raw := 0)
    case _ => m.(initialized := false)
  }

  function Unloaded(m: Memory): LinkMap {
    if m.handle.Some? && m.handle.value.image in m.loaded && m.loaded[m.handle.value.image].opens >= 1
    then Release(m.loaded, m.handle.value.image)
    else m.loaded
  }

  const WRITES: nat := 6

  /** The memory after the first n writes. */
  function WrittenTo(m: Memory, n: nat): Memory {
    if n == 0 then m else Write(WrittenTo(m, n - 1), n - 1)
  }

  /** What the order of the writes is for: no slot is left when the library goes, and the state flag is
      the last thing to change. */
  lemma FlagGoesLast(m: Memory, n: nat)
    requires n <= WRITES
    ensures var k := WrittenTo(m, n);
            && (k.loaded != m.loaded || k.handle != m.handle || k.row != m.row || k.raw != m.raw ==> k.table == ZEROED)
            && (n < WRITES ==> k.initialized == m.initialized)
            && (n == WRITES ==> k == Memory(false, ZEROED, m.natives, None, None, Unloaded(m), 0))
  {
    assert WrittenTo(m, 0) == m;
    var m1 := WrittenTo(m, 1);
    assert m1 == m.(table := ZEROED);
    var m2 := WrittenTo(m, 2);
    assert m2 == m1.(row := None);
    var m3 := WrittenTo(m, 3);
    assert m3 == m2.(loaded := Unloaded(m));
    var m4 := WrittenTo(m, 4);
    assert m4 == m3.(handle := None);
    var m5 := WrittenTo(m, 5);
    assert m5 == m4.(raw := 0);
    assert WrittenTo(m, 6) == m5.(initialized := false);
  }

  /** An action has one outcome. */
  lemma NextIsFunction(s: System, a: Action, t: System, u: System)
    requires Next(s, a, t) && Next(s, a, u)
    ensures t == u
  {
    hide Settled;
  }

  /** A call goes all the way: in an open session with the slot filled, a thread that is outside passes
      both tests, calls, and stores a positive code and no other, whatever the other threads and an
      init are doing. */
  lemma CallGoesThrough(s: System, t: nat, op: Operation, code: CInt)
    returns (e: System, a: System, r: System, o: System)
    requires t < |s.threads| && s.threads[t].Outside? && !s.phase.Finalizing? && s.memory.initialized
    requires SlotOf(s.memory.table, op) != Empty
    ensures Next(s, Enter(t, op), e) && Next(e, TestSlot(t), a) && Next(a, CallSlot(t, code), r)
    ensures Next(r, StoreResult(t), o)
    ensures e.threads[t] == Entered(op) && a.threads[t] == Admitted(op) && r.threads[t] == Returned(code)
    ensures o.threads == s.threads && o.phase == s.phase
    ensures o.memory == (if code > 0 then s.memory.(raw := code) else s.memory)
    ensures o.codes == (if code > 0 then s.codes + {code} else s.codes)
  {
    hide Settled;
    e := s.(threads := s.threads[t := Entered(op)]);
    a := s.(threads := s.threads[t := Admitted(op)]);
    var codes := if code > 0 then s.codes + {code} else s.codes;
    r := s.(threads := s.threads[t := Returned(code)], codes := codes);
    o := s.(codes := codes, memory := if code > 0 then s.memory.(raw := code) else s.memory);
    assert e.threads[t := Admitted(op)] == a.threads && a.threads[t := Returned(code)] == r.threads;
    assert r.threads[t := Outside] == o.threads;
    assert s.codes + {} == s.codes;
  }

  /** An init of a closed process can be carried through to any settled open memory with the raw code
      clear, and one that finds nothing to bind can leave the process as it was. */
  lemma InitGoesThrough(s: System, memory: Memory) returns (b: System, w: System, o: System, refused: System)
    requires s.phase.Quiet? && Settled(s.memory) && !s.memory.initialized
    requires !memory.initialized && memory.raw == 0 && Settled(memory.(initialized := true))
    ensures Next(s, BeginInit, b) && Next(b, InitWrite(memory), w) && Next(w, PublishInit, o)
    ensures o == System(memory.(initialized := true), Quiet, s.threads, {})
    ensures Next(b, RefuseInit, refused) && refused == s
  {
    hide Settled;
    b := s.(phase := Initializing);
    w := b.(memory := memory);
    o := System(memory.(initialized := true), Quiet, s.threads, {});
    refused := s;
  }

  /** A finalize that finds every thread outside can begin, do its writes and end. */
  lemma FinalizeGoesThrough(s: System) returns (b: System, w: System, o: System)
    requires s.phase.Quiet? && AllOutside(s.threads)
    ensures Next(s, BeginFinalize, b) && Next(w, EndFinalize, o)
    ensures forall n :: 0 <= n < WRITES ==>
              Next(b.(memory := WrittenTo(s.memory, n)), FinalizeWrite(WrittenTo(s.memory, n + 1)),
                   b.(memory := WrittenTo(s.memory, n + 1)))
    ensures b.memory == WrittenTo(s.memory, 0) && w == b.(memory := WrittenTo(s.memory, WRITES))
    ensures o.phase.Quiet? && o.memory == w.memory && o.codes == {} && o.threads == s.threads
    ensures !o.memory.initialized && o.memory.table == ZEROED && o.memory.handle == None && o.memory.raw == 0
  {
    hide WrittenTo;
    FlagGoesLast(s.memory, 0);
    FlagGoesLast(s.memory, WRITES);
    b := s.(phase := Finalizing);
    w := b.(memory := WrittenTo(s.memory, WRITES));
    o := System(w.memory, Quiet, s.threads, {});
    assert b.memory == WrittenTo(s.memory, 0) by {
      NothingWritten(s.memory);
    }
  }

  lemma NothingWritten(m: Memory)
    ensures WrittenTo(m, 0) == m
  {
  }

  /** A call stops where it should: at the state test of a closed process, or at an empty slot. */
  lemma CallIsTurnedAway(s: System, t: nat, op: Operation, s': System)
    requires t < |s.threads|
    ensures Next(s, Enter(t, op), s') && !s.memory.initialized ==> s' == s
    ensures Next(s, TestSlot(t), s') && SlotOf(s.memory.table, s.threads[t].op) == Empty ==> s'.threads[t] == Outside
  {
    if s.threads[t].Outside? {
      assert s.threads[t := Outside] == s.threads;
    }
  }

  // ---- without the discipline: a finalize that waits for nobody ----

  /** A system in which one finalize is under way: waiting to begin, past its first n writes, or over. */
  datatype Stage = Before | Past(n: nat) | Over

  datatype Race = Race(system: System, stage: Stage)

  /** The finalize begins without looking at the threads, does its writes and nothing else. From
      then on threads take their steps as in Next, and may also enter a call at any moment. */
  ghost predicate RaceNext(r: Race, a: Action, r': Race) {
    var s, s' := r.system, r'.system;
    match a
    case BeginFinalize =>
      && r.stage.Before? && r'.stage == Past(0) && s.phase.Quiet? && s.memory.initialized
      && s' == s.(phase := Finalizing)
    case FinalizeWrite(memory) =>
      && r.stage.Past? && r.stage.n < WRITES && r'.stage == Past(r.stage.n + 1)
      && memory == Write(s.memory, r.stage.n) && Next(s, a, s')
    case EndFinalize =>
      r.stage == Past(WRITES) && r'.stage == Over && s' == s.(phase := Quiet, codes := {})
    case Enter(t, op) =>
      && !r.stage.Before? && r'.stage == r.stage
      && t < |s.threads| && s.threads[t].Outside?
      && s' == s.(threads := s.threads[t := if s.memory.initialized then Entered(op) else Outside])
    case TestSlot(_) => !r.stage.Before? && r'.stage == r.stage && Next(s, a, s')
    case CallSlot(_, _) => !r.stage.Before? && r'.stage == r.stage && Next(s, a, s')
    case StoreResult(_) => !r.stage.Before? && r'.stage == r.stage && Next(s, a, s')
    case _ => false
  }

  ghost predicate IsRace(from: Race, races: seq<Race>, actions: seq<Action>) {
    && |races| == |actions| + 1 && races[0] == from
    && forall i :: 0 <= i < |actions| ==> RaceNext(races[i], actions[i], races[i + 1])
  }

  /** Some continuation from here does harm. */
  ghost predicate CanHarm(from: Race) {
    exists races: seq<Race>, actions: seq<Action> :: IsRace(from, races, actions) && !Safe(races[|races| - 1].system)
  }

  /** The thread has passed the slot test and not yet called, or holds a code it will store. */
  predicate Caught(thread: Thread) {
    thread.Admitted? || (thread.Returned? && thread.code > 0)
  }

  predicate SomeCaught(threads: seq<Thread>) {
    exists t :: 0 <= t < |threads| && Caught(threads[t])
  }

  ghost predicate Filled(table: Table) {
    exists op :: SlotOf(table, op) != Empty
  }

  /** What makes a moment a bad one to finalize at: a thread that is caught, or any thread at all
      while there is a slot it can still get through. */
  ghost predicate Exposed(s: System) {
    SomeCaught(s.threads) || (s.threads != [] && Filled(s.memory.table))
  }

  /** What a finalize keeps from an unexposed moment. */
  ghost predicate Calm(r: Race) {
    var s := r.system;
    && (forall code :: code in s.codes ==> code > 0)
    && !Exposed(s)
    && (match r.stage
        case Before => s.phase.Quiet? && RawIsKnown(s.memory, s.codes)
        case Past(n) => && s.phase.Finalizing? && (n > 4 ==> s.memory.raw == 0)
                        && (n > 5 ==> !s.memory.initialized)
        case Over => s.phase.Quiet? && s.memory.raw == 0 && !s.memory.initialized)
  }

  lemma RaceKeepsCalm(r: Race, a: Action, r': Race)
    requires Calm(r) && RaceNext(r, a, r')
    ensures Calm(r')
  {
    hide Wired, Settled;
    var s, s' := r.system, r'.system;
    assert forall t :: 0 <= t < |s'.threads| && Caught(s'.threads[t]) ==> Caught(s.threads[t]);
    assert forall op :: SlotOf(s'.memory.table, op) != Empty ==> SlotOf(s.memory.table, op) != Empty;
    assert |s'.threads| == |s.threads|;
  }

  lemma {:induction false} RaceStaysCalm(from: Race, races: seq<Race>, actions: seq<Action>, n: nat)
    requires IsRace(from, races, actions) && n < |races| && Calm(from)
    ensures Calm(races[n])
  {
    hide RaceNext, Calm;
    if n == 0 {
    } else {
      RaceStaysCalm(from, races, actions, n - 1);
      RaceKeepsCalm(races[n - 1], actions[n - 1], races[n]);
    }
  }

  lemma CalmIsSafe(r: Race)
    requires Calm(r)
    ensures Safe(r.system)
  {
    assert forall t :: 0 <= t < |r.system.threads| && r.system.threads[t].Admitted? ==>
        Caught(r.system.threads[t]);
  }

  lemma CalmCannotHarm(from: Race)
    requires Calm(from)
    ensures !CanHarm(from)
  {
    hide RaceNext, Safe, Calm;
    forall races: seq<Race>, actions: seq<Action> | IsRace(from, races, actions)
      ensures Safe(races[|races| - 1].system)
    {
      RaceStaysCalm(from, races, actions, |races| - 1);
      CalmIsSafe(races[|races| - 1]);
    }
  }

  lemma UnsafeHarms(from: Race)
    requires !Safe(from.system)
    ensures CanHarm(from)
  {
    assert IsRace(from, [from], []) && [from][|[from]| - 1] == from;
  }

  /** One step further back. */
  lemma HarmAhead(r: Race, a: Action, r': Race)
    requires RaceNext(r, a, r') && CanHarm(r')
    ensures CanHarm(r)
  {
    hide RaceNext, Safe;
    var races: seq<Race>, actions: seq<Action> :| IsRace(r', races, actions) && !Safe(races[|races| - 1].system);
    var races', actions' := [r] + races, [a] + actions;
    forall i | 0 <= i < |actions'| ensures RaceNext(races'[i], actions'[i], races'[i + 1]) {
      if i == 0 {
      } else {
        assert races'[i] == races[i - 1] && actions'[i] == actions[i - 1] && races'[i + 1] == races[i];
      }
    }
    assert IsRace(r, races', actions') && races'[|races'| - 1] == races[|races| - 1];
  }

  // ---- the harmful continuations ----

  /** With the table cleared, an admitted thread is about to call null. */
  lemma AdmittedIsCaught(r: Race, t: nat)
    requires r.stage.Past? && r.system.phase.Finalizing? && t < |r.system.threads| && r.system.threads[t].Admitted?
    requires r.stage == Past(0) || r.system.memory.table == ZEROED
    ensures CanHarm(r)
  {
    hide CanHarm, Wired;
    if r.system.memory.table == ZEROED {
      assert Target(r.system, t) == Null;
      UnsafeHarms(r);
    } else {
      var memory := Write(r.system.memory, 0);
      var r' := Race(r.system.(memory := memory), Past(1));
      assert Target(r'.system, t) == Null;
      UnsafeHarms(r');
      HarmAhead(r, FinalizeWrite(memory), r');
    }
  }

  /** A thread with a positive code waits for the finalize to end and stores it into the closed
      process. */
  lemma {:induction false} CodeIsCaught(r: Race, t: nat, n: nat)
    requires r.stage == Past(n) && n <= WRITES && r.system.phase.Finalizing? && t < |r.system.threads|
    requires r.system.threads[t].Returned? && r.system.threads[t].code > 0
    ensures CanHarm(r)
    decreases WRITES - n
  {
    hide CanHarm, Wired, Settled;
    var s := r.system;
    if n == WRITES {
      var over := Race(s.(phase := Quiet, codes := {}), Over);
      var stored := Race(over.system.(threads := s.threads[t := Outside],
                                      memory := s.memory.(raw := s.threads[t].code)), Over);
      UnsafeHarms(stored);
      HarmAhead(over, StoreResult(t), stored);
      HarmAhead(r, EndFinalize, over);
    } else {
      var memory := Write(s.memory, n);
      var r' := Race(s.(memory := memory), Past(n + 1));
      CodeIsCaught(r', t, n + 1);
      HarmAhead(r, FinalizeWrite(memory), r');
    }
  }

  /** Before the table is cleared, a thread outside gets through any filled slot. */
  lemma OutsideIsCaught(r: Race, t: nat, op: Operation)
    requires r.stage == Past(0) && r.system.phase.Finalizing? && r.system.memory.initialized
    requires t < |r.system.threads| && r.system.threads[t].Outside? && SlotOf(r.system.memory.table, op) != Empty
    ensures CanHarm(r)
  {
    hide CanHarm, Wired;
    var s := r.system;
    var entered := Race(s.(threads := s.threads[t := Entered(op)]), Past(0));
    var admitted := Race(s.(threads := s.threads[t := Admitted(op)]), Past(0));
    assert admitted.system.threads == entered.system.threads[t := Admitted(op)];
    AdmittedIsCaught(admitted, t);
    HarmAhead(entered, TestSlot(t), admitted);
    HarmAhead(r, Enter(t, op), entered);
  }

  /** So does a thread that has to finish another call first. */
  lemma AnyoneIsCaught(r: Race, t: nat, op: Operation)
    requires r.stage == Past(0) && r.system.phase.Finalizing? && r.system.memory.initialized
    requires t < |r.system.threads| && SlotOf(r.system.memory.table, op) != Empty
    ensures CanHarm(r)
  {
    hide CanHarm, Wired;
    var s := r.system;
    match s.threads[t] {
      case Outside => OutsideIsCaught(r, t, op);
      case Admitted(_) => AdmittedIsCaught(r, t);
      case Entered(mine) =>
        var moved := if SlotOf(s.memory.table, mine) == Empty then Outside else Admitted(mine);
        var r' := Race(s.(threads := s.threads[t := moved]), Past(0));
        if moved.Outside? {
          OutsideIsCaught(r', t, op);
        } else {
          AdmittedIsCaught(r', t);
        }
        HarmAhead(r, TestSlot(t), r');
      case Returned(code) =>
        if code > 0 {
          CodeIsCaught(r, t, 0);
        } else {
          var r' := Race(s.(threads := s.threads[t := Outside]), Past(0));
          OutsideIsCaught(r', t, op);
          HarmAhead(r, StoreResult(t), r');
        }
    }
  }

  /** The moment at which finalize is called, and the one at which it has just cleared the table. */
  function Called(s: System): Race {
    Race(s, Before)
  }

  function Cleared(s: System): Race {
    Race(s.(phase := Finalizing, memory := Write(s.memory, 0)), Past(1))
  }

  /** In a quiet moment only an open session has threads inside a call or filled slots. */
  lemma FilledIsOpen(s: System, op: Operation)
    requires Inv(s) && s.phase.Quiet? && SlotOf(s.memory.table, op) != Empty
    ensures s.memory.initialized
  {
  }

  lemma FinalizeBegins(s: System)
    requires s.phase.Quiet? && s.memory.initialized
    ensures RaceNext(Called(s), BeginFinalize, Race(s.(phase := Finalizing), Past(0)))
  {
  }

  /** The discipline is needed, exactly. Called at a quiet moment, a finalize that waits for nobody
      can do harm if and only if some thread is caught, or there is a thread, wherever it is, and a
      slot it can get through. */
  lemma UnguardedFinalizeExactly(s: System)
    requires Inv(s) && s.phase.Quiet?
    ensures CanHarm(Called(s)) <==> Exposed(s)
  {
    hide CanHarm, RaceNext, Wired;
    if Exposed(s) {
      var begun := Race(s.(phase := Finalizing), Past(0));
      if SomeCaught(s.threads) {
        var t :| 0 <= t < |s.threads| && Caught(s.threads[t]);
        if s.threads[t].Admitted? {
          AdmittedIsCaught(begun, t);
        } else {
          CodeIsCaught(begun, t, 0);
        }
      } else {
        var op :| SlotOf(s.memory.table, op) != Empty;
        FilledIsOpen(s, op);
        AnyoneIsCaught(begun, 0, op);
      }
      FinalizeBegins(s);
      HarmAhead(Called(s), BeginFinalize, begun);
    } else {
      CalmCannotHarm(Called(s));
    }
  }

  /** Since every session has its core slots filled (Laws.RunKeepsSane), an open process is never safe to
      finalize unguarded while there is any thread that may call. */
  lemma OpenSessionIsExposed(s: System)
    requires Inv(s) && s.phase.Quiet? && s.memory.initialized
    requires CoreExported(s.memory.row.value, s.memory.handle.value.image)
    ensures CanHarm(Called(s)) <==> s.threads != []
  {
    hide CanHarm, SymbolName;
    UnguardedFinalizeExactly(s);
    assert Leads(SlotOf(s.memory.table, AllReduce), s.memory.natives, s.memory.handle.value, s.memory.row.value,
                 AllReduce);
    assert SlotOf(s.memory.table, AllReduce) != Empty;
  }

  /** Once the table is cleared it is only the threads caught at that moment that matter: those that
      have yet to pass the slot test, and those that enter later, are turned away. */
  lemma UnguardedMemsetExactly(s: System)
    requires Inv(s) && s.phase.Quiet?
    ensures CanHarm(Cleared(s)) <==> SomeCaught(s.threads)
  {
    hide CanHarm, RaceNext, Wired;
    if SomeCaught(s.threads) {
      var t :| 0 <= t < |s.threads| && Caught(s.threads[t]);
      if s.threads[t].Admitted? {
        AdmittedIsCaught(Cleared(s), t);
      } else {
        CodeIsCaught(Cleared(s), t, 1);
      }
    } else {
      assert forall op :: SlotOf(ZEROED, op) == Empty;
      CalmCannotHarm(Cleared(s));
    }
  }

  /** The variables of the sequential API object, as seen here. */
  ghost function View(u: Unicc): Memory
    requires u.Valid()
    reads u, u.host, u.registry, u.registry.cell, u.registry.binder
  {
    Memory(u.initialized, u.registry.cell.unicc, u.registry.binder.natives,
           u.handle, if u.initialized then u.Family() else None, u.host.loaded, u.lastResult)
  }

  /** The lifecycle calls of the API leave what PublishInit, RefuseInit and EndFinalize assume: a
      settled memory, published only from a closed one, and a refusal that changes neither the
      flag nor the raw code. */
  method InitSettles(u: Unicc, w: World) returns (rc: CInt)
    requires u.Valid()
    modifies u, u.host`loaded, u.host`next, u.registry, u.registry.cell, u.registry.binder
    ensures u.Valid() && Settled(View(u))
    ensures rc == OK ==> !old(u.initialized) && u.initialized && View(u).raw == 0
    ensures rc != OK ==> View(u).initialized == old(View(u)).initialized && View(u).raw == old(View(u)).raw
  {
    hide SymbolName;
    rc := u.Init(w);
  }

  method FinalizeSettles(u: Unicc) returns (rc: CInt)
    requires u.Valid()
    modifies u, u.host`loaded, u.registry, u.registry.cell
    ensures u.Valid() && Settled(View(u)) && !u.initialized
    ensures old(u.initialized) ==> View(u) == WrittenTo(old(View(u)), WRITES)
  {
    hide SymbolName;
    FlagGoesLast(View(u), WRITES);
    rc := u.Finalize();
  }
}
