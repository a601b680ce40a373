# UniCCL dispatch layer: a Dafny model

UniCCL loads a collective-communication library at run time, identifies which vendor family it
belongs to, binds its symbols into one process-wide table and forwards a unified API through that
table. All of it is mutable process-wide state, re-initialized against different libraries in one
process. This project models that state and proves what holds over every run.

Three parts.

1. **Lifecycle, loader and binder.** The objects of `Platform`, `Binding`, `VTable`, `Loading` and
   `Api` keep the source's variables (the table, the binder's fourteen file-static pointers, the
   published type and handle, the API state) and change them in the source's order. `Spec` is what a
   client may rely on: a session is closed, or is one library seen through one family with a last
   positive code, and every call looks its symbol up directly. Each API method is proved against
   `Spec`, and `Api.Unicc.Perform` extends that to every sequence of calls. `Laws` proves the
   properties of `Spec`'s runs, which the implementation inherits (`Api.RunProcess`), and `Calls`
   spells out each call with its symbol names, arguments, ranges and codes written out, so that what
   `Spec` computes is fixed apart from the tables and functions it is built from. A native
   function is an arbitrary function of the whole call history. A call through a pointer demands
   that the pointer's load is still open, so verification of the methods is also the proof that no
   null or stale pointer is ever called.
2. **Selection.** The environment-to-name choice, soname fallback, identification and symbol names,
   for any family table. Each result asks of the table only what it depends on: ascending priorities
   for identification, prefix-free short names for symbols, distinct types and short library names
   for loading and binding. Probes may be any symbols and families may share a prefix, as
   `docs/BACKENDS.md:103-105` plans. `BACKENDS` is the source's table and has all of it.
3. **Bootstrap across ranks, and threads.** `Bootstrap` is the publish/poll protocol as a state
   machine over any number of ranks, each with its own `Spec` process. `Threads` is the documented
   thread-safety discipline, with the exact condition under which breaking it does harm. `Binary32`,
   `Rounding` and `Tightness` are the integration test's sum check, and `Devmem` is its device
   runtime loader.

Modelling decisions.

- The environment variables, the names dlopen can open with their images, and platform support are
  a `World` given afresh with every call. The link map counts opens per image and stamps every load
  with a generation; an image counts as gone when its last open is closed.
- Opens made by the rest of the process are allowed and are what `Api.Unicc.RestOfProcess` denotes.
- The id a native function hands back is a full block of arbitrary bytes, of which a family's id is the
  first 128 or 4096; bytes the function never wrote are arbitrary too.
- A finalize that breaks the thread discipline is `Threads.RaceNext`: it begins without looking at the
  threads and makes the source's six writes in their order. Meanwhile, and after it has ended, threads
  inside a call take their steps and any thread may enter a new one at any moment.
- A null out-parameter is `out == false`; integer and communicator results come back as an optional
  value (absent when the backend stored nothing). The id is a mutable object with a 4112-byte array.
- The early returns that open every backed call are one function, `Api.Unicc.Gate`, which keeps
  their order.
- `Binary32` represents a float by the integer it denotes, with an unbounded exponent; a world that
  fits in a C int never comes near the overflow threshold.

Where the documentation and the code disagree the model follows the code.

- `docs/BACKENDS.md:97-101` lists another probe order than `src/unicc_loader.c:220`.
- `docs/BACKENDS.md:220-223` says every non-zero native code becomes UNHANDLED_BACKEND;
  `src/unicc_api.c:38-40` passes negative codes through.
- `src/unicc_vtable.c:38-43` promises that a failed init restores the table to all zeros; a library
  that is not identified, or an unsupported platform, returns before the reset, which only matters
  to a caller whose table was not clean.
- The comment at `src/unicc_vtable.c:76` speaks of a stale type as well, but only the table is reset.
- `src/backends/unicc_bind.c:211` says the ECCL rank slot stays NULL; it is left as it was.
  `Binding.Binder.Bind` states exactly when that is harmless, and `Api.Unicc.Init` always meets it.

Results that go beyond the source's own words.

- The sum check accepts every correctly rounded reduction up to 5792 ranks, and for every larger world
  some correctly rounded reduction is reported as a mismatch (`Tightness.BoundIsTight`).
- An unguarded finalize can do harm exactly when, as it is called, a thread is past the slot test, or
  holds a positive code it has not stored yet, or there is any thread at all and a slot it can get
  through (`Threads.UnguardedFinalizeExactly`); in an open session with its core slots filled, that is
  whenever there is a thread (`Threads.OpenSessionIsExposed`). Once the table is cleared, only the first
  two kinds still matter (`Threads.UnguardedMemsetExactly`).
- The binder's pointers outlive finalize, but none into an image that finalize unmapped can ever be
  called again (`Api.FinalizeForGood`).
- Publication is atomic exactly when the target starts absent or empty or there are no readers
  (`Bootstrap.AtomicExactly`): over any other file every reader can take its bytes for the id. A backend
  is given such bytes in some run exactly when a reader's family accepts an id of that length
  (`Bootstrap.AgreementExactly`); the length guard turns all others away.
- A row with a 4096-byte id and int nranks would hand out ids it then refuses; no present row is one
  (`Laws.IdRoundTrip`, `Families.BackendsWellFormed`).

## Model

| member | source | states |
|---|---|---|
| Api.Unicc.Perform | src/unicc_api.c:54-328 | refinement over every sequence of calls: replies, out-parameters, native-call log and final session are the specification's, and every open is accounted for |
| Api.RunProcess | src/unicc_api.c:16-24 | from process start: all replies are the specification's, the raw code is the latest failure of the session, every native call is well formed, every reply of unicc_get_last_error is the latest failure before it, exactly one open is held during a session and none outside, and every slot is empty exactly when the operation is not offered and otherwise ends at a live pointer to the family's symbol |
| Api.FinalizeForGood | src/unicc_api.c:107-120 | after a finalize, in every later state, no pointer the binder still holds into an image that nobody else keeps mapped can be called, nor any symbol of the finished session's load |
| Api.Unicc.GoneForGood | src/unicc_platform_posix.c:5-13 | from a state in which a past load's image is unmapped, no sequence of opens and closes by anyone makes that load live again |
| Api.Continue | src/unicc_api.c:92-120 | an uninitialized process with any past gives the same replies and native calls as a process that has just started, although the binder's pointers still hold old addresses |
| Api.Unicc.constructor | src/unicc_api.c:21-24 | process start is a closed session with nothing open |
| Api.Unicc.Init | src/unicc_api.c:54-105 | moves the session as the specification's start does and leaves the rest of the process's opens alone, whichever way it ends |
| Api.Unicc.Adopt | src/unicc_api.c:92-104 | a loaded library is either bound and published or given back with the state untouched |
| Api.Unicc.Finalize | src/unicc_api.c:107-120 | closes the session and releases the library's one open, only when initialized |
| Api.Unicc.HoldsOneOpen | src/unicc_api.c:77-119 | handle conservation: with no other opens in the process the link map is one image opened once, or empty |
| Api.Unicc.Diagnose | src/unicc_api.c:158-171 | changes neither the session nor any reference count, in either state |
| Api.Unicc.GetBackendName | src/unicc_api.c:126-131 | the session family's name, or "unknown" |
| Api.Unicc.MapBackendResult | src/unicc_api.c:34-43 | only a positive code reaches the raw cell; negative codes pass through |
| Api.Unicc.GateRefuses | src/unicc_api.c:145-154 | a call stopped by a NULL slot, a closed session or a bad argument is stopped by the specification with the same code and no effect |
| Api.Unicc.GateAdmits | src/unicc_vtable.c:44-84 | past the checks the slot has the family's adapter and ends at a live pointer to the family's symbol in the open handle |
| Api.Unicc.GetBackendVersion | src/unicc_api.c:145-156 | refines the specification's call of GetVersion |
| Api.Unicc.GetUniqueIdInto | src/unicc_api.c:173-184 | refines GetUniqueId; on success exactly the first len bytes of the caller's buffer change, otherwise nothing does |
| Api.Unicc.CommInitRankWith | src/unicc_api.c:186-197 | refines CommInitRank, including the id-length rejection and the nranks conversion |
| Api.Unicc.CommDestroyOf | src/unicc_api.c:199-207 | refines CommDestroy |
| Api.Unicc.CommCountOf | src/unicc_api.c:209-220 | refines CommCount |
| Api.Unicc.CommUserRankOf | src/unicc_api.c:222-233 | refines CommUserRank, absent for families without it |
| Api.Unicc.AllReduceOn | src/unicc_api.c:246-266 | refines AllReduce with datatype and op in range |
| Api.Unicc.BroadcastOn | src/unicc_api.c:268-284 | refines Broadcast, in place or with the one buffer on both sides |
| Api.Unicc.GroupStartNow | src/unicc_api.c:286-294 | refines GroupStart |
| Api.Unicc.GroupEndNow | src/unicc_api.c:296-304 | refines GroupEnd |
| Api.Unicc.Has | src/unicc_api.c:235-244 | the slot test of the availability gates says whether the open image offers the operation to the family |
| Calls.BackendVersionExactly | src/unicc_api.c:145-156 | unicc_backend_version in full: -5 when closed, -9 when the function is not exported, -8 for bad arguments, and otherwise name + "GetVersion" called, the stored int handed back; a positive native code is kept and becomes -10, any other passes through |
| Calls.GetUniqueIdExactly | src/unicc_api.c:173-184 | unicc_get_unique_id in full: -5 when closed, -9 when the function is not exported, -8 for bad arguments, and otherwise name + "GetUniqueId" called for 128 or 4096 bytes by the row's id kind, exactly those bytes handed back on 0; a positive native code is kept and becomes -10, any other passes through |
| Calls.CommInitRankExactly | src/unicc_api.c:186-197 | unicc_comm_init_rank in full: -5 when closed, -9 when the function is not exported, -8 for bad arguments, and otherwise name + "CommInitRank" called with the caller's nranks and rank, the first 128 or 4096 id bytes and the row's nranks convention; a positive native code is kept and becomes -10, any other passes through |
| Calls.CommDestroyExactly | src/unicc_api.c:199-207 | unicc_comm_destroy in full: -5 when closed, -9 when the function is not exported, and otherwise name + "CommDestroy" called with the caller's communicator; a positive native code is kept and becomes -10, any other passes through |
| Calls.CommCountExactly | src/unicc_api.c:209-220 | unicc_comm_count in full: -5 when closed, -9 when the function is not exported, -8 for bad arguments, and otherwise name + "CommCount" called with the caller's communicator, the stored int handed back; a positive native code is kept and becomes -10, any other passes through |
| Calls.CommUserRankExactly | src/unicc_api.c:222-233 | unicc_comm_user_rank in full: -5 when closed, -9 when the function is not exported, -8 for bad arguments, and otherwise name + "CommUserRank" called with the caller's communicator, the stored int handed back; a positive native code is kept and becomes -10, any other passes through |
| Calls.AllReduceExactly | src/unicc_api.c:246-266 | unicc_allreduce in full: -5 when closed, -9 when the function is not exported, -8 for bad arguments, and otherwise name + "AllReduce" called with the caller's send, recv, count, datatype in 0..9, op in 0..3, communicator and stream, each in its place; a positive native code is kept and becomes -10, any other passes through |
| Calls.BroadcastExactly | src/unicc_api.c:268-284 | unicc_broadcast in full: -5 when closed, -9 when the function is not exported, -8 for bad arguments, and otherwise name + "Broadcast" called with the caller's buffer once or on both sides, count, datatype in 0..9, root, communicator and stream; a positive native code is kept and becomes -10, any other passes through |
| Calls.GroupStartExactly | src/unicc_api.c:286-294 | unicc_group_start in full: -5 when closed, -9 when the function is not exported, and otherwise name + "GroupStart" called; a positive native code is kept and becomes -10, any other passes through |
| Calls.GroupEndExactly | src/unicc_api.c:296-304 | unicc_group_end in full: -5 when closed, -9 when the function is not exported, and otherwise name + "GroupEnd" called; a positive native code is kept and becomes -10, any other passes through |
| Calls.QueriesExactly | src/unicc_api.c:122-171 | what the state queries, the raw-code query and diagnose answer in an open and in a closed process |
| Calls.GatesExactly | src/unicc_api.c:235-320 | each gate answers 1 exactly in an open session whose library exports the functions of that gate, by name |
| Calls.FinalizeExactly | src/unicc_api.c:107-120 | closes an open session with 0 and refuses a closed one with -5 |
| Calls.InitFailsEarly | src/unicc_api.c:54-90 | -6 when open, -8 for a name of 256 characters or more, and when neither spelling opens -1 if neither variable is set to anything and -2 otherwise |
| Calls.InitBinds | src/unicc_api.c:92-104 | once a spelling has opened, init hands on the binding's code, or opens a session with that path and a raw code of 0 |
| Calls.BindExactly | src/unicc_vtable.c:44-84 | binding by the row that outranks all other probed rows: -11, -3 for a type other than the four, -4 for a missing one of the four core functions, in this order, or that row |
| Calls.NothingToBind | src/unicc_vtable.c:45-49 | -4 when no probe is exported |
| Calls.FamilyLibraries | src/unicc_loader.c:31-40 | the library and the fallback each of the four names stands for, and the default |
| Calls.FamilyOfLibrary | src/unicc_loader.c:31-40 | a library is ECCL, oneCCL, RCCL or NCCL by the first of their GetVersion functions it exports, with that family's four calling conventions |
| Laws.SameContinuation | src/backends/unicc_bind.c:24-48 | two processes in the same session reply alike and call alike for ever after, against backends that answer alike |
| Laws.RawIsLatestFailure | src/unicc_api.c:99-115 | after any run the raw code is the latest positive native result since the last init or finalize, 0 if none; never negative and 0 when closed |
| Laws.LastErrorExactly | src/unicc_api.c:322-328 | after any run unicc_get_last_error answers 0 with the latest positive native result since the last init or finalize, refuses a null pointer with -8, and changes nothing |
| Laws.LastErrorReplies | src/unicc_api.c:34-43 | and so at every place of every run where it is called |
| Laws.EveryNativeCallIsGood | src/unicc_api.c:186-284 | every native call of every run goes to an exported symbol of the identified family with its signature, non-NULL buffers, count at least 1, datatype in 0..9, op in 0..3, 0 <= rank < nranks and an id of native size |
| Laws.RunKeepsSane | src/unicc_vtable.c:44-84 | every reachable session is seen through its image's identified family, with all core symbols and a non-negative raw code |
| Laws.GateIsExact | src/unicc_api.c:306-320 | a gate answers 1 exactly when a well-formed call makes one native call; otherwise that call changes nothing |
| Laws.CoreGatesFollowTheSession | src/unicc_api.c:235-244 | in every reachable state the allreduce and broadcast gates equal is_initialized and the comm gate equals the unique-id gate |
| Laws.InitRefusals | src/unicc_api.c:54-90 | ALREADY_INITIALIZED, NO_BACKEND, INVALID_ARGUMENT and BACKEND_LOAD each exactly when; every failure leaves the state unchanged, and there are seven failures in all |
| Laws.InitRejections | src/unicc_vtable.c:44-84 | SYMBOL_NOT_FOUND, BACKEND_NOT_SUPPORTED and BACKEND_INIT_FAILED each exactly when |
| Laws.InitSuccess | src/unicc_api.c:92-104 | init succeeds exactly when the requested name fits, one of its spellings opens, and the image can be bound on this platform |
| Laws.CanBindExactly | src/unicc_vtable.c:44-84 | an image can be bound exactly when the platform is supported and its highest-priority probed family has a binding and all four core symbols |
| Laws.IdRoundTrip | src/backends/unicc_bind.c:61-113 | an id produced by a session reaches that library's CommInitRank byte for byte exactly when the row is not a 4096-byte id with int nranks |
| Laws.WrongLengthIsRejected | src/backends/unicc_bind.c:81-89 | an id of any other length is refused with no native call and no change to the raw code |
| Selection.IdentificationIsArgmax | src/unicc_loader.c:202-229 | for any table with ascending priorities, a row is identified exactly when its probe is exported and it outranks every other exported probe |
| Selection.GenericRowIsLastResort | src/unicc_loader.c:210-219 | for any table with ascending priorities, the first row is chosen exactly when its probe is the only one |
| Selection.UnidentifiedMeansNoProbe | src/unicc_loader.c:220-228 | UNKNOWN exactly when no probe is exported |
| Selection.RequestedExactly | src/unicc_loader.c:78-116 | a non-empty UNICC_LIBRARY is the answer; otherwise a non-empty UNICC_BACKEND gives the library of the first row of that name, or itself if there is none; otherwise the first row's library |
| Selection.SelectedExactly | src/unicc_loader.c:56-59 | something was selected exactly when one of the two variables is set to a non-empty value |
| Selection.OpenedExactly | src/unicc_loader.c:133-196 | the requested spelling whenever it opens, otherwise the fallback of the first row with that library if it opens, otherwise nothing |
| Selection.NeitherOpensIsExact | src/unicc_loader.c:135-186 | loading fails exactly when neither the name nor its first matching row's fallback opens |
| Selection.NoBackendExactly | src/unicc_api.c:79-88 | NO_BACKEND exactly when nothing is selected and neither default spelling opens |
| Selection.LoadFailureExactly | src/unicc_api.c:77-90 | BACKEND_LOAD exactly when a fitting, selected name opens under neither spelling |
| Selection.SuccessExactly | src/backends/unicc_bind.c:167-175 | which path and which row a successful initialization ends with |
| Selection.SymbolNotFoundExactly | src/unicc_vtable.c:45-49 | SYMBOL_NOT_FOUND exactly when no probe is exported or the highest-priority probed family lacks a core symbol |
| Selection.PlatformRefusalExactly | src/unicc_loader.c:231-239 | BACKEND_NOT_SUPPORTED exactly when the loaded image exports some probe and the platform is not supported, whichever family it is |
| Selection.BindingMissingExactly | src/unicc_vtable.c:69-72 | BACKEND_INIT_FAILED exactly when the highest-priority probed family has no binding, on a supported platform |
| Selection.FamiliesNeverMix | src/backends/unicc_bind.c:134-137 | for any prefix-free table with short names, images that differ only in other families' symbols and are identified alike bind alike and offer the same operations |
| Selection.OpenedPathFits | src/unicc_api.c:67-71 | the reported path is never cut short |
| Families.BackendsWellFormed | src/unicc_loader.c:31-40 | the source's table has distinct types, ascending priorities, prefix-free short names, short library names, GetVersion probes and coherent id facts |
| Families.SymbolsAreUnique | src/backends/unicc_bind.c:132-219 | in any prefix-free table two short-named rows never build the same symbol, nor does one row for two entry points |
| Families.NoTruncation | src/backends/unicc_bind.c:132-137 | the 96-byte buffer never cuts a name |
| Loading.DetectBackend | src/unicc_loader.c:78-116 | the loop finds the first row named by the environment, or its other rules apply |
| Loading.Load | src/unicc_loader.c:118-196 | opens the requested name or its fallback, reports the one that opened, and holds one more open on success and none on failure |
| Loading.FindFallback | src/unicc_loader.c:145-152 | the fallback of the first row with that preferred name |
| Loading.IdentifyBackend | src/unicc_loader.c:202-229 | the descending walk returns the last probed row's type |
| Loading.Unload | src/unicc_loader.c:198-200 | one open of the image less |
| Loading.DiagnoseBackend | src/unicc_loader.c:241-283 | leaves every reference count as it was, in both outcomes |
| Binding.Binder.Bind | src/backends/unicc_bind.c:124-222 | the outcome by family and core symbols; success wires the whole table, every slot through its adapter to this handle's symbol of this family or empty, exactly when the slot of an absent CommUserRank was empty; failure leaves the table alone; no pointer of any third load is ever stored |
| Binding.Binder.ResolveCore | src/backends/unicc_bind.c:134-175 | the core check passes exactly when the family's four core symbols are exported |
| Binding.Binder.InstallCore | src/backends/unicc_bind.c:177-185 | the four core slots lead to the resolved symbols through the adapters of the row's signatures |
| Binding.Binder.InstallGroup | src/backends/unicc_bind.c:213-219 | the two group slots lead to their symbols or are empty |
| Binding.Binder.GetId | src/backends/unicc_bind.c:61-69 | nothing is written to the id unless the native call succeeds |
| Binding.Binder.InstallId | src/backends/unicc_bind.c:190-197 | an id adapter is installed exactly over a resolved symbol |
| Binding.Binder.InstallCommunicator | src/backends/unicc_bind.c:199-211 | the communicator slots; a family without CommUserRank leaves that slot untouched |
| Binding.Binder.CallGetUniqueId | src/backends/unicc_bind.c:61-79 | one native call with the row's id size; the caller's id is written only on success |
| Binding.Binder.CallCommInitRank | src/backends/unicc_bind.c:85-113 | the length guard, then one native call with the id's leading bytes and the converted nranks |
| Binding.Binder.CallBroadcast | src/backends/unicc_bind.c:117-120 | a double-buffered broadcast gets the one buffer twice |
| Binding.FamilyOf | src/backends/unicc_bind.c:50-57 | the first row of the type |
| VTable.Registry.Init | src/unicc_vtable.c:44-84 | type and handle are published only on success; a failure keeps them and zeroes the table, except that an unidentified library or an unsupported platform leaves the table as it was |
| VTable.Registry.BindFamily | src/unicc_vtable.c:56-73 | the switch binds the type it was given, or reports BACKEND_INIT_FAILED |
| VTable.Registry.Cleanup | src/unicc_vtable.c:88-92 | the table and the published identity are reset |
| Platform.Host.Dlopen | src/unicc_platform_posix.c:5-7 | one more open of the image a name denotes, or no change |
| Platform.Host.Dlclose | src/unicc_platform_posix.c:9-13 | one open less, only of an open handle |
| Platform.Host.Invoke | include/unicc_vtable.h:51-68 | a native call is logged with its answer, and only through a live pointer |
| Platform.ReleaseUndoesAcquire | src/unicc_loader.c:250-281 | an open and a close of one image cancel in every reference count |
| Platform.ClosedStaysClosed | src/unicc_platform_posix.c:5-13 | a load that has gone is not live after any sequence of opens and closes |
| Threads.DisciplineSuffices | docs/API.md:94-101 | with any number of threads inside backed calls and serialized lifecycle calls, finalize excluding them, no step calls a null, stale or foreign pointer and the raw cell holds 0 or a positive code of this session |
| Threads.NextKeepsInv | src/unicc_api.c:246-304 | every step of a thread or a lifecycle call keeps the invariant |
| Threads.CallGoesThrough | src/unicc_api.c:246-266 | in an open session with the slot filled every thread outside can make its call to the end, and a positive code and no other reaches the raw cell |
| Threads.CallIsTurnedAway | src/unicc_api.c:249-254 | a call stops at the state test of a closed process or at an empty slot |
| Threads.InitGoesThrough | src/unicc_api.c:92-104 | an init can publish any settled open memory, or leave a closed process as it was |
| Threads.FinalizeGoesThrough | src/unicc_api.c:107-120 | a finalize that finds every thread outside can do its writes one by one and end closed, cleared and quiet |
| Threads.FlagGoesLast | src/unicc_api.c:107-120 | the table is cleared before anything else changes, the state flag changes last, and all the writes together close the process |
| Threads.UnguardedFinalizeExactly | docs/API.md:96-98 | called at any quiet moment of a disciplined run, with calls going on and beginning at every point, a finalize that waits for nobody has a continuation into an unsafe state if and only if some thread is past the slot test or has a positive code to store, or there is a thread, inside or outside, and a filled slot |
| Threads.OpenSessionIsExposed | src/unicc_api.c:107-120 | in an open session with its core symbols, such a finalize has an unsafe continuation if and only if there is any thread |
| Threads.UnguardedMemsetExactly | src/unicc_vtable.c:88-92 | from the moment the table is cleared, there is an unsafe continuation if and only if some thread was then past the slot test or had a positive code to store; all others, and those that enter later, are turned away |
| Threads.InitSettles | src/unicc_api.c:99-104 | init leaves the settled memory the run assumes, publishing only from a closed one |
| Threads.FinalizeSettles | src/unicc_api.c:107-120 | finalize leaves a settled, closed memory: the one its writes lead to |
| Bootstrap.EveryRunAgrees | tests/integration/test_integration.c:57-109 | with a clean target or no readers, at every moment of every run the target is absent, empty or the complete id and a rank that leaves its loop holds the complete id; and then, or over a leftover file that no reader's family accepts, every native CommInitRank on any rank got exactly the bytes rank 0's GetUniqueId produced |
| Bootstrap.AtomicExactly | tests/integration/test_integration.c:69-85 | publication is atomic over every run if and only if the target starts absent or empty or there is one rank |
| Bootstrap.AgreementExactly | src/backends/unicc_bind.c:81-113 | every backend gets rank 0's bytes over every run if and only if no reader's session accepts an id of the length a reader takes from the leftover file, min of its size and 4112 |
| Bootstrap.OpenerHolds | tests/integration/test_integration.c:87-108 | a rank that opens the target once it holds the complete id never polls again, can always take its next read step, and when it has finished reading holds exactly that id |
| Bootstrap.CommittedProgresses | tests/integration/test_integration.c:93-103 | such a rank stays on its way whatever the others do, and each of its own steps brings it strictly closer to the end of its loop |
| Bootstrap.EveryoneCanHold | tests/integration/test_integration.c:57-109 | from every prepared cluster whose rank 0 is given an id there is a run that ends with every rank holding exactly the bytes unicc_get_unique_id handed out |
| Bootstrap.RenamePublishes | tests/integration/test_integration.c:81 | after the rename the target is the complete id and rank 0 holds it |
| Bootstrap.PollingExactly | tests/integration/test_integration.c:93-108 | at most 3000 tries; an absent or empty target is looked at again, anything else is taken up to 4112 bytes |
| Bootstrap.ObtainExactly | tests/integration/test_integration.c:58-64 | a refused id ends rank 0; alone it goes on at once, with others it publishes first |
| Bootstrap.JoinReports | tests/integration/test_integration.c:136-141 | joining reports the native code, -10 for a positive one, and -8 for an id of the wrong length |
| Bootstrap.SharedFamilyJoins | src/backends/unicc_bind.c:85-113 | a rank holding an id and sharing rank 0's coherent family always reaches its native CommInitRank |
| Bootstrap.StaleTargetIsRead | tests/run_integration.sh:24 | over a target that is not empty every reader has a run in which it takes the first 4112 of its bytes for the id |
| Bootstrap.StaleTargetIsJoined | tests/integration/test_integration.c:136-141 | and, if its family accepts their length, one in which its backend is given them |
| Bootstrap.StartHasInv | tests/run_integration.sh:24-36 | initialized processes establish the protocol's invariant over any target |
| Bootstrap.ObtainProduces | tests/integration/test_integration.c:58-63 | a successful reply carries exactly the bytes of the native answer, of the family's size |
| Bootstrap.NextKeepsInv | tests/integration/test_integration.c:69-108 | each write, close, rename, open, read, join or stop keeps the protocol's invariant |
| Bootstrap.JoinCallsHeld | tests/integration/test_integration.c:136-141 | joining makes one native call, with the held bytes, the world size and the rank's own number, exactly when the session accepts their length, and otherwise none |
| Bootstrap.JoinCallsOrigin | tests/integration/test_integration.c:136-141 | unless a family accepts leftover bytes, joining passes the origin's bytes; and a rank holding those and sharing rank 0's coherent family does pass them |
| Binary32.ReductionIsExact | tests/integration/test_integration.c:152-168 | up to 5792 ranks every correctly rounded reduction, along any tree over all the ranks, is world(world+1)/2 |
| Binary32.ExpectedIsExact | tests/integration/test_integration.c:169 | up to 5792 ranks the rounded expression is the exact rank sum and nothing else |
| Binary32.SmallSumsAreExact | tests/integration/test_integration.c:152-160 | no addition in a tree rounds while the total is at most 2^24 |
| Tightness.BoundIsTight | tests/integration/test_integration.c:169-177 | every correctly rounded reduction equals every correctly rounded expected value if and only if there are at most 5792 ranks |
| Tightness.AlwaysAMismatch | tests/integration/test_integration.c:152-177 | for every world above 5792 and whatever value is expected, some tree over all the ranks, correctly rounded throughout, ends in another value |
| Binary32.CheckSums | tests/integration/test_integration.c:170-178 | the loop accepts exactly the expected elements, hence, up to 5792 ranks, every element correctly reduced along some tree |
| Devmem.DeviceMemory.LoadRuntime | tests/integration/devmem.c:13-47 | succeeds exactly when some candidate opens with all six symbols, takes the first such one with all six pointers from its open handle, and leaves one more open on success and none on failure |
| Devmem.DeviceMemory.Load | tests/integration/devmem.c:49-61 | over the three CUDA and four HIP names in their order: CUDA when any of its candidates is usable, else HIP, with the same accounting across both |
| Devmem.DeviceMemory.Resolve | tests/integration/devmem.c:22-36 | the six lookups overwrite what an earlier candidate left, and succeed exactly when all six are exported |
| Devmem.CompleteExactly | tests/integration/devmem.c:22-36 | the six functions by name: prefix + Malloc, Memcpy, Memset, Free, SetDevice and GetDeviceCount |
| Devmem.DeviceMemory.PointersExactly | tests/integration/devmem.c:22-36 | each pointer is the function of its own name |

## Left out

- The bodies of dlopen, dlsym and dlclose and the Windows platform file: they are an abstract reference-counted environment, as in the dlopen and dlclose pages of POSIX.1-2017.
- The macOS `.dylib` retry (`src/unicc_loader.c:161-179`): its buffer is block-scoped but read after the block, so the path claims are for Linux.
- What vendor collectives compute: native functions are arbitrary and only logged.
- Text output: stderr, error strings, load advice, the printed backend table and the symbol listing of diagnose, and the wrapper version string.
- Device memory calls and device binding between publishing and joining: a rank may stop at any point instead.
- fopen, fwrite, fclose and rename failures, PATH_MAX truncation and sleep times in the publish step: they are the rank stopping, or are assumed not to happen.
- A temporary name that is a hard link to the target: the protocol starts with two different files.
- Memory ordering between threads: `Threads` interleaves whole reads and writes.
- Threads.UnguardedMemsetExactly: follows one finalize and every thread, but no later init that starts while a thread it overtook is still inside its call.
- Progress of rank 0 and the time limit of the polling loop: `Bootstrap` bounds the tries, not how they are scheduled.
- The fake backends, examples and build files: test doubles and packaging.
