/** The dynamic linker and the native backend, as the rest of the library sees them. */
module Platform {
  import opened Common

  /** A library file: which symbols it exports. Distinct ids are distinct files. */
  datatype Image = Image(id: nat, exports: set<string>)

  /** What dlopen returns: an image together with the load it belongs to. */
  datatype Handle = Handle(image: Image, generation: nat)

  /** A native function pointer, remembering the load that produced it. */
  datatype Pointer = Null | Fn(handle: Handle, symbol: string)

  /** An image mapped into the process, and how many dlopen calls keep it there. */
  datatype Mapping = Mapping(generation: nat, opens: nat)

  type LinkMap = map<Image, Mapping>

  /** What one call finds outside the process: the two environment variables, the names
      dlopen can open with the image each one denotes, and whether the platform is one the
      library was compiled to support. */
  datatype World = World(
    library: Option<string>,
    backend: Option<string>,
    files: map<string, Image>,
    supported: bool)

  /** The id structures the native functions know are at most this long. */
  type IdSize = n: nat | n <= ONECCL_UNIQUE_ID_BYTES

  type IdBlock = bytes: seq<Byte> | |bytes| == ONECCL_UNIQUE_ID_BYTES
    witness seq(ONECCL_UNIQUE_ID_BYTES, i => 0)

  /** How the nranks argument is passed to the native CommInitRank. */
  datatype RankAbi = IntRanks | SizeRanks

  /** The arguments of one native call, one constructor for each native signature. */
  datatype Args =
    | GetVersionArgs
    | AllReduceArgs(send: Address, recv: Address, count: SizeT, dt: int, op: int, comm: Address, stream: Address)
    | InPlaceBroadcastArgs(buf: Address, count: SizeT, dt: int, root: CInt, comm: Address, stream: Address)
    | PairBroadcastArgs(send: Address, recv: Address, count: SizeT, dt: int, root: CInt, comm: Address, stream: Address)
    | InitRankArgs(abi: RankAbi, nranks: int, uid: seq<Byte>, rank: CInt)
    | GetIdArgs(bytes: IdSize)
    | DestroyArgs(comm: Address)
    | CountArgs(comm: Address)
    | UserRankArgs(comm: Address)
    | GroupStartArgs
    | GroupEndArgs

  datatype NativeCall = NativeCall(image: Image, symbol: string, args: Args)

  /** A native result: the return code, what was stored through an int or communicator
      out-parameter (if anything), and what the id structure holds after GetUniqueId, of which an
      n-byte structure is the first n bytes. Bytes the function left alone are as arbitrary there as
      those it wrote. */
  datatype Answer = Answer(code: CInt, stored: Option<int>, id: IdBlock)

  datatype Entry = Entry(call: NativeCall, answer: Answer)

  /** An arbitrary backend: its answer may depend on everything called before. */
  type Behaviour = (seq<Entry>, NativeCall) -> Answer

  function Lookup(h: Handle, symbol: string): Pointer {
    if symbol in h.image.exports then Fn(h, symbol) else Null
  }

  /** dlopen on the link map: one more open of a mapped image, or a new load. */
  function Acquire(m: LinkMap, image: Image, stamp: nat): LinkMap {
    if image in m then m[image := m[image].(opens := m[image].opens + 1)]
    else m[image := Mapping(stamp, 1)]
  }

  /** dlclose on the link map: the image goes with its last open. */
  function Release(m: LinkMap, image: Image): LinkMap
    requires image in m && m[image].opens >= 1
  {
    if m[image].opens > 1 then m[image := m[image].(opens := m[image].opens - 1)]
    else m - {image}
  }

  predicate IsOpenIn(m: LinkMap, h: Handle) {
    h.image in m && m[h.image].generation == h.generation
  }

  predicate ValidMap(m: LinkMap, next: nat) {
    forall image :: image in m ==> m[image].opens >= 1 && m[image].generation < next
  }

  /** Opening and closing the same image restores every reference count. */
  lemma ReleaseUndoesAcquire(m: LinkMap, image: Image, stamp: nat)
    requires forall i :: i in m ==> m[i].opens >= 1
    ensures Release(Acquire(m, image, stamp), image) == m
  {
  }

  // ---- any sequence of opens and closes, by this library or by the rest of the process ----

  datatype LinkStep = Opening(image: Image) | Closing(image: Image)

  /** The link map and the next free generation. Closing what is not open changes nothing. */
  datatype Linker = Linker(loaded: LinkMap, next: nat)

  function Link(k: Linker, step: LinkStep): Linker {
    match step
    case Opening(image) =>
      Linker(Acquire(k.loaded, image, k.next), if image in k.loaded then k.next else k.next + 1)
    case Closing(image) =>
      if image in k.loaded && k.loaded[image].opens >= 1 then k.(loaded := Release(k.loaded, image)) else k
  }

  function LinkRun(k: Linker, steps: seq<LinkStep>): Linker
    decreases |steps|
  {
    if steps == [] then k else Link(LinkRun(k, steps[..|steps| - 1]), steps[|steps| - 1])
  }

  /** Some sequence of opens and closes leads from one to the other. */
  ghost predicate Reaches(k: Linker, k': Linker) {
    exists steps :: LinkRun(k, steps) == k'
  }

  lemma {:induction false} LinkRunComposes(k: Linker, a: seq<LinkStep>, b: seq<LinkStep>)
    ensures LinkRun(LinkRun(k, a), b) == LinkRun(k, a + b)
    decreases |b|
  {
    if b == [] {
      assert a + b == a;
    } else {
      LinkRunComposes(k, a, b[..|b| - 1]);
      assert (a + b)[..|a + b| - 1] == a + b[..|b| - 1];
    }
  }

  lemma ReachesComposes(a: Linker, b: Linker, c: Linker)
    requires Reaches(a, b) && Reaches(b, c)
    ensures Reaches(a, c)
  {
    var there :| LinkRun(a, there) == b;
    var onward :| LinkRun(b, onward) == c;
    LinkRunComposes(a, there, onward);
  }

  lemma ReachesItself(k: Linker)
    ensures Reaches(k, k)
  {
    assert LinkRun(k, []) == k;
  }

  lemma ReachesByStep(k: Linker, step: LinkStep)
    ensures Reaches(k, Link(k, step))
  {
    assert LinkRun(k, []) == k;
    assert [step][..0] == [];
    assert LinkRun(k, [step]) == Link(k, step);
  }

  /** A handle that was closed for good is not revived by anything that is opened or closed later. */
  lemma {:induction false} ClosedStaysClosed(k: Linker, steps: seq<LinkStep>, h: Handle)
    requires ValidMap(k.loaded, k.next) && h.generation < k.next && !IsOpenIn(k.loaded, h)
    ensures var later := LinkRun(k, steps);
            ValidMap(later.loaded, later.next) && k.next <= later.next && !IsOpenIn(later.loaded, h)
    decreases |steps|
  {
    if steps == [] {
    } else {
      ClosedStaysClosed(k, steps[..|steps| - 1], h);
    }
  }

  class Host {
    const behave: Behaviour
    var loaded: LinkMap
    var next: nat
    var log: seq<Entry>

    constructor (behave: Behaviour)
      ensures Valid() && loaded == map[] && log == [] && this.behave == behave
    {
      this.behave := behave;
      loaded, next, log := map[], 0, [];
    }

    predicate Valid()
      reads this
    {
      ValidMap(loaded, next)
    }

    function Now(): Linker
      reads this
    {
      Linker(loaded, next)
    }

    predicate IsOpen(h: Handle)
      reads this
    {
      IsOpenIn(loaded, h)
    }

    /** The pointer is neither null nor left over from a load that has gone. */
    predicate Callable(p: Pointer)
      reads this
    {
      p.Fn? && IsOpen(p.handle) && p.symbol in p.handle.image.exports
    }

    method Dlopen(world: World, name: string) returns (h: Option<Handle>)
      requires Valid()
      modifies this`loaded, this`next
      ensures Valid() && next >= old(next)
      ensures h.Some? <==> name in world.files
      ensures h.None? ==> loaded == old(loaded) && next == old(next)
      ensures h.Some? ==> h.value.image == world.files[name] && IsOpen(h.value)
      ensures h.Some? ==> loaded == Acquire(old(loaded), h.value.image, old(next))
      ensures h.Some? ==>
                var image := h.value.image;
                && loaded == old(loaded)[image := loaded[image]]
                && loaded[image].opens == (if image in old(loaded) then old(loaded)[image].opens + 1 else 1)
      ensures Reaches(old(Now()), Now())
    {
      ReachesItself(Now());
      if name !in world.files {
        return None;
      }
      var image := world.files[name];
      ReachesByStep(Now(), Opening(image));
      if image in loaded {
        loaded := loaded[image := loaded[image].(opens := loaded[image].opens + 1)];
      } else {
        loaded := loaded[image := Mapping(next, 1)];
        next := next + 1;
      }
      h := Some(Handle(image, loaded[image].generation));
    }

    /** Closing demands an open handle, so nothing is ever closed below its opens. */
    method Dlclose(h: Handle)
      requires Valid() && IsOpen(h)
      modifies this`loaded
      ensures Valid()
      ensures loaded == Release(old(loaded), h.image)
      ensures h.image in loaded <==> old(loaded)[h.image].opens > 1
      ensures h.image in loaded ==> loaded[h.image].opens == old(loaded)[h.image].opens - 1
      ensures Reaches(old(Now()), Now())
    {
      ReachesByStep(Now(), Closing(h.image));
      if loaded[h.image].opens > 1 {
        loaded := loaded[h.image := loaded[h.image].(opens := loaded[h.image].opens - 1)];
      } else {
        loaded := loaded - {h.image};
      }
    }

    function Dlsym(h: Handle, symbol: string): Pointer
      reads this
      requires IsOpen(h)
    {
      Lookup(h, symbol)
    }

    /** Calling through a pointer demands that it is live: no null and no stale call. */
    method Invoke(p: Pointer, args: Args) returns (a: Answer)
      requires Callable(p)
      modifies this`log
      ensures a == behave(old(log), NativeCall(p.handle.image, p.symbol, args))
      ensures log == old(log) + [Entry(NativeCall(p.handle.image, p.symbol, args), a)]
    {
      var call := NativeCall(p.handle.image, p.symbol, args);
      a := behave(log, call);
      log := log + [Entry(call, a)];
    }
  }
}
