/** Which library and which family an initialization picks, stated without the loops that find them. */
module Selection {
  import opened Common
  import opened Platform
  import opened Families

  function First(rows: seq<Descriptor>, p: Descriptor -> bool): (r: Option<Descriptor>)
    ensures r.Some? ==> r.value in rows && p(r.value)
    ensures r.None? ==> forall i :: 0 <= i < |rows| ==> !p(rows[i])
  {
    if rows == [] then None else if p(rows[0]) then Some(rows[0]) else First(rows[1..], p)
  }

  function Last(rows: seq<Descriptor>, p: Descriptor -> bool): (r: Option<Descriptor>)
    ensures r.Some? ==> r.value in rows && p(r.value)
    ensures r.None? ==> forall i :: 0 <= i < |rows| ==> !p(rows[i])
    decreases |rows|
  {
    if rows == [] then None
    else if p(rows[|rows| - 1]) then Some(rows[|rows| - 1])
    else Last(rows[..|rows| - 1], p)
  }

  lemma {:induction false} FirstAt(rows: seq<Descriptor>, p: Descriptor -> bool, i: nat)
    requires i < |rows| && p(rows[i]) && forall j :: 0 <= j < i ==> !p(rows[j])
    ensures First(rows, p) == Some(rows[i])
  {
    if i == 0 {
    } else {
      assert forall j :: 0 <= j < i - 1 ==> rows[1..][j] == rows[j + 1];
      FirstAt(rows[1..], p, i - 1);
    }
  }

  lemma {:induction false} FirstIndex(rows: seq<Descriptor>, p: Descriptor -> bool) returns (i: nat)
    requires First(rows, p).Some?
    ensures i < |rows| && rows[i] == First(rows, p).value && p(rows[i])
    ensures forall j :: 0 <= j < i ==> !p(rows[j])
    decreases |rows|
  {
    if p(rows[0]) {
      i := 0;
    } else {
      var k := FirstIndex(rows[1..], p);
      i := k + 1;
      assert forall j :: 1 <= j < i ==> rows[j] == rows[1..][j - 1];
    }
  }

  lemma {:induction false} LastAt(rows: seq<Descriptor>, p: Descriptor -> bool, i: nat)
    requires i < |rows| && p(rows[i]) && forall j :: i < j < |rows| ==> !p(rows[j])
    ensures Last(rows, p) == Some(rows[i])
    decreases |rows|
  {
    if i == |rows| - 1 {
    } else {
      LastAt(rows[..|rows| - 1], p, i);
    }
  }

  lemma {:induction false} LastIndex(rows: seq<Descriptor>, p: Descriptor -> bool) returns (i: nat)
    requires Last(rows, p).Some?
    ensures i < |rows| && rows[i] == Last(rows, p).value && p(rows[i])
    ensures forall j :: i < j < |rows| ==> !p(rows[j])
    decreases |rows|
  {
    if p(rows[|rows| - 1]) {
      i := |rows| - 1;
    } else {
      i := LastIndex(rows[..|rows| - 1], p);
    }
  }

  function Named(name: string): Descriptor -> bool { (d: Descriptor) => d.name == name }
  function WithLib(lib: string): Descriptor -> bool { (d: Descriptor) => d.lib == lib }
  function OfKind(kind: BackendType): Descriptor -> bool { (d: Descriptor) => d.kind == kind }
  function Probed(image: Image): Descriptor -> bool { (d: Descriptor) => d.probe in image.exports }

  /** An environment variable counts only when it is set to something. */
  function NonEmpty(value: Option<string>): Option<string> {
    if value.Some? && value.value != "" then value else None
  }

  predicate Selected(w: World) {
    NonEmpty(w.library).Some? || NonEmpty(w.backend).Some?
  }

  /** The name the environment asks for. */
  function Requested(table: seq<Descriptor>, w: World): string
    requires |table| > 0
  {
    match NonEmpty(w.library)
    case Some(path) => path
    case None =>
      match NonEmpty(w.backend)
      case None => table[0].lib
      case Some(name) =>
        match First(table, Named(name))
        case Some(row) => row.lib
        case None => name
  }

  lemma SelectedExactly(w: World)
    ensures Selected(w) <==> w.library !in {None, Some("")} || w.backend !in {None, Some("")}
  {
  }

  /** The choice from the raw variables: an exact path comes first, then a backend by the library of its
      first row, or as a path itself if no row has that name, and then the first row's library. */
  lemma RequestedExactly(table: seq<Descriptor>, w: World)
    requires |table| > 0
    ensures w.library !in {None, Some("")} ==> Requested(table, w) == w.library.value
    ensures w.library in {None, Some("")} && w.backend !in {None, Some("")} ==>
              && (forall i :: 0 <= i < |table| && table[i].name == w.backend.value
                              && (forall j :: 0 <= j < i ==> table[j].name != w.backend.value)
                              ==> Requested(table, w) == table[i].lib)
              && ((forall i :: 0 <= i < |table| ==> table[i].name != w.backend.value) ==>
                    Requested(table, w) == w.backend.value)
    ensures w.library in {None, Some("")} && w.backend in {None, Some("")} ==> Requested(table, w) == table[0].lib
  {
    if w.library in {None, Some("")} && w.backend !in {None, Some("")} {
      forall i | 0 <= i < |table| && table[i].name == w.backend.value
                 && (forall j :: 0 <= j < i ==> table[j].name != w.backend.value)
        ensures Requested(table, w) == table[i].lib
      {
        FirstAt(table, Named(w.backend.value), i);
      }
      if First(table, Named(w.backend.value)).Some? {
        var i := FirstIndex(table, Named(w.backend.value));
        assert table[i].name == w.backend.value;
      }
    }
  }

  /** The other spelling of a preferred library name. */
  function Fallback(table: seq<Descriptor>, name: string): Option<string> {
    match First(table, WithLib(name))
    case Some(row) => row.alt
    case None => None
  }

  /** The spelling that opens, if either does. */
  function Opened(table: seq<Descriptor>, w: World, name: string): (r: Option<string>)
    ensures r.Some? ==> r.value in w.files
  {
    if name in w.files then Some(name)
    else
      match Fallback(table, name)
      case Some(alt) => if alt in w.files then Some(alt) else None
      case None => None
  }

  /** The requested spelling whenever it opens; otherwise the other spelling of the first row with that
      library, if it has one and that one opens. */
  lemma OpenedExactly(table: seq<Descriptor>, w: World, name: string)
    ensures name in w.files ==> Opened(table, w, name) == Some(name)
    ensures name !in w.files ==>
              forall i :: && 0 <= i < |table| && table[i].lib == name
                          && (forall j :: 0 <= j < i ==> table[j].lib != name) ==>
                var alt := table[i].alt;
                Opened(table, w, name) == if alt.Some? && alt.value in w.files then alt else None
    ensures name !in w.files && (forall i :: 0 <= i < |table| ==> table[i].lib != name) ==>
              Opened(table, w, name) == None
  {
    forall i | 0 <= i < |table| && table[i].lib == name && (forall j :: 0 <= j < i ==> table[j].lib != name)
      ensures First(table, WithLib(name)) == Some(table[i])
    {
      FirstAt(table, WithLib(name), i);
    }
    if First(table, WithLib(name)).Some? {
      var i := FirstIndex(table, WithLib(name));
      assert table[i].lib == name;
    }
  }

  function Identified(table: seq<Descriptor>, image: Image): Option<Descriptor> {
    Last(table, Probed(image))
  }

  /** The families that have a binding file. */
  predicate HasBinding(kind: BackendType) {
    kind.Nccl? || kind.Rccl? || kind.Oneccl? || kind.Eccl?
  }

  /** What binding an opened image leads to. */
  datatype BindResult = Rejected(code: CInt) | Bound(row: Descriptor)

  function Bind(table: seq<Descriptor>, w: World, image: Image): BindResult {
    match Identified(table, image)
    case None => Rejected(ERR_SYMBOL_NOT_FOUND)
    case Some(row) =>
      if !w.supported then Rejected(ERR_BACKEND_NOT_SUPPORTED)
      else if !HasBinding(row.kind) then Rejected(ERR_BACKEND_INIT_FAILED)
      else if !CoreExported(row, image) then Rejected(ERR_SYMBOL_NOT_FOUND)
      else Bound(row)
  }

  datatype Outcome = Refused(code: CInt) | Started(path: string, image: Image, row: Descriptor)

  function InitOutcome(table: seq<Descriptor>, w: World): Outcome
    requires |table| > 0
  {
    var name := Requested(table, w);
    if |name| >= LIB_PATH_CAPACITY then Refused(ERR_INVALID_ARGUMENT)
    else
      match Opened(table, w, name)
      case None => Refused(if Selected(w) then ERR_BACKEND_LOAD else ERR_NO_BACKEND)
      case Some(path) =>
        match Bind(table, w, w.files[path])
        case Rejected(code) => Refused(code)
        case Bound(row) => Started(path, w.files[path], row)
  }

  predicate NoProbe(table: seq<Descriptor>, image: Image) {
    forall d :: d in table ==> d.probe !in image.exports
  }

  /** The row's probe is exported and it outranks every other row whose probe is. */
  predicate TopProbed(table: seq<Descriptor>, image: Image, row: Descriptor) {
    && row in table && row.probe in image.exports
    && forall d :: d in table && d != row && d.probe in image.exports ==> d.priority < row.priority
  }

  /** The identified row is also what a lookup by its type finds. */
  lemma IdentifiedRow(table: seq<Descriptor>, image: Image)
    requires DistinctKinds(table)
    ensures var row := Identified(table, image);
            row.Some? ==> row.value.kind != Unknown && First(table, OfKind(row.value.kind)) == row
  {
  }

  /** Identification is argmax: the row found is probed and outranks every other probed row, and
      whatever row does so is the one found. */
  lemma IdentificationIsArgmax(table: seq<Descriptor>, image: Image, row: Descriptor)
    requires Ascending(table)
    ensures Identified(table, image) == Some(row) <==> TopProbed(table, image, row)
  {
    if Identified(table, image) == Some(row) {
      var i := LastIndex(table, Probed(image));
      forall d | d in table && d != row && d.probe in image.exports ensures d.priority < row.priority {
        var j :| 0 <= j < |table| && table[j] == d;
        assert Probed(image)(table[j]);
      }
    } else if row in table && row.probe in image.exports {
      var k :| 0 <= k < |table| && table[k] == row;
      assert Probed(image)(table[k]);
      var i := LastIndex(table, Probed(image));
      assert i > k;
      assert table[i] in table && table[i] != row;
    }
  }

  /** Nothing is identified exactly when no probe is exported. */
  lemma UnidentifiedMeansNoProbe(table: seq<Descriptor>, image: Image)
    ensures Identified(table, image).None? <==> NoProbe(table, image)
  {
  }

  /** The generic first row is chosen only as the last resort. */
  lemma GenericRowIsLastResort(table: seq<Descriptor>, image: Image)
    requires |table| > 0 && Ascending(table)
    ensures Identified(table, image) == Some(table[0])
       <==> forall i :: 0 <= i < |table| ==> (table[i].probe in image.exports <==> i == 0)
  {
    IdentificationIsArgmax(table, image, table[0]);
    forall i | 0 <= i < |table| ensures i == 0 || table[0].priority < table[i].priority {
    }
    if Identified(table, image) == Some(table[0]) {
      forall i | 0 < i < |table| ensures table[i].probe !in image.exports {
        assert table[i] in table && table[i] != table[0];
      }
    }
  }

  /** Two spellings of nothing: the request opens neither as given nor as its row's fallback. */
  predicate NeitherOpens(table: seq<Descriptor>, w: World, name: string) {
    && name !in w.files
    && forall i :: 0 <= i < |table| && table[i].lib == name && (forall j :: 0 <= j < i ==> table[j].lib != name)
         ==> table[i].alt.None? || table[i].alt.value !in w.files
  }

  lemma NeitherOpensIsExact(table: seq<Descriptor>, w: World, name: string)
    ensures Opened(table, w, name).None? <==> NeitherOpens(table, w, name)
  {
    var p := WithLib(name);
    if First(table, p).Some? {
      var i := FirstIndex(table, p);
      FirstAt(table, p, i);
      assert table[i].lib == name && forall j :: 0 <= j < i ==> table[j].lib != name;
    } else {
      assert forall i :: 0 <= i < |table| ==> !p(table[i]);
    }
  }

  /** The path an initialization reports is short enough to be stored whole. */
  lemma OpenedPathFits(table: seq<Descriptor>, w: World, name: string)
    requires |name| < LIB_PATH_CAPACITY
    requires forall i :: 0 <= i < |table| ==> ShortLibraries(table[i])
    ensures Opened(table, w, name).Some? ==> |Opened(table, w, name).value| < LIB_PATH_CAPACITY
  {
  }

  /** NO_BACKEND: nothing selected, and the default opens under neither spelling. */
  lemma NoBackendExactly(table: seq<Descriptor>, w: World)
    requires |table| > 0 && ShortLibraries(table[0])
    ensures InitOutcome(table, w) == Refused(ERR_NO_BACKEND)
       <==> && w.library in {None, Some("")} && w.backend in {None, Some("")}
            && NeitherOpens(table, w, table[0].lib)
  {
    SelectedExactly(w);
  }

  /** BACKEND_LOAD: something was selected, its name fits, and it opens under neither spelling. */
  lemma LoadFailureExactly(table: seq<Descriptor>, w: World)
    requires |table| > 0
    ensures InitOutcome(table, w) == Refused(ERR_BACKEND_LOAD)
       <==> && !(w.library in {None, Some("")} && w.backend in {None, Some("")})
            && |Requested(table, w)| < LIB_PATH_CAPACITY
            && NeitherOpens(table, w, Requested(table, w))
  {
    SelectedExactly(w);
    NeitherOpensIsExact(table, w, Requested(table, w));
  }

  /** The name fits and one of its spellings opens. */
  predicate Loads(table: seq<Descriptor>, w: World)
    requires |table| > 0
  {
    |Requested(table, w)| < LIB_PATH_CAPACITY && Opened(table, w, Requested(table, w)).Some?
  }

  function LoadedImage(table: seq<Descriptor>, w: World): Image
    requires |table| > 0 && Loads(table, w)
  {
    w.files[Opened(table, w, Requested(table, w)).value]
  }

  /** Success: the opened image's highest-priority family has a binding, this platform is
      supported, and the image exports that family's four core symbols. */
  lemma SuccessExactly(table: seq<Descriptor>, w: World, path: string, row: Descriptor)
    requires |table| > 0 && Ascending(table) && path in w.files
    ensures InitOutcome(table, w) == Started(path, w.files[path], row)
       <==> && Loads(table, w) && Opened(table, w, Requested(table, w)) == Some(path)
            && TopProbed(table, w.files[path], row)
            && w.supported && HasBinding(row.kind)
            && forall op :: Core(op) ==> Supports(row, w.files[path], op)
  {
    hide SymbolName, TopProbed;
    IdentificationIsArgmax(table, w.files[path], row);
    CoreIsSupported(row, w.files[path]);
  }

  lemma CoreIsSupported(row: Descriptor, image: Image)
    ensures CoreExported(row, image) <==> forall op :: Core(op) ==> Supports(row, image, op)
  {
    hide SymbolName;
    assert Core(GetVersion) && Core(CommInitRank) && Core(AllReduce) && Core(Broadcast);
  }

  /** BACKEND_NOT_SUPPORTED: the opened image is of some known family, but this platform is not
      one the library was compiled to support. */
  lemma PlatformRefusalExactly(table: seq<Descriptor>, w: World)
    requires |table| > 0
    ensures InitOutcome(table, w) == Refused(ERR_BACKEND_NOT_SUPPORTED)
       <==> Loads(table, w) && !NoProbe(table, LoadedImage(table, w)) && !w.supported
  {
  }

  /** BACKEND_INIT_FAILED: the highest-priority probed family has no binding file. */
  lemma BindingMissingExactly(table: seq<Descriptor>, w: World)
    requires |table| > 0 && Ascending(table)
    ensures InitOutcome(table, w) == Refused(ERR_BACKEND_INIT_FAILED)
       <==> && Loads(table, w) && w.supported
            && exists d :: TopProbed(table, LoadedImage(table, w), d) && !HasBinding(d.kind)
  {
    hide SymbolName, TopProbed;
    if Loads(table, w) {
      IdentifiedIsTop(table, LoadedImage(table, w));
    }
  }

  lemma IdentifiedIsTop(table: seq<Descriptor>, image: Image)
    requires Ascending(table)
    ensures forall d :: TopProbed(table, image, d) <==> Identified(table, image) == Some(d)
  {
    hide TopProbed, Identified;
    forall d ensures TopProbed(table, image, d) <==> Identified(table, image) == Some(d) {
      IdentificationIsArgmax(table, image, d);
    }
  }

  /** SYMBOL_NOT_FOUND: the opened image exports no probe at all, or lacks a core symbol of
      the family it is identified as. */
  lemma SymbolNotFoundExactly(table: seq<Descriptor>, w: World)
    requires |table| > 0 && Ascending(table)
    ensures InitOutcome(table, w) == Refused(ERR_SYMBOL_NOT_FOUND)
       <==> && Loads(table, w)
            && var image := LoadedImage(table, w);
               || NoProbe(table, image)
               || (&& w.supported
                   && exists d :: TopProbed(table, image, d) && HasBinding(d.kind) && !CoreExported(d, image))
  {
    hide SymbolName, TopProbed;
    if Loads(table, w) {
      IdentifiedIsTop(table, LoadedImage(table, w));
    }
  }

  /** The symbol is some other row's spelling of an entry point. */
  ghost predicate OtherFamilySymbol(table: seq<Descriptor>, i: nat, s: string) {
    exists j, q :: 0 <= j < |table| && j != i && s == SymbolName(table[j], q)
  }

  /** Families never mix: images that differ only in other families' symbols, and are identified
      alike, bind alike and offer the same operations. */
  lemma FamiliesNeverMix(table: seq<Descriptor>, w: World, a: Image, b: Image, i: nat)
    requires PrefixFree(table) && i < |table|
    requires forall j :: 0 <= j < |table| ==> ShortName(table[j])
    requires Identified(table, a) == Identified(table, b) == Some(table[i])
    requires forall s :: s in a.exports - b.exports || s in b.exports - a.exports ==> OtherFamilySymbol(table, i, s)
    ensures Bind(table, w, a) == Bind(table, w, b)
    ensures forall op :: Supports(table[i], a, op) <==> Supports(table[i], b, op)
  {
    forall op ensures SymbolName(table[i], op) in a.exports <==> SymbolName(table[i], op) in b.exports {
      var s := SymbolName(table[i], op);
      if OtherFamilySymbol(table, i, s) {
        var j, q :| 0 <= j < |table| && j != i && s == SymbolName(table[j], q);
        SymbolsAreUnique(table, i, op, j, q);
        assert false;
      }
    }
  }
}
