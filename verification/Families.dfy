/** The backend family table: every per-family fact, and the symbol names built from it. */
module Families {
  import opened Common
  import opened Platform

  /** Backend types; Future stands for the enumerators a later table row would add. */
  datatype BackendType = Unknown | Nccl | Rccl | Oneccl | Eccl | Future(code: nat)

  datatype UidKind = NcclUid | OnecclUid

  datatype Descriptor = Descriptor(
    kind: BackendType,
    name: string,
    lib: string,
    alt: Option<string>,
    probe: string,
    priority: int,
    uidBytes: nat,
    uidKind: UidKind,
    ranksAreSizeT: bool,
    doubleBuffered: bool,
    hasUserRank: bool)

  const BACKENDS: seq<Descriptor> := [
    Descriptor(Nccl, "nccl", "libnccl.so", Some("libnccl.so.2"), "ncclGetVersion", 2,
               128, NcclUid, false, false, true),
    Descriptor(Rccl, "rccl", "librccl.so", Some("librccl.so.1"), "rcclGetVersion", 3,
               128, NcclUid, false, false, true),
    Descriptor(Oneccl, "oneccl", "libccl.so.2", Some("libccl.so"), "onecclGetVersion", 4,
               ONECCL_UNIQUE_ID_BYTES, OnecclUid, true, true, true),
    Descriptor(Eccl, "eccl", "libeccl.so", None, "ecclGetVersion", 5,
               128, NcclUid, true, true, false)
  ]

  /** The native entry points, one for each dispatch-table slot. */
  datatype Operation =
    | GetVersion | CommInitRank | AllReduce | Broadcast
    | GetUniqueId | CommDestroy | CommCount | CommUserRank | GroupStart | GroupEnd

  function Suffix(op: Operation): string {
    match op
    case GetVersion => "GetVersion"
    case CommInitRank => "CommInitRank"
    case AllReduce => "AllReduce"
    case Broadcast => "Broadcast"
    case GetUniqueId => "GetUniqueId"
    case CommDestroy => "CommDestroy"
    case CommCount => "CommCount"
    case CommUserRank => "CommUserRank"
    case GroupStart => "GroupStart"
    case GroupEnd => "GroupEnd"
  }

  predicate Core(op: Operation) {
    op in {GetVersion, CommInitRank, AllReduce, Broadcast}
  }

  /** The family's spelling of an entry point, as formatted into the 96-byte buffer. */
  function SymbolName(row: Descriptor, op: Operation): string {
    Formatted(row.name + Suffix(op), SYMBOL_CAPACITY)
  }

  /** The image offers the operation to this family. */
  predicate Supports(row: Descriptor, image: Image, op: Operation) {
    (op == CommUserRank ==> row.hasUserRank) && SymbolName(row, op) in image.exports
  }

  predicate CoreExported(row: Descriptor, image: Image) {
    && SymbolName(row, GetVersion) in image.exports
    && SymbolName(row, CommInitRank) in image.exports
    && SymbolName(row, AllReduce) in image.exports
    && SymbolName(row, Broadcast) in image.exports
  }

  /** Size of the id that GetUniqueId fills for this row. */
  function ProducedIdBytes(row: Descriptor): IdSize {
    if row.uidKind.OnecclUid? then ONECCL_UNIQUE_ID_BYTES else UNIQUE_ID_BYTES
  }

  /** Size of the id that CommInitRank takes for this row: the int ABI knows only 128 bytes. */
  function ConsumedIdBytes(row: Descriptor): IdSize {
    if row.ranksAreSizeT && row.uidKind.OnecclUid? then ONECCL_UNIQUE_ID_BYTES else UNIQUE_ID_BYTES
  }

  /** The three id facts of a row agree with one another. */
  predicate Coherent(row: Descriptor) {
    (row.uidKind.OnecclUid? ==> row.ranksAreSizeT) && row.uidBytes == ProducedIdBytes(row)
  }

  /** A type identifies its row. */
  predicate DistinctKinds(table: seq<Descriptor>) {
    && (forall i :: 0 <= i < |table| ==> table[i].kind != Unknown)
    && (forall i, j :: 0 <= i < j < |table| ==> table[i].kind != table[j].kind)
  }

  predicate Ascending(table: seq<Descriptor>) {
    forall i, j :: 0 <= i < j < |table| ==> table[i].priority < table[j].priority
  }

  predicate PrefixFree(table: seq<Descriptor>) {
    forall i, j :: 0 <= i < |table| && 0 <= j < |table| && i != j ==> !(table[i].name <= table[j].name)
  }

  /** The longest symbol of the family fits into the formatting buffer. */
  predicate ShortName(row: Descriptor) {
    |row.name| + |Suffix(CommInitRank)| < SYMBOL_CAPACITY
  }

  predicate ShortLibraries(row: Descriptor) {
    |row.lib| < LIB_PATH_CAPACITY && (row.alt.Some? ==> |row.alt.value| < LIB_PATH_CAPACITY)
  }

  /** All that loading and binding need of a table: probes may be any symbols, families may share a
      prefix, and priorities may come in any order. */
  predicate WellFormed(table: seq<Descriptor>) {
    && |table| > 0 && DistinctKinds(table)
    && forall i :: 0 <= i < |table| ==> ShortLibraries(table[i])
  }

  lemma BackendNames()
    ensures |BACKENDS| == 4
    ensures BACKENDS[0].name == "nccl" && BACKENDS[1].name == "rccl"
    ensures BACKENDS[2].name == "oneccl" && BACKENDS[3].name == "eccl"
    ensures forall i :: 0 <= i < 4 ==> ShortName(BACKENDS[i]) && ShortLibraries(BACKENDS[i])
    ensures forall i, j :: 0 <= i < 4 && 0 <= j < 4 && i != j ==> BACKENDS[i].name[0] != BACKENDS[j].name[0]
  {
  }

  lemma BackendProbe(i: nat)
    requires i < |BACKENDS|
    ensures BACKENDS[i].probe == SymbolName(BACKENDS[i], GetVersion)
  {
  }

  lemma BackendsWellFormed()
    ensures WellFormed(BACKENDS) && Ascending(BACKENDS) && PrefixFree(BACKENDS)
    ensures forall i :: 0 <= i < |BACKENDS| ==>
              && ShortName(BACKENDS[i]) && Coherent(BACKENDS[i])
              && BACKENDS[i].probe == SymbolName(BACKENDS[i], GetVersion)
  {
    BackendNames();
    forall i | 0 <= i < |BACKENDS| ensures BACKENDS[i].probe == SymbolName(BACKENDS[i], GetVersion) {
      BackendProbe(i);
    }
    forall i, j | 0 <= i < |BACKENDS| && 0 <= j < |BACKENDS| && i != j
      ensures !(BACKENDS[i].name <= BACKENDS[j].name)
    {
      assert BACKENDS[i].name[0] != BACKENDS[j].name[0];
    }
  }

  /** No entry-point name is cut short by the formatting buffer. */
  lemma NoTruncation(row: Descriptor, op: Operation)
    requires ShortName(row)
    ensures SymbolName(row, op) == row.name + Suffix(op)
  {
  }

  lemma SuffixesDiffer(p: Operation, q: Operation)
    requires Suffix(p) == Suffix(q)
    ensures p == q
  {
  }

  lemma CommonPrefixes(a: string, x: string, b: string, y: string)
    requires a + x == b + y
    ensures a <= b || b <= a
  {
    assert a == (a + x)[..|a|] && b == (b + y)[..|b|];
  }

  /** Distinct (family, entry point) pairs never share a symbol. */
  lemma SymbolsAreUnique(table: seq<Descriptor>, i: nat, p: Operation, j: nat, q: Operation)
    requires PrefixFree(table) && i < |table| && j < |table|
    requires ShortName(table[i]) && ShortName(table[j])
    requires SymbolName(table[i], p) == SymbolName(table[j], q)
    ensures i == j && p == q
  {
    NoTruncation(table[i], p);
    NoTruncation(table[j], q);
    var s := table[i].name + Suffix(p);
    assert s == table[j].name + Suffix(q);
    CommonPrefixes(table[i].name, Suffix(p), table[j].name, Suffix(q));
    if i == j {
      assert Suffix(p) == s[|table[i].name|..] == Suffix(q);
      SuffixesDiffer(p, q);
    }
  }
}
