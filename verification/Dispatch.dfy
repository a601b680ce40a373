/** The dispatch table and the binder's native pointers as values, and where a slot leads. */
module Dispatch {
  import opened Common
  import opened Platform
  import opened Families

  /** A table slot: nothing, a native pointer copied in, or an adapter that looks up one of the
      binder's pointers when it is called. */
  datatype Slot =
    | Empty
    | Direct(target: Pointer)
    | GetId128 | GetId4096
    | InitRankN128 | InitRankS128 | InitRankS4096
    | BroadcastPair

  datatype Table = Table(
    getVersion: Slot, commInitRank: Slot, allReduce: Slot, broadcast: Slot,
    getUniqueId: Slot, commDestroy: Slot, commCount: Slot, commUserRank: Slot,
    groupStart: Slot, groupEnd: Slot)

  const ZEROED := Table(Empty, Empty, Empty, Empty, Empty, Empty, Empty, Empty, Empty, Empty)

  /** The binder's file-static pointers, one for each native signature. They are never cleared. */
  datatype Natives = Natives(
    getVersion: Pointer, allReduce: Pointer, broadcast: Pointer, broadcastPair: Pointer,
    rankInitN128: Pointer, rankInitS128: Pointer, rankInitS4096: Pointer,
    getId128: Pointer, getId4096: Pointer,
    commDestroy: Pointer, commCount: Pointer, commUserRank: Pointer,
    groupStart: Pointer, groupEnd: Pointer)

  const UNSET := Natives(Null, Null, Null, Null, Null, Null, Null, Null, Null, Null, Null, Null, Null, Null)

  /** Every pointer the binder holds on to. */
  function Retained(n: Natives): set<Pointer> {
    { n.getVersion, n.allReduce, n.broadcast, n.broadcastPair, n.rankInitN128, n.rankInitS128, n.rankInitS4096,
      n.getId128, n.getId4096, n.commDestroy, n.commCount, n.commUserRank, n.groupStart, n.groupEnd }
  }

  /** A binding of this handle stores nothing but its own lookups. */
  predicate RetainsOnly(after: Natives, before: Natives, h: Handle) {
    forall p :: p in Retained(after) ==> p in Retained(before) || p.Null? || p.handle == h
  }

  /** Every pointer held comes from a load that has already taken place. */
  predicate Stamped(n: Natives, next: nat) {
    forall p :: p in Retained(n) && p.Fn? ==> p.handle.generation < next
  }

  lemma StaysStamped(after: Natives, before: Natives, h: Handle, next: nat, next': nat)
    requires Stamped(before, next) && RetainsOnly(after, before, h)
    requires next <= next' && h.generation < next'
    ensures Stamped(after, next')
  {
  }

  lemma MoreStamps(n: Natives, next: nat, next': nat)
    requires Stamped(n, next) && next <= next'
    ensures Stamped(n, next')
  {
  }

  /** A resolved pointer stored in a slot; a missing symbol leaves the slot empty. */
  function Store(p: Pointer): Slot {
    if p.Null? then Empty else Direct(p)
  }

  /** The native pointer that a call through the slot ends at. */
  function Resolve(slot: Slot, natives: Natives): Pointer {
    match slot
    case Empty => Null
    case Direct(p) => p
    case GetId128 => natives.getId128
    case GetId4096 => natives.getId4096
    case InitRankN128 => natives.rankInitN128
    case InitRankS128 => natives.rankInitS128
    case InitRankS4096 => natives.rankInitS4096
    case BroadcastPair => natives.broadcastPair
  }

  function SlotOf(t: Table, op: Operation): Slot {
    match op
    case GetVersion => t.getVersion
    case CommInitRank => t.commInitRank
    case AllReduce => t.allReduce
    case Broadcast => t.broadcast
    case GetUniqueId => t.getUniqueId
    case CommDestroy => t.commDestroy
    case CommCount => t.commCount
    case CommUserRank => t.commUserRank
    case GroupStart => t.groupStart
    case GroupEnd => t.groupEnd
  }

  /** The adapters a row's signatures call for. */
  function RankAdapter(row: Descriptor): Slot {
    if row.ranksAreSizeT then
      if row.uidKind.OnecclUid? then InitRankS4096 else InitRankS128
    else InitRankN128
  }

  function IdAdapter(row: Descriptor): Slot {
    if row.uidKind.OnecclUid? then GetId4096 else GetId128
  }

  /** The slot has the shape this row's signature for the operation calls for. */
  predicate Shaped(slot: Slot, row: Descriptor, op: Operation) {
    match op
    case CommInitRank => slot == RankAdapter(row)
    case GetUniqueId => slot == IdAdapter(row)
    case Broadcast => if row.doubleBuffered then slot == BroadcastPair else slot.Direct?
    case _ => slot.Direct?
  }

  /** The slot is empty exactly when the image does not offer the operation to the family, and
      otherwise has the right adapter and ends at that very symbol of the open handle. */
  predicate Leads(slot: Slot, natives: Natives, h: Handle, row: Descriptor, op: Operation) {
    if Supports(row, h.image, op) then
      Shaped(slot, row, op) && Resolve(slot, natives) == Fn(h, SymbolName(row, op))
    else slot == Empty
  }

  /** The live-pointer invariant: every slot leads where the open handle and its family say. */
  ghost predicate Wired(t: Table, natives: Natives, h: Handle, row: Descriptor) {
    forall op :: Leads(SlotOf(t, op), natives, h, row, op)
  }

  /** The ten slots, one by one, make up the invariant. */
  lemma SlotBySlot(t: Table, natives: Natives, h: Handle, row: Descriptor)
    requires Leads(t.getVersion, natives, h, row, GetVersion)
    requires Leads(t.commInitRank, natives, h, row, CommInitRank)
    requires Leads(t.allReduce, natives, h, row, AllReduce)
    requires Leads(t.broadcast, natives, h, row, Broadcast)
    requires Leads(t.getUniqueId, natives, h, row, GetUniqueId)
    requires Leads(t.commDestroy, natives, h, row, CommDestroy)
    requires Leads(t.commCount, natives, h, row, CommCount)
    requires Leads(t.commUserRank, natives, h, row, CommUserRank)
    requires Leads(t.groupStart, natives, h, row, GroupStart)
    requires Leads(t.groupEnd, natives, h, row, GroupEnd)
    ensures Wired(t, natives, h, row)
  {
  }

  /** In a wired table every non-empty slot ends at a symbol of the given handle and family:
      never at null, at another load, or at another family's symbol. */
  lemma WiredSlotsAreLive(t: Table, natives: Natives, h: Handle, row: Descriptor, op: Operation)
    requires Wired(t, natives, h, row)
    ensures SlotOf(t, op) != Empty <==> Supports(row, h.image, op)
    ensures SlotOf(t, op) != Empty ==>
              && Resolve(SlotOf(t, op), natives) == Fn(h, SymbolName(row, op))
              && SymbolName(row, op) in h.image.exports
  {
  }
}
