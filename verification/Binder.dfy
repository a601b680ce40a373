/** src/backends/unicc_bind.c: the generic family binder and its id, rank and broadcast adapters. */
module Binding {
  import opened Common
  import opened Platform
  import opened Families
  import opened Selection
  import opened Dispatch

  /** The caller's unicc_comm_id_t. */
  class CommId {
    var len: SizeT
    const data: array<Byte>

    constructor (len: SizeT, bytes: seq<Byte>)
      requires |bytes| == COMM_ID_MAX
      ensures Valid() && this.len == len && data[..] == bytes && fresh(data)
    {
      this.len := len;
      data := new Byte[COMM_ID_MAX](i requires 0 <= i < COMM_ID_MAX => bytes[i]);
    }

    predicate Valid() {
      data.Length == COMM_ID_MAX
    }
  }

  /** The process-wide table `unicc`, which the binder fills and the vtable layer owns. */
  class TableCell {
    var unicc: Table

    constructor ()
      ensures unicc == ZEROED
    {
      unicc := ZEROED;
    }
  }

  class Binder {
    const host: Host
    const cell: TableCell
    var natives: Natives

    constructor (host: Host, cell: TableCell)
      ensures this.host == host && this.cell == cell && natives == UNSET
    {
      this.host, this.cell := host, cell;
      natives := UNSET;
    }

    // ---- adapters ----

    /** Shared body of the two GetUniqueId adapters: nothing is written unless the call succeeds. */
    method GetId(p: Pointer, n: IdSize, id: CommId) returns (rc: CInt)
      requires host.Callable(p) && id.Valid()
      modifies host`log, id, id.data
      ensures ForwardedId(old(host.log), p, n, rc)
      ensures rc == 0 ==> id.len == n && id.data[..n] == host.log[|host.log| - 1].answer.id[..n]
      ensures rc == 0 ==> id.data[n..] == old(id.data[n..])
      ensures rc != 0 ==> id.len == old(id.len) && id.data[..] == old(id.data[..])
    {
      var a := host.Invoke(p, GetIdArgs(n));
      rc := a.code;
      if rc == 0 {
        id.len := n;
        forall i | 0 <= i < n {
          id.data[i] := a.id[i];
        }
      }
    }

    /** One native call of GetUniqueId through p was appended to the log, with this code. */
    twostate predicate ForwardedId(before: seq<Entry>, p: Pointer, n: IdSize, rc: CInt)
      requires p.Fn?
      reads host
    {
      var call := NativeCall(p.handle.image, p.symbol, GetIdArgs(n));
      host.log == before + [Entry(call, host.behave(before, call))] && rc == host.behave(before, call).code
    }

    /** unicc.get_unique_id */
    method CallGetUniqueId(id: CommId) returns (rc: CInt)
      requires id.Valid()
      requires cell.unicc.getUniqueId in {GetId128, GetId4096}
      requires host.Callable(Resolve(cell.unicc.getUniqueId, natives))
      modifies host`log, id, id.data
      ensures var n := if cell.unicc.getUniqueId == GetId4096 then ONECCL_UNIQUE_ID_BYTES else UNIQUE_ID_BYTES;
              && ForwardedId(old(host.log), Resolve(cell.unicc.getUniqueId, natives), n, rc)
              && (rc == 0 ==> && id.len == n && id.data[..n] == host.log[|host.log| - 1].answer.id[..n]
                              && id.data[n..] == old(id.data[n..]))
              && (rc != 0 ==> id.len == old(id.len) && id.data[..] == old(id.data[..]))
    {
      if cell.unicc.getUniqueId == GetId4096 {
        rc := GetId(natives.getId4096, ONECCL_UNIQUE_ID_BYTES, id);
      } else {
        rc := GetId(natives.getId128, UNIQUE_ID_BYTES, id);
      }
    }

    /** unicc.comm_init_rank: the length guard answers with a unified code and calls nothing. */
    method CallCommInitRank(nranks: CInt, id: CommId, rank: CInt) returns (rc: CInt, comm: Option<int>)
      requires id.Valid()
      requires cell.unicc.commInitRank in {InitRankN128, InitRankS128, InitRankS4096}
      requires host.Callable(Resolve(cell.unicc.commInitRank, natives))
      modifies host`log
      ensures var slot := cell.unicc.commInitRank;
              var n := if slot == InitRankS4096 then ONECCL_UNIQUE_ID_BYTES else UNIQUE_ID_BYTES;
              var p := Resolve(slot, natives);
              var args := InitRankArgs(if slot == InitRankN128 then IntRanks else SizeRanks,
                                       if slot == InitRankN128 then nranks else ToSizeT(nranks),
                                       id.data[..n], rank);
              var call := NativeCall(p.handle.image, p.symbol, args);
              var a := host.behave(old(host.log), call);
              if id.len != n then rc == ERR_INVALID_ARGUMENT && comm == None && host.log == old(host.log)
              else rc == a.code && comm == a.stored && host.log == old(host.log) + [Entry(call, a)]
    {
      match cell.unicc.commInitRank
      case InitRankN128 =>
        if id.len != UNIQUE_ID_BYTES {
          return ERR_INVALID_ARGUMENT, None;
        }
        var a := host.Invoke(natives.rankInitN128, InitRankArgs(IntRanks, nranks, id.data[..UNIQUE_ID_BYTES], rank));
        rc, comm := a.code, a.stored;
      case InitRankS128 =>
        if id.len != UNIQUE_ID_BYTES {
          return ERR_INVALID_ARGUMENT, None;
        }
        var a := host.Invoke(natives.rankInitS128,
                             InitRankArgs(SizeRanks, ToSizeT(nranks), id.data[..UNIQUE_ID_BYTES], rank));
        rc, comm := a.code, a.stored;
      case InitRankS4096 =>
        if id.len != ONECCL_UNIQUE_ID_BYTES {
          return ERR_INVALID_ARGUMENT, None;
        }
        var a := host.Invoke(natives.rankInitS4096,
                             InitRankArgs(SizeRanks, ToSizeT(nranks), id.data[..ONECCL_UNIQUE_ID_BYTES], rank));
        rc, comm := a.code, a.stored;
    }

    /** unicc.broadcast: the double-buffered families get the one buffer on both sides. */
    method CallBroadcast(buf: Address, count: SizeT, dt: int, root: CInt, comm: Address, stream: Address)
      returns (rc: CInt)
      requires cell.unicc.broadcast.Direct? || cell.unicc.broadcast.BroadcastPair?
      requires host.Callable(Resolve(cell.unicc.broadcast, natives))
      modifies host`log
      ensures var p := Resolve(cell.unicc.broadcast, natives);
              var args := if cell.unicc.broadcast.Direct?
                          then InPlaceBroadcastArgs(buf, count, dt, root, comm, stream)
                          else PairBroadcastArgs(buf, buf, count, dt, root, comm, stream);
              var call := NativeCall(p.handle.image, p.symbol, args);
              var a := host.behave(old(host.log), call);
              rc == a.code && host.log == old(host.log) + [Entry(call, a)]
    {
      match cell.unicc.broadcast
      case Direct(p) =>
        var a := host.Invoke(p, InPlaceBroadcastArgs(buf, count, dt, root, comm, stream));
        rc := a.code;
      case BroadcastPair =>
        var a := host.Invoke(natives.broadcastPair, PairBroadcastArgs(buf, buf, count, dt, root, comm, stream));
        rc := a.code;
    }

    // ---- binder ----

    /** The one slot the binder may not write was empty, or is written for this row. */
    predicate Bindable(before: Table, row: Descriptor) {
      row.hasUserRank || before.commUserRank == Empty
    }

    /** unicc_vtable_bind. The binder neither clears a slot it does not fill nor undoes the pointers
        it has already overwritten, so a success wires the whole table exactly when the slot of a
        missing CommUserRank was empty to begin with; a failure leaves the table as it was. */
    method Bind(table: seq<Descriptor>, handle: Handle, kind: BackendType) returns (rc: CInt)
      requires host.IsOpen(handle)
      modifies this`natives, cell
      ensures var family := First(table, OfKind(kind));
              && rc == (if family.None? then ERR_BACKEND_INIT_FAILED
                        else if !CoreExported(family.value, handle.image) then ERR_SYMBOL_NOT_FOUND
                        else OK)
              && (rc == OK ==> (Wired(cell.unicc, natives, handle, family.value)
                                <==> Bindable(old(cell.unicc), family.value)))
              && (rc != OK ==> cell.unicc == old(cell.unicc))
      ensures RetainsOnly(natives, old(natives), handle)
    {
      var d := FamilyOf(table, kind);
      if d.None? {
        return ERR_BACKEND_INIT_FAILED;
      }
      var row := d.value;
      var found := ResolveCore(row, handle);
      if !found {
        return ERR_SYMBOL_NOT_FOUND;
      }
      InstallCore(row, handle);
      InstallOptional(row, handle);
      rc := OK;
    }

    /** Resolve the four core symbols into the pointers this row's signatures use. */
    method ResolveCore(row: Descriptor, handle: Handle) returns (found: bool)
      requires host.IsOpen(handle)
      modifies this`natives
      ensures found <==> CoreExported(row, handle.image)
      ensures RetainsOnly(natives, old(natives), handle)
      ensures CorePointers(row, handle)
    {
      natives := natives.(getVersion := host.Dlsym(handle, SymbolName(row, GetVersion)));
      natives := natives.(allReduce := host.Dlsym(handle, SymbolName(row, AllReduce)));
      if row.doubleBuffered {
        natives := natives.(broadcastPair := host.Dlsym(handle, SymbolName(row, Broadcast)));
      } else {
        natives := natives.(broadcast := host.Dlsym(handle, SymbolName(row, Broadcast)));
      }
      if row.ranksAreSizeT {
        if row.uidKind.OnecclUid? {
          natives := natives.(rankInitS4096 := host.Dlsym(handle, SymbolName(row, CommInitRank)));
        } else {
          natives := natives.(rankInitS128 := host.Dlsym(handle, SymbolName(row, CommInitRank)));
        }
      } else {
        natives := natives.(rankInitN128 := host.Dlsym(handle, SymbolName(row, CommInitRank)));
      }
      found := natives.getVersion.Fn? && natives.allReduce.Fn?
               && (if row.doubleBuffered then natives.broadcastPair.Fn? else natives.broadcast.Fn?)
               && (if row.ranksAreSizeT
                   then if row.uidKind.OnecclUid? then natives.rankInitS4096.Fn? else natives.rankInitS128.Fn?
                   else natives.rankInitN128.Fn?);
    }

    predicate CorePointers(row: Descriptor, handle: Handle)
      reads this
    {
      && natives.getVersion == Lookup(handle, SymbolName(row, GetVersion))
      && natives.allReduce == Lookup(handle, SymbolName(row, AllReduce))
      && (if row.doubleBuffered then natives.broadcastPair else natives.broadcast)
         == Lookup(handle, SymbolName(row, Broadcast))
      && Resolve(RankAdapter(row), natives) == Lookup(handle, SymbolName(row, CommInitRank))
    }

    method InstallCore(row: Descriptor, handle: Handle)
      requires CorePointers(row, handle) && CoreExported(row, handle.image)
      modifies cell
      ensures cell.unicc == old(cell.unicc).(getVersion := cell.unicc.getVersion, allReduce := cell.unicc.allReduce,
                                             broadcast := cell.unicc.broadcast, commInitRank := cell.unicc.commInitRank)
      ensures Leads(cell.unicc.getVersion, natives, handle, row, GetVersion)
      ensures Leads(cell.unicc.allReduce, natives, handle, row, AllReduce)
      ensures Leads(cell.unicc.broadcast, natives, handle, row, Broadcast)
      ensures Leads(cell.unicc.commInitRank, natives, handle, row, CommInitRank)
    {
      cell.unicc := cell.unicc.(getVersion := Store(natives.getVersion));
      cell.unicc := cell.unicc.(allReduce := Store(natives.allReduce));
      cell.unicc := cell.unicc.(broadcast := if row.doubleBuffered then BroadcastPair else Store(natives.broadcast));
      cell.unicc := cell.unicc.(commInitRank :=
        if row.ranksAreSizeT then if row.uidKind.OnecclUid? then InitRankS4096 else InitRankS128
        else InitRankN128);
    }

    /** Fill the optional slots. The core slots, whatever adapters they use, keep leading where
        they led. */
    method InstallOptional(row: Descriptor, handle: Handle)
      requires host.IsOpen(handle)
      requires Leads(cell.unicc.getVersion, natives, handle, row, GetVersion)
      requires Leads(cell.unicc.allReduce, natives, handle, row, AllReduce)
      requires Leads(cell.unicc.broadcast, natives, handle, row, Broadcast)
      requires Leads(cell.unicc.commInitRank, natives, handle, row, CommInitRank)
      modifies this`natives, cell
      ensures Wired(cell.unicc, natives, handle, row) <==> Bindable(old(cell.unicc), row)
      ensures RetainsOnly(natives, old(natives), handle)
    {
      InstallId(row, handle);
      InstallCommunicator(row, handle);
      InstallGroup(row, handle);
      if Bindable(old(cell.unicc), row) {
        SlotBySlot(cell.unicc, natives, handle, row);
      } else {
        assert !Leads(SlotOf(cell.unicc, CommUserRank), natives, handle, row, CommUserRank);
      }
    }

    /** An adapter goes in only over a resolved symbol. */
    method InstallId(row: Descriptor, handle: Handle)
      requires host.IsOpen(handle)
      modifies this`natives, cell
      ensures natives == old(natives).(getId128 := natives.getId128, getId4096 := natives.getId4096)
      ensures RetainsOnly(natives, old(natives), handle)
      ensures cell.unicc == old(cell.unicc).(getUniqueId := cell.unicc.getUniqueId)
      ensures Leads(cell.unicc.getUniqueId, natives, handle, row, GetUniqueId)
    {
      if row.uidKind.OnecclUid? {
        natives := natives.(getId4096 := host.Dlsym(handle, SymbolName(row, GetUniqueId)));
        cell.unicc := cell.unicc.(getUniqueId := if natives.getId4096.Fn? then GetId4096 else Empty);
      } else {
        natives := natives.(getId128 := host.Dlsym(handle, SymbolName(row, GetUniqueId)));
        cell.unicc := cell.unicc.(getUniqueId := if natives.getId128.Fn? then GetId128 else Empty);
      }
    }

    /** A family without CommUserRank leaves that slot as it was. */
    method InstallCommunicator(row: Descriptor, handle: Handle)
      requires host.IsOpen(handle)
      modifies this`natives, cell
      ensures natives == old(natives).(commDestroy := natives.commDestroy, commCount := natives.commCount,
                                       commUserRank := natives.commUserRank)
      ensures RetainsOnly(natives, old(natives), handle)
      ensures cell.unicc == old(cell.unicc).(commDestroy := cell.unicc.commDestroy,
                                             commCount := cell.unicc.commCount,
                                             commUserRank := cell.unicc.commUserRank)
      ensures Leads(cell.unicc.commDestroy, natives, handle, row, CommDestroy)
      ensures Leads(cell.unicc.commCount, natives, handle, row, CommCount)
      ensures Bindable(old(cell.unicc), row) ==> Leads(cell.unicc.commUserRank, natives, handle, row, CommUserRank)
      ensures !row.hasUserRank ==> cell.unicc.commUserRank == old(cell.unicc.commUserRank)
    {
      natives := natives.(commDestroy := host.Dlsym(handle, SymbolName(row, CommDestroy)));
      cell.unicc := cell.unicc.(commDestroy := Store(natives.commDestroy));
      natives := natives.(commCount := host.Dlsym(handle, SymbolName(row, CommCount)));
      cell.unicc := cell.unicc.(commCount := Store(natives.commCount));
      if row.hasUserRank {
        natives := natives.(commUserRank := host.Dlsym(handle, SymbolName(row, CommUserRank)));
        cell.unicc := cell.unicc.(commUserRank := Store(natives.commUserRank));
      }
    }

    method InstallGroup(row: Descriptor, handle: Handle)
      requires host.IsOpen(handle)
      modifies this`natives, cell
      ensures natives == old(natives).(groupStart := natives.groupStart, groupEnd := natives.groupEnd)
      ensures RetainsOnly(natives, old(natives), handle)
      ensures cell.unicc == old(cell.unicc).(groupStart := cell.unicc.groupStart, groupEnd := cell.unicc.groupEnd)
      ensures Leads(cell.unicc.groupStart, natives, handle, row, GroupStart)
      ensures Leads(cell.unicc.groupEnd, natives, handle, row, GroupEnd)
    {
      natives := natives.(groupStart := host.Dlsym(handle, SymbolName(row, GroupStart)));
      cell.unicc := cell.unicc.(groupStart := Store(natives.groupStart));
      natives := natives.(groupEnd := host.Dlsym(handle, SymbolName(row, GroupEnd)));
      cell.unicc := cell.unicc.(groupEnd := Store(natives.groupEnd));
    }
  }

  /** family_of: the first row of the given type. */
  method FamilyOf(table: seq<Descriptor>, kind: BackendType) returns (row: Option<Descriptor>)
    ensures row == First(table, OfKind(kind))
  {
    for i := 0 to |table|
      invariant forall j :: 0 <= j < i ==> table[j].kind != kind
    {
      if table[i].kind == kind {
        FirstAt(table, OfKind(kind), i);
        return Some(table[i]);
      }
    }
    row := None;
    assert forall j :: 0 <= j < |table| ==> !OfKind(kind)(table[j]);
  }
}
