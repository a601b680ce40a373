/** src/unicc_vtable.c: the global table's lifecycle and the published backend type. */
module VTable {
  import opened Common
  import opened Platform
  import opened Families
  import opened Selection
  import opened Dispatch
  import opened Binding
  import Loading

  class Registry {
    const host: Host
    const cell: TableCell
    const binder: Binder
    var kind: BackendType
    var handle: Option<Handle>

    constructor (host: Host)
      ensures this.host == host && fresh(cell) && fresh(binder)
      ensures Linked() && Clean() && binder.natives == UNSET
    {
      this.host := host;
      var table := new TableCell();
      cell := table;
      binder := new Binder(host, table);
      kind, handle := Unknown, None;
    }

    /** The three objects share one host and one table. */
    predicate Linked() {
      binder.host == host && binder.cell == cell
    }

    /** The uninitialized state: the binder's pointers are not part of it. */
    predicate Clean()
      reads this, cell
    {
      cell.unicc == ZEROED && kind == Unknown && handle == None
    }

    /** unicc_vtable_init. A failure leaves the published identity alone and zeroes the table, but
        not when no family or no platform support was found; a success wires the table if nothing
        stood in the binder's way. From a clean registry this is all or nothing. */
    method Init(table: seq<Descriptor>, w: World, h: Handle) returns (rc: CInt)
      requires Linked() && host.IsOpen(h) && DistinctKinds(table)
      modifies this, cell, binder
      ensures RetainsOnly(binder.natives, old(binder.natives), h)
      ensures var bound := Selection.Bind(table, w, h.image);
              && (bound.Rejected? ==>
                    && rc == bound.code && rc != OK && kind == old(kind) && handle == old(handle)
                    && cell.unicc == (if Identified(table, h.image).Some? && w.supported then ZEROED
                                      else old(cell.unicc)))
              && (bound.Bound? ==>
                    && rc == OK && kind == bound.row.kind && handle == Some(h)
                    && First(table, OfKind(kind)) == Some(bound.row)
                    && (Wired(cell.unicc, binder.natives, h, bound.row)
                        <==> binder.Bindable(old(cell.unicc), bound.row)))
    {
      var family := Loading.IdentifyBackend(host, table, Some(h));
      IdentifiedRow(table, h.image);
      if family == Unknown {
        return ERR_SYMBOL_NOT_FOUND;
      }
      rc := Loading.CheckPlatformSupport(w);
      if rc != OK {
        return;
      }
      rc := BindFamily(table, h, family);
      if rc != OK {
        cell.unicc := ZEROED;
        return;
      }
      kind := family;
      handle := Some(h);
    }

    /** The switch over the per-family entry points, each of which binds its own type. */
    method BindFamily(table: seq<Descriptor>, h: Handle, family: BackendType) returns (rc: CInt)
      requires Linked() && host.IsOpen(h)
      modifies cell, binder`natives
      ensures RetainsOnly(binder.natives, old(binder.natives), h)
      ensures var row := First(table, OfKind(family));
              && rc == (if !HasBinding(family) || row.None? then ERR_BACKEND_INIT_FAILED
                        else if !CoreExported(row.value, h.image) then ERR_SYMBOL_NOT_FOUND
                        else OK)
              && (rc == OK ==> (Wired(cell.unicc, binder.natives, h, row.value)
                                <==> binder.Bindable(old(cell.unicc), row.value)))
              && (rc != OK ==> cell.unicc == old(cell.unicc))
    {
      match family
      case Nccl => rc := binder.Bind(table, h, Nccl);
      case Rccl => rc := binder.Bind(table, h, Rccl);
      case Oneccl => rc := binder.Bind(table, h, Oneccl);
      case Eccl => rc := binder.Bind(table, h, Eccl);
      case _ => rc := ERR_BACKEND_INIT_FAILED;
    }

    /** unicc_vtable_cleanup: the table and the published identity go, the binder's pointers stay. */
    method Cleanup()
      modifies this, cell
      ensures Clean()
    {
      cell.unicc := ZEROED;
      handle := None;
      kind := Unknown;
    }
  }
}
