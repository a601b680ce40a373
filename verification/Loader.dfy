/** src/unicc_loader.c: backend selection, loading, identification and diagnosis. */
module Loading {
  import opened Common
  import opened Platform
  import opened Families
  import opened Selection

  /** unicc_loader_detect_backend */
  method DetectBackend(table: seq<Descriptor>, w: World) returns (rc: CInt, path: string)
    requires |table| > 0
    ensures rc == OK && path == Requested(table, w)
  {
    rc := OK;
    if w.library.Some? && w.library.value != "" {
      path := w.library.value;
    } else if w.backend.Some? && w.backend.value != "" {
      path := w.backend.value;
      for i := 0 to |table|
        invariant path == w.backend.value
        invariant forall j :: 0 <= j < i ==> table[j].name != w.backend.value
      {
        if table[i].name == w.backend.value {
          FirstAt(table, Named(w.backend.value), i);
          path := table[i].lib;
          return;
        }
      }
      assert forall j :: 0 <= j < |table| ==> !Named(w.backend.value)(table[j]);
    } else {
      path := table[0].lib;
    }
  }

  /** unicc_loader_load: the requested name, then its soname fallback. Reports the name that
      opened, as it fits into a buffer of the given capacity. */
  method Load(host: Host, table: seq<Descriptor>, w: World, request: Option<string>, capacity: nat)
    returns (rc: CInt, handle: Option<Handle>, resolved: string)
    requires host.Valid()
    modifies host`loaded, host`next
    ensures host.Valid() && host.next >= old(host.next) && Reaches(old(host.Now()), host.Now())
    ensures handle.Some? <==> rc == OK
    ensures rc != OK ==> host.loaded == old(host.loaded) && resolved == ""
    ensures request.None? ==> rc == ERR_NO_BACKEND
    ensures request.Some? ==>
              var found := Opened(table, w, request.value);
              && rc == (if found.None? then ERR_BACKEND_LOAD else OK)
              && (found.Some? ==>
                    && handle.value.image == w.files[found.value]
                    && host.IsOpen(handle.value)
                    && host.loaded == Acquire(old(host.loaded), handle.value.image, old(host.next))
                    && (capacity > 0 ==> resolved == Formatted(found.value, capacity)))
  {
    handle, resolved := None, "";
    ReachesItself(host.Now());
    hide Reaches;
    if request.None? {
      rc := ERR_NO_BACKEND;
      return;
    }
    var name := request.value;
    handle := host.Dlopen(w, name);
    if handle.None? {
      var alt := FindFallback(table, name);
      if alt.Some? {
        name := alt.value;
        handle := host.Dlopen(w, name);
        assert Reaches(old(host.Now()), host.Now());
      }
      if handle.None? {
        rc := ERR_BACKEND_LOAD;
        return;
      }
    }
    if capacity > 0 {
      resolved := Formatted(name, capacity);
    }
    rc := OK;
  }

  /** The fallback search inside unicc_loader_load. */
  method FindFallback(table: seq<Descriptor>, name: string) returns (alt: Option<string>)
    ensures alt == Fallback(table, name)
  {
    for i := 0 to |table|
      invariant forall j :: 0 <= j < i ==> table[j].lib != name
    {
      if table[i].lib == name {
        FirstAt(table, WithLib(name), i);
        return table[i].alt;
      }
    }
    alt := None;
    assert forall j :: 0 <= j < |table| ==> !WithLib(name)(table[j]);
  }

  /** unicc_loader_unload */
  method Unload(host: Host, handle: Handle)
    requires host.Valid() && host.IsOpen(handle)
    modifies host`loaded
    ensures host.Valid() && host.loaded == Release(old(host.loaded), handle.image)
    ensures Reaches(old(host.Now()), host.Now())
  {
    host.Dlclose(handle);
  }

  /** unicc_loader_identify_backend: the descending walk. */
  method IdentifyBackend(host: Host, table: seq<Descriptor>, handle: Option<Handle>) returns (kind: BackendType)
    requires handle.Some? ==> host.IsOpen(handle.value)
    ensures kind == if handle.None? || Identified(table, handle.value.image).None? then Unknown
                    else Identified(table, handle.value.image).value.kind
  {
    if handle.None? {
      return Unknown;
    }
    var i := |table| - 1;
    while i >= 0
      invariant -1 <= i < |table|
      invariant forall j :: i < j < |table| ==> table[j].probe !in handle.value.image.exports
    {
      var probe := host.Dlsym(handle.value, table[i].probe);
      if probe.Fn? {
        LastAt(table, Probed(handle.value.image), i);
        return table[i].kind;
      }
      i := i - 1;
    }
    kind := Unknown;
    assert forall j :: 0 <= j < |table| ==> !Probed(handle.value.image)(table[j]);
  }

  /** unicc_loader_check_platform_support */
  method CheckPlatformSupport(w: World) returns (rc: CInt)
    ensures rc == if w.supported then OK else ERR_BACKEND_NOT_SUPPORTED
  {
    rc := if w.supported then OK else ERR_BACKEND_NOT_SUPPORTED;
  }

  /** unicc_diagnose_backend, without the report: whatever is opened is closed again, and an
      image already in use keeps its load. */
  method DiagnoseBackend(host: Host, table: seq<Descriptor>, w: World, path: Option<string>)
    requires host.Valid()
    modifies host`loaded, host`next
    ensures host.Valid() && host.loaded == old(host.loaded) && host.next >= old(host.next)
    ensures Reaches(old(host.Now()), host.Now())
  {
    hide Reaches;
    var rc, handle, _ := Load(host, table, w, path, 0);
    if rc != OK {
      return;
    }
    ReleaseUndoesAcquire(old(host.loaded), handle.value.image, old(host.next));
    var kind := IdentifyBackend(host, table, handle);
    ghost var opened' := host.Now();
    Unload(host, handle.value);
    ReachesComposes(old(host.Now()), opened', host.Now());
  }
}
