/** tests/integration/devmem.c: the first usable device runtime among candidate library names. */
module Devmem {
  import opened Common
  import opened Platform

  const RUNTIME_SYMBOL_CAPACITY: nat := 64

  function RuntimeSymbol(prefix: string, suffix: string): string {
    Formatted(prefix + suffix, RUNTIME_SYMBOL_CAPACITY)
  }

  /** The candidate opens and exports all six runtime functions. */
  predicate Usable(w: World, lib: string, prefix: string) {
    lib in w.files && Complete(w.files[lib], prefix)
  }

  predicate Complete(image: Image, prefix: string) {
    && RuntimeSymbol(prefix, "Malloc") in image.exports && RuntimeSymbol(prefix, "Memcpy") in image.exports
    && RuntimeSymbol(prefix, "Memset") in image.exports && RuntimeSymbol(prefix, "Free") in image.exports
    && RuntimeSymbol(prefix, "SetDevice") in image.exports
    && RuntimeSymbol(prefix, "GetDeviceCount") in image.exports
  }

  /** The six functions by their names. */
  lemma CompleteExactly(image: Image, prefix: string)
    requires |prefix| < 50
    ensures Complete(image, prefix)
       <==> && prefix + "Malloc" in image.exports && prefix + "Memcpy" in image.exports
            && prefix + "Memset" in image.exports && prefix + "Free" in image.exports
            && prefix + "SetDevice" in image.exports && prefix + "GetDeviceCount" in image.exports
  {
  }

  predicate FirstUsable(w: World, libs: seq<string>, prefix: string, i: int) {
    && 0 <= i < |libs| && Usable(w, libs[i], prefix)
    && forall j :: 0 <= j < i ==> !Usable(w, libs[j], prefix)
  }

  predicate AnyUsable(w: World, libs: seq<string>, prefix: string) {
    exists i :: 0 <= i < |libs| && Usable(w, libs[i], prefix)
  }

  /** unicc_devmem_t */
  class DeviceMemory {
    var malloc: Pointer
    var memcpy: Pointer
    var memset: Pointer
    var free: Pointer
    var setDevice: Pointer
    var getDeviceCount: Pointer
    var runtime: Option<string>

    /** All six pointers are this handle's functions of the given runtime. */
    predicate From(h: Handle, prefix: string)
      reads this
    {
      && malloc == Fn(h, RuntimeSymbol(prefix, "Malloc"))
      && memcpy == Fn(h, RuntimeSymbol(prefix, "Memcpy"))
      && memset == Fn(h, RuntimeSymbol(prefix, "Memset"))
      && free == Fn(h, RuntimeSymbol(prefix, "Free"))
      && setDevice == Fn(h, RuntimeSymbol(prefix, "SetDevice"))
      && getDeviceCount == Fn(h, RuntimeSymbol(prefix, "GetDeviceCount"))
    }

    /** Each pointer is the function of its own name. */
    lemma PointersExactly(h: Handle, prefix: string)
      requires |prefix| < 50 && From(h, prefix)
      ensures malloc == Fn(h, prefix + "Malloc") && memcpy == Fn(h, prefix + "Memcpy")
      ensures memset == Fn(h, prefix + "Memset") && free == Fn(h, prefix + "Free")
      ensures setDevice == Fn(h, prefix + "SetDevice") && getDeviceCount == Fn(h, prefix + "GetDeviceCount")
    {
    }

    /** The pointers come from the one library among the candidates that should be used; it is
        open, and dropping that one open restores the link map there was before. */
    ghost predicate Loaded(host: Host, before: LinkMap, w: World, libs: seq<string>, prefix: string)
      reads this, host
    {
      && runtime == Some(prefix) && malloc.Fn? && From(malloc.handle, prefix)
      && host.IsOpen(malloc.handle) && host.loaded[malloc.handle.image].opens >= 1
      && Release(host.loaded, malloc.handle.image) == before
      && exists i :: FirstUsable(w, libs, prefix, i) && malloc.handle.image == w.files[libs[i]]
    }

    /** The six lookups in one open candidate, overwriting whatever an earlier one left. */
    method Resolve(host: Host, h: Handle, prefix: string) returns (complete: bool)
      requires host.IsOpen(h)
      modifies this
      ensures runtime == old(runtime)
      ensures complete <==> Complete(h.image, prefix)
      ensures complete ==> From(h, prefix)
    {
      malloc := host.Dlsym(h, RuntimeSymbol(prefix, "Malloc"));
      memcpy := host.Dlsym(h, RuntimeSymbol(prefix, "Memcpy"));
      memset := host.Dlsym(h, RuntimeSymbol(prefix, "Memset"));
      free := host.Dlsym(h, RuntimeSymbol(prefix, "Free"));
      setDevice := host.Dlsym(h, RuntimeSymbol(prefix, "SetDevice"));
      getDeviceCount := host.Dlsym(h, RuntimeSymbol(prefix, "GetDeviceCount"));
      complete := malloc.Fn? && memcpy.Fn? && memset.Fn? && free.Fn? && setDevice.Fn? && getDeviceCount.Fn?;
    }

    /** load_runtime */
    method LoadRuntime(host: Host, w: World, libs: seq<string>, prefix: string) returns (rc: CInt)
      requires host.Valid()
      modifies this, host`loaded, host`next
      ensures host.Valid() && rc in {0, -1}
      ensures rc == 0 <==> AnyUsable(w, libs, prefix)
      ensures rc == 0 ==> Loaded(host, old(host.loaded), w, libs, prefix)
      ensures rc != 0 ==> host.loaded == old(host.loaded) && runtime == old(runtime)
    {
      hide Complete, RuntimeSymbol;
      for i := 0 to |libs|
        invariant host.Valid() && host.loaded == old(host.loaded) && runtime == old(runtime)
        invariant forall j :: 0 <= j < i ==> !Usable(w, libs[j], prefix)
      {
        var stamp := host.next;
        var h := host.Dlopen(w, libs[i]);
        if h.Some? {
          ReleaseUndoesAcquire(old(host.loaded), h.value.image, stamp);
          var complete := Resolve(host, h.value, prefix);
          if complete {
            runtime := Some(prefix);
            assert FirstUsable(w, libs, prefix, i);
            return 0;
          }
          host.Dlclose(h.value);
        }
      }
      rc := -1;
    }

    /** unicc_devmem_load: CUDA first, HIP if there is no usable CUDA. */
    method Load(host: Host, w: World) returns (rc: CInt)
      requires host.Valid()
      modifies this, host`loaded, host`next
      ensures host.Valid() && rc in {0, -1}
      ensures var cuda := ["libcudart.so", "libcudart.so.13", "libcudart.so.12"];
              var hip := ["libamdhip64.so", "libamdhip64.so.6", "libamdhip64.so.5", "libamdhip64.so.4"];
              && (rc == 0 <==> AnyUsable(w, cuda, "cuda") || AnyUsable(w, hip, "hip"))
              && (AnyUsable(w, cuda, "cuda") ==> Loaded(host, old(host.loaded), w, cuda, "cuda"))
              && (rc == 0 && !AnyUsable(w, cuda, "cuda") ==> Loaded(host, old(host.loaded), w, hip, "hip"))
      ensures rc != 0 ==> host.loaded == old(host.loaded) && runtime == old(runtime)
    {
      hide AnyUsable, Loaded;
      rc := LoadRuntime(host, w, CUDA_LIBS, "cuda");
      if rc == 0 {
        return;
      }
      rc := LoadRuntime(host, w, HIP_LIBS, "hip");
    }
  }

  const CUDA_LIBS: seq<string> := ["libcudart.so", "libcudart.so.13", "libcudart.so.12"]
  const HIP_LIBS: seq<string> := ["libamdhip64.so", "libamdhip64.so.6", "libamdhip64.so.5", "libamdhip64.so.4"]
}
