/** The registry and buffer pool objects. */
module Buffers {
  import opened Wrappers
  import opened Machine
  import opened Naming
  import M = Memory

  class MemoryRegistry {
    var nextRegionId: Uint64
    var regions: map<string, string>
    ghost var issued: nat

    ghost predicate Valid()
      reads this
    {
      nextRegionId == Low64(issued)
    }

    ghost function View(): M.Registry
      reads this
    {
      M.Registry(issued, regions)
    }

    constructor ()
      ensures Valid() && View() == M.Registry(0, map[])
    {
      nextRegionId, regions, issued := 0, map[], 0;
    }

    method Register(bytes: string) returns (key: string)
      requires Valid()
      modifies this
      ensures Valid() && (View(), key) == M.Register(old(View()), bytes)
    {
      IncrementLow64(issued);
      nextRegionId := Increment(nextRegionId);
      issued := issued + 1;
      key := RegionKey(nextRegionId);
      if key !in regions { regions := regions[key := bytes]; }
    }

    method Lookup(key: string) returns (bytes: Result<string>)
      ensures bytes == if key in regions then Ok(regions[key]) else Err("memory region not found: " + key)
    {
      return if key in regions then Ok(regions[key]) else Err("memory region not found: " + key);
    }

    method Release(key: string)
      requires Valid()
      modifies this
      ensures Valid() && View() == old(View()).(regions := old(regions) - {key})
    {
      regions := regions - {key};
    }
  }

  class BufferPool {
    const registry: MemoryRegistry
    const buffers: nat
    const size: nat
    var free: seq<string>
    var known: set<string>
    ghost var out: set<string>
    ghost var peak: nat

    ghost function View(): M.Pool
      reads this, registry
    {
      M.Pool(registry.View(), buffers, size, free, known, out, peak)
    }

    /** Registers the configured number of buffers, one by one. */
    constructor (registry: MemoryRegistry, buffers: nat, size: nat)
      requires registry.Valid()
      modifies registry
      ensures registry.Valid() && this.registry == registry
      ensures View() == M.NewPool(old(registry.View()), size, buffers)
    {
      this.registry, this.buffers, this.size := registry, buffers, size;
      free, known, out, peak := [], {}, {}, 0;
      new;
      for i := 0 to buffers
        invariant registry.Valid() && this.registry == registry
        invariant View() == M.NewPool(old(registry.View()), size, i).(buffers := buffers)
      {
        var key := registry.Register(M.Zeroes(size));
        free := free + [key];
        known := known + {key};
      }
    }

    method Acquire() returns (key: Result<string>)
      requires registry.Valid()
      modifies this, registry
      ensures registry.Valid() && (View(), key) == M.Acquire(old(View()))
    {
      if free == [] {
        var k := registry.Register(M.Zeroes(size));
        known := known + {k};
        out, peak := out + {k}, Max(peak, |out + {k}|);
        return Ok(k);
      }
      var k := free[0];
      free := free[1..];
      var bytes := registry.Lookup(k);
      if bytes.Err? { return Err(bytes.message); }
      if |bytes.value| != size { registry.regions := registry.regions[k := M.Resize(bytes.value, size)]; }
      assert M.Resize(bytes.value, |bytes.value|) == bytes.value;
      assert registry.regions == old(registry.regions)[k := M.Resize(bytes.value, size)];
      out, peak := out + {k}, Max(peak, |out + {k}|);
      return Ok(k);
    }

    method Release(key: string) returns (done: Result<()>)
      requires registry.Valid()
      modifies this, registry
      ensures registry.Valid() && (View(), done) == M.Release(old(View()), key)
    {
      if key !in known { return Ok(()); }
      if key in free { return Ok(()); }
      var bytes := registry.Lookup(key);
      if bytes.Err? { return Err(bytes.message); }
      registry.regions := registry.regions[key := M.Resize(bytes.value, size)];
      free := free + [key];
      out := out - {key};
      return Ok(());
    }
  }
}
