/** Registered memory and the pool that hands out buffers from it. */
module Memory {
  import opened Wrappers
  import opened Machine
  import opened Order
  import opened Naming

  // ----- The registry -----

  /** `issued` counts the registrations ever made; the id in a key is its low 64 bits. */
  datatype Registry = Registry(issued: nat, regions: map<string, string>)

  function KeyOf(n: nat): (key: string) { RegionKey(Low64(n)) }

  /** A new region under the next key. Inserting does not replace a region already under that key. */
  function Register(r: Registry, bytes: string): (x: (Registry, string)) {
    var key := KeyOf(r.issued + 1);
    (Registry(r.issued + 1, if key in r.regions then r.regions else r.regions[key := bytes]), key)
  }

  function Zeroes(n: nat): (s: string)
    ensures |s| == n && forall i :: 0 <= i < n ==> s[i] == 0 as char
  {
    seq(n, _ => 0 as char)
  }

  /** Keeps what fits and fills up with zeroes. */
  function Resize(s: string, n: nat): (r: string)
    ensures |r| == n && forall i :: 0 <= i < n ==> r[i] == if i < |s| then s[i] else 0 as char
  {
    if n <= |s| then s[..n] else s + Zeroes(n - |s|)
  }

  /** The keys of the first `n` registrations. */
  ghost function IssuedKeys(n: nat): (keys: set<string>) {
    if n == 0 then {} else IssuedKeys(n - 1) + {KeyOf(n)}
  }

  ghost predicate AllIssued(r: Registry) { r.regions.Keys <= IssuedKeys(r.issued) }

  lemma {:induction false} KeysDiffer(n: nat, m: nat)
    requires n < m <= TWO_64
    ensures KeyOf(m) !in IssuedKeys(n)
  {
    if n == 0 {
    } else {
      KeysDiffer(n - 1, m);
      if KeyOf(n) == KeyOf(m) { RegionKeyInjective(Low64(n), Low64(m)); }
    }
  }

  /** The next key was never issued, until the 64-bit id has gone round. */
  lemma NextKeyIsNew(r: Registry)
    requires r.issued < TWO_64
    ensures KeyOf(r.issued + 1) !in IssuedKeys(r.issued)
  {
    KeysDiffer(r.issued, r.issued + 1);
  }

  // ----- The pool -----

  /** `out` are the keys handed out and not released since; `peak` is the most there ever were. */
  datatype Pool = Pool(
    registry: Registry, buffers: nat, size: nat, free: seq<string>, known: set<string>,
    out: set<string>, peak: nat)

  function AddBuffer(p: Pool): (r: Pool) {
    var (registry, key) := Register(p.registry, Zeroes(p.size));
    p.(registry := registry, buffers := p.buffers + 1, free := p.free + [key], known := p.known + {key})
  }

  /** The pool its constructor builds, with `n` the number of buffers or of turns of its loop so far. */
  function NewPool(registry: Registry, size: nat, n: nat): (p: Pool)
    ensures p.buffers == n
  {
    if n == 0 then Pool(registry, 0, size, [], {}, {}, 0) else AddBuffer(NewPool(registry, size, n - 1))
  }

  function HandOut(p: Pool, key: string): (r: Pool) {
    p.(out := p.out + {key}, peak := Max(p.peak, |p.out + {key}|))
  }

  /** A free buffer brought to size, or a new one. A free key whose region is gone is lost with an error. */
  function Acquire(p: Pool): (r: (Pool, Result<string>)) {
    if p.free == [] then
      var (registry, key) := Register(p.registry, Zeroes(p.size));
      (HandOut(p.(registry := registry, known := p.known + {key}), key), Ok(key))
    else
      var key, popped := p.free[0], p.(free := p.free[1..]);
      if key !in p.registry.regions then (popped, Err("memory region not found: " + key))
      else
        var regions := p.registry.regions[key := Resize(p.registry.regions[key], p.size)];
        (HandOut(popped.(registry := p.registry.(regions := regions)), key), Ok(key))
  }

  /** Unknown and already free keys are ignored. */
  function Release(p: Pool, key: string): (r: (Pool, Result<()>)) {
    if key !in p.known || key in p.free then (p, Ok(()))
    else if key !in p.registry.regions then (p, Err("memory region not found: " + key))
    else
      var regions := p.registry.regions[key := Resize(p.registry.regions[key], p.size)];
      (p.(registry := p.registry.(regions := regions), free := p.free + [key], out := p.out - {key}), Ok(()))
  }

  /** Calls on the pool, and what others do to the registry it shares. */
  datatype Step =
    | AcquireStep | ReleaseStep(key: string)
    | RegisterOther(bytes: string) | Unregister(key: string) | Write(key: string, bytes: string)

  function Next(p: Pool, s: Step): (r: Pool) {
    match s
    case AcquireStep => Acquire(p).0
    case ReleaseStep(key) => Release(p, key).0
    case RegisterOther(bytes) => p.(registry := Register(p.registry, bytes).0)
    case Unregister(key) => p.(registry := p.registry.(regions := p.registry.regions - {key}))
    case Write(key, bytes) =>
      if key in p.registry.regions then p.(registry := p.registry.(regions := p.registry.regions[key := bytes])) else p
  }

  /** Every known buffer is free or handed out, and not both; no key is free twice. */
  ghost predicate Partition(free: seq<string>, known: set<string>, out: set<string>) {
    && Distinct(free) && (forall k :: k in known <==> k in free || k in out)
    && (forall k :: k in free ==> k !in out)
  }

  ghost predicate Inv(p: Pool) {
    && Partition(p.free, p.known, p.out)
    // Known buffers are registered, and every key in use was issued.
    && p.known <= p.registry.regions.Keys
    && AllIssued(p.registry)
    // The pool never grew further than it had to.
    && |p.out| <= p.peak && |p.known| == Max(p.buffers, p.peak)
  }

  lemma PopFree(free: seq<string>, known: set<string>, out: set<string>)
    requires Partition(free, known, out) && free != []
    ensures Partition(free[1..], known, out + {free[0]}) && free[0] !in out && free[0] in known
  {
    assert free == [free[0]] + free[1..];
    assert free[0] in free;
  }

  lemma PushFree(free: seq<string>, known: set<string>, out: set<string>, key: string)
    requires Partition(free, known, out) && key !in known
    ensures Partition(free + [key], known + {key}, out)
  {
    assert forall x :: x in free + [key] <==> x in free || x == key;
  }

  /** Registering issues one key, which is new, and keeps every region. */
  lemma RegisterIsFresh(r: Registry, bytes: string)
    requires r.issued < TWO_64 && AllIssued(r)
    ensures
      var (r1, key) := Register(r, bytes);
      && key !in r.regions && r1.regions == r.regions[key := bytes]
      && AllIssued(r1)
  {
    NextKeyIsNew(r);
  }

  lemma KnownSize(p: Pool)
    requires Inv(p)
    ensures |p.known| == |p.free| + |p.out|
  {
    var free := set k | k in p.free;
    DistinctSize(p.free);
    assert p.known == free + p.out && free !! p.out;
  }

  lemma AcquireNew(p: Pool)
    requires Inv(p) && p.registry.issued < TWO_64 && p.free == []
    ensures
      var (r, key) := Acquire(p);
      && Inv(r) && key.Ok? && key.value !in p.out && r.out == p.out + {key.value}
      && |r.registry.regions[key.value]| == p.size
  {
    var (r, key) := Acquire(p);
    RegisterIsFresh(p.registry, Zeroes(p.size));
    assert p.out == p.known;
    assert key.value !in p.known;
    assert |r.known| == |p.known| + 1 && |r.out| == |p.out| + 1;
  }

  lemma ResizeKeepsIssued(r: Registry, key: string, bytes: string)
    requires key in r.regions && AllIssued(r)
    ensures
      var r1 := r.(regions := r.regions[key := bytes]);
      AllIssued(r1)
  {
    assert r.regions[key := bytes].Keys == r.regions.Keys;
  }

  lemma AcquireFree(p: Pool)
    requires Inv(p) && p.free != []
    ensures
      var (r, key) := Acquire(p);
      && Inv(r) && key.Ok? && key.value !in p.out && r.out == p.out + {key.value}
      && |r.registry.regions[key.value]| == p.size
  {
    KnownSize(p);
    var (r, key) := Acquire(p);
    var k := p.free[0];
    PopFree(p.free, p.known, p.out);
    assert |r.out| == |p.out| + 1 <= |p.known|;
    ResizeKeepsIssued(p.registry, k, Resize(p.registry.regions[k], p.size));
  }

  /** An acquired key was not handed out, is handed out now, and has exactly the configured size. */
  lemma AcquireOk(p: Pool)
    requires Inv(p) && p.registry.issued < TWO_64
    ensures
      var (r, key) := Acquire(p);
      && Inv(r) && key.Ok? && key.value !in p.out && r.out == p.out + {key.value}
      && |r.registry.regions[key.value]| == p.size
  {
    if p.free == [] { AcquireNew(p); } else { AcquireFree(p); }
  }

  lemma ReleaseOk(p: Pool, key: string)
    requires Inv(p)
    ensures
      var (r, done) := Release(p, key);
      && Inv(r) && done.Ok? && r.out == p.out - {key}
  {
    var (r, done) := Release(p, key);
    if key in p.out {
      assert key in p.known && key !in p.free;
      ResizeKeepsIssued(p.registry, key, Resize(p.registry.regions[key], p.size));
    } else {
      assert p.out - {key} == p.out;
    }
  }

  /** The pool's own regions stay registered, and the registry's id does not go round. */
  predicate Allowed(p: Pool, s: Step) {
    p.registry.issued < TWO_64 && (s.Unregister? ==> s.key !in p.known)
  }

  lemma StepOk(p: Pool, s: Step)
    requires Inv(p) && Allowed(p, s)
    ensures Inv(Next(p, s))
  {
    var r := Next(p, s);
    match s
    case AcquireStep => AcquireOk(p);
    case ReleaseStep(key) => ReleaseOk(p, key);
    case RegisterOther(bytes) => RegisterIsFresh(p.registry, bytes);
    case Unregister(key) =>
    case Write(key, bytes) => assert r.registry.regions.Keys == p.registry.regions.Keys;
  }

  ghost predicate IsRun(p: Pool, steps: seq<Step>)
    decreases |steps|
  {
    steps == [] || (Allowed(p, steps[0]) && IsRun(Next(p, steps[0]), steps[1..]))
  }

  ghost function After(p: Pool, steps: seq<Step>): (r: Pool)
    decreases |steps|
  {
    if steps == [] then p else After(Next(p, steps[0]), steps[1..])
  }

  /** Over every sequence of calls, and of other uses of the registry, the allocator's invariant holds. */
  lemma {:induction false} RunOk(p: Pool, steps: seq<Step>)
    requires Inv(p) && IsRun(p, steps)
    ensures Inv(After(p, steps))
    decreases |steps|
  {
    if steps == [] {
    } else {
      StepOk(p, steps[0]);
      RunOk(Next(p, steps[0]), steps[1..]);
    }
  }

  // ----- Buffers are reused in the order in which they came back -----

  /** The keys that acquisitions of a run take from those known already, in order. */
  ghost function Reused(p: Pool, steps: seq<Step>): (keys: seq<string>)
    decreases |steps|
  {
    if steps == [] then [] else
      (if steps[0].AcquireStep? && Acquire(p).1.Ok? && Acquire(p).1.value in p.known then [Acquire(p).1.value] else [])
      + Reused(Next(p, steps[0]), steps[1..])
  }

  /** The handed-out keys that a run releases, in order. */
  ghost function Returned(p: Pool, steps: seq<Step>): (keys: seq<string>)
    decreases |steps|
  {
    if steps == [] then [] else
      (if steps[0].ReleaseStep? && steps[0].key in p.out then [steps[0].key] else [])
      + Returned(Next(p, steps[0]), steps[1..])
  }

  lemma AcquireOrder(p: Pool)
    requires Inv(p) && p.registry.issued < TWO_64
    ensures
      var (r, key) := Acquire(p);
      && key.Ok? && (key.value in p.known <==> p.free != [])
      && (if p.free == [] then r.free == [] else p.free == [key.value] + r.free)
  {
    AcquireOk(p);
    if p.free == [] {
      RegisterIsFresh(p.registry, Zeroes(p.size));
    } else {
      assert p.free[0] in p.free;
    }
  }

  lemma ReleaseOrder(p: Pool, key: string)
    requires Inv(p)
    ensures Release(p, key).0.free == if key in p.out then p.free + [key] else p.free
  {
  }

  /** One step: what it takes from the front and gives to the back. */
  lemma ReuseStep(p: Pool, steps: seq<Step>) returns (took: seq<string>, gave: seq<string>)
    requires Inv(p) && steps != [] && Allowed(p, steps[0])
    ensures took + Next(p, steps[0]).free == p.free + gave
    ensures Reused(p, steps) == took + Reused(Next(p, steps[0]), steps[1..])
    ensures Returned(p, steps) == gave + Returned(Next(p, steps[0]), steps[1..])
  {
    took, gave := [], [];
    match steps[0]
    case AcquireStep =>
      AcquireOrder(p);
      if p.free != [] { took := [p.free[0]]; }
    case ReleaseStep(key) =>
      ReleaseOrder(p, key);
      if key in p.out { gave := [key]; }
    case _ =>
  }

  lemma QueueAlgebra(took: seq<string>, gave: seq<string>, free: seq<string>, next: seq<string>,
                     reused: seq<string>, returned: seq<string>, left: seq<string>)
    requires took + next == free + gave && reused + left == next + returned
    ensures (took + reused) + left == free + (gave + returned)
  {
    assert (took + reused) + left == took + (next + returned) == (took + next) + returned;
  }

  /** First in, first out: what is reused, followed by what is free, is what was free, followed by what came back. */
  lemma {:induction false} ReuseOrder(p: Pool, steps: seq<Step>)
    requires Inv(p) && IsRun(p, steps)
    ensures Reused(p, steps) + After(p, steps).free == p.free + Returned(p, steps)
    decreases |steps|
  {
    if steps == [] {
    } else {
      var r := Next(p, steps[0]);
      StepOk(p, steps[0]);
      ReuseOrder(r, steps[1..]);
      var took, gave := ReuseStep(p, steps);
      QueueAlgebra(took, gave, p.free, r.free, Reused(r, steps[1..]), Returned(r, steps[1..]), After(p, steps).free);
    }
  }

  /** `n` buffers, all free. */
  ghost predicate Unused(p: Pool, size: nat, n: nat) {
    Inv(p) && p.out == {} && p.peak == 0 && p.buffers == n && p.size == size
  }

  lemma EmptyIsUnused(registry: Registry, size: nat) returns (p: Pool)
    requires AllIssued(registry)
    ensures p == NewPool(registry, size, 0) && Unused(p, size, 0) && p.registry == registry
  {
    p := NewPool(registry, size, 0);
  }

  lemma AddBufferOk(p: Pool, size: nat, n: nat) returns (r: Pool)
    requires Unused(p, size, n) && p.registry.issued < TWO_64
    ensures r == AddBuffer(p) && Unused(r, size, n + 1) && r.registry.issued == p.registry.issued + 1
  {
    r := AddBuffer(p);
    RegisterIsFresh(p.registry, Zeroes(p.size));
    var key := KeyOf(p.registry.issued + 1);
    assert key !in p.known;
    PushFree(p.free, p.known, p.out, key);
  }

  lemma {:induction false} FillOne(registry: Registry, size: nat, n: nat, before: Pool) returns (p: Pool)
    requires before == NewPool(registry, size, n) && Unused(before, size, n) && before.registry.issued < TWO_64
    ensures p == NewPool(registry, size, n + 1) && Unused(p, size, n + 1)
    ensures p.registry.issued == before.registry.issued + 1
  {
    p := AddBufferOk(before, size, n);
  }

  lemma {:induction false} FilledIssues(registry: Registry, size: nat, n: nat)
    ensures NewPool(registry, size, n).registry.issued == registry.issued + n
  {
    if n == 0 {
    } else {
      FilledIssues(registry, size, n - 1);
    }
  }

  ghost function UnusedAfter(registry: Registry, size: nat): (p: nat -> bool) {
    (n: nat) => Unused(NewPool(registry, size, n), size, n)
  }

  lemma FillStep(registry: Registry, size: nat, n: nat)
    requires registry.issued + n < TWO_64 && UnusedAfter(registry, size)(n)
    ensures UnusedAfter(registry, size)(n + 1)
  {
    FilledIssues(registry, size, n);
    var p := FillOne(registry, size, n, NewPool(registry, size, n));
  }

  lemma FilledOk(registry: Registry, size: nat, n: nat)
    requires registry.issued + n <= TWO_64 && AllIssued(registry)
    ensures UnusedAfter(registry, size)(n)
  {
    var p := EmptyIsUnused(registry, size);
    forall k: nat | k < n && UnusedAfter(registry, size)(k) ensures UnusedAfter(registry, size)(k + 1) {
      FillStep(registry, size, k);
    }
    Induct(UnusedAfter(registry, size), n);
  }

  lemma {:induction false} Induct(p: nat -> bool, n: nat)
    requires p(0) && forall k: nat :: k < n && p(k) ==> p(k + 1)
    ensures p(n)
  {
    if n == 0 {
    } else {
      Induct(p, n - 1);
    }
  }

  /** A new pool satisfies the invariant: exactly the configured buffers, all free. */
  lemma NewPoolOk(registry: Registry, buffers: nat, size: nat)
    requires registry.issued + buffers <= TWO_64 && AllIssued(registry)
    ensures
      var p := NewPool(registry, size, buffers);
      Inv(p) && p.out == {} && |p.free| == buffers
  {
    FilledOk(registry, size, buffers);
    KnownSize(NewPool(registry, size, buffers));
  }

  /** Releasing what was acquired makes the buffer available again, and nothing else changes hands. */
  lemma AcquireThenRelease(p: Pool)
    requires Inv(p) && p.registry.issued < TWO_64
    ensures
      var (held, key) := Acquire(p);
      key.Ok? && Release(held, key.value).0.out == p.out && key.value in Release(held, key.value).0.free
  {
    AcquireOk(p);
    var (held, key) := Acquire(p);
    ReleaseOk(held, key.value);
  }
}
