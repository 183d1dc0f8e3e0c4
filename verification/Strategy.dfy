/** Which of two workers should receive the next task. */
module Strategy {
  import opened Wrappers
  import opened Machine
  import opened Model

  /** Negative: the first worker is the better choice; zero: equivalent. */
  type Comparison = (Node, Node) -> int

  datatype Load = Load(runningTasks: int, capacity: int, available: int)

  function SnapshotNodeLoad(node: Option<Node>): (r: Load)
    ensures r.runningTasks >= 0 && r.capacity >= 1 && r.available >= 0
  {
    if node.None? then Load(0, 1, 0) else
      var running := Max(0, node.value.runningTasks);
      var capacity := if node.value.capacity <= 0 then 1 else node.value.capacity;
      Load(running, capacity, Max(0, capacity - running))
  }

  function CompareAscending(left: int, right: int): (r: int) {
    if left < right then -1 else if left > right then 1 else 0
  }

  function CompareDescending(left: int, right: int): (r: int) { CompareAscending(right, left) }

  /** Cross-multiplied in 64-bit signed arithmetic. */
  function CompareLoadRatio(left: Load, right: Load): (r: int) {
    CompareAscending(
      WrapInt64(left.runningTasks * right.capacity),
      WrapInt64(right.runningTasks * left.capacity))
  }

  function CompareLoads(left: Load, right: Load): (r: int) {
    if CompareLoadRatio(left, right) != 0 then CompareLoadRatio(left, right)
    else if CompareDescending(left.available, right.available) != 0 then
      CompareDescending(left.available, right.available)
    else CompareAscending(left.runningTasks, right.runningTasks)
  }

  function CompareNodes(left: Option<Node>, right: Option<Node>): (r: int) {
    if left.None? && right.None? then 0
    else if left.None? then 1
    else if right.None? then -1
    else CompareLoads(SnapshotNodeLoad(left), SnapshotNodeLoad(right))
  }

  /** The least-loaded strategy, on the workers the scheduler passes it. */
  function LeastLoaded(left: Node, right: Node): (r: int) { CompareNodes(Some(left), Some(right)) }

  // ----- The reference: load as a fraction of capacity -----

  ghost function Ratio(l: Load): (r: real)
    requires l.capacity >= 1
  {
    l.runningTasks as real / l.capacity as real
  }

  predicate Snapshot(l: Load) {
    l.runningTasks >= 0 && l.capacity >= 1 && l.available == Max(0, l.capacity - l.runningTasks)
  }

  /** The largest value whose square a 64-bit signed register holds. */
  const LARGEST_SAFE: int := 3037000499

  predicate SafeLoad(l: Load, bound: int) {
    Snapshot(l) && l.runningTasks <= bound && l.capacity <= bound
  }

  lemma ProductBound(x: int, y: int, b: int)
    requires 0 <= x <= b && 0 <= y <= b
    ensures 0 <= x * y <= b * b
  {
    assert x * y <= b * y;
    assert b * y <= b * b;
  }

  lemma CrossMultiply(a: int, c: int, b: int, d: int)
    requires c >= 1 && d >= 1
    ensures a * d < b * c <==> a as real / c as real < b as real / d as real
  {
    var x, y := a as real / c as real, b as real / d as real;
    var cr, dr := c as real, d as real;
    assert x * cr == a as real && y * dr == b as real;
    assert (a * d) as real == x * cr * dr;
    assert (b * c) as real == y * dr * cr;
    var p := cr * dr;
    assert p > 0.0;
    assert x * cr * dr == x * p && y * dr * cr == y * p;
    OrderTimesPositive(x, y, p);
  }

  lemma OrderTimesPositive(x: real, y: real, p: real)
    requires p > 0.0
    ensures x * p < y * p <==> x < y
  {
    if x < y {
      assert (y - x) * p > 0.0;
    } else {
      assert (x - y) * p >= 0.0;
    }
  }

  /** Both 64-bit products of a comparison are exact. */
  predicate Fits(l: Load, r: Load) {
    && Snapshot(l) && Snapshot(r)
    && l.runningTasks * r.capacity < TWO_63 && r.runningTasks * l.capacity < TWO_63
  }

  lemma SafeLoadsFit(l: Load, r: Load)
    requires SafeLoad(l, LARGEST_SAFE) && SafeLoad(r, LARGEST_SAFE)
    ensures Fits(l, r)
  {
    ProductBound(l.runningTasks, r.capacity, LARGEST_SAFE);
    ProductBound(r.runningTasks, l.capacity, LARGEST_SAFE);
  }

  lemma ProductNonnegative(x: int, y: int)
    requires x >= 0 && y >= 0
    ensures x * y >= 0
  {
  }

  /** Without overflow the cross-multiplied comparison orders loads by their ratio. */
  lemma RatioCompared(l: Load, r: Load)
    requires Fits(l, r)
    ensures CompareLoadRatio(l, r) < 0 <==> Ratio(l) < Ratio(r)
    ensures CompareLoadRatio(l, r) > 0 <==> Ratio(l) > Ratio(r)
    ensures CompareLoadRatio(l, r) == CompareAscending(l.runningTasks * r.capacity, r.runningTasks * l.capacity)
  {
    ProductNonnegative(l.runningTasks, r.capacity);
    ProductNonnegative(r.runningTasks, l.capacity);
    CrossMultiply(l.runningTasks, l.capacity, r.runningTasks, r.capacity);
    CrossMultiply(r.runningTasks, r.capacity, l.runningTasks, l.capacity);
  }

  /** `LARGEST_SAFE` is exact: beyond it the 64-bit products overflow and misorder two loads. */
  lemma SafeBoundIff(bound: int)
    ensures (forall l: Load, r: Load :: SafeLoad(l, bound) && SafeLoad(r, bound) ==>
               (CompareLoadRatio(l, r) < 0 <==> Ratio(l) < Ratio(r)))
            <==> bound <= LARGEST_SAFE
  {
    if bound <= LARGEST_SAFE {
      forall l: Load, r: Load | SafeLoad(l, bound) && SafeLoad(r, bound)
        ensures CompareLoadRatio(l, r) < 0 <==> Ratio(l) < Ratio(r)
      {
        SafeLoadsFit(l, r);
        RatioCompared(l, r);
      }
    } else {
      var big := LARGEST_SAFE + 1;
      var l, r := Load(big, 1, 0), Load(1, big, big - 1);
      assert SafeLoad(l, bound) && SafeLoad(r, bound);
      assert big * big == 9223372037000250000;
      assert CompareLoadRatio(l, r) < 0;
      CrossMultiply(1, big, big, 1);
      assert Ratio(r) < Ratio(l);
    }
  }

  /** Swapping the arguments flips the sign, in range or not. */
  lemma CompareAntisymmetric(l: Load, r: Load)
    ensures CompareLoads(l, r) == -CompareLoads(r, l)
  {
  }

  /** Better: a lower ratio; then more free slots; then fewer running tasks. */
  ghost predicate Preferred(l: Load, r: Load)
    requires l.capacity >= 1 && r.capacity >= 1
  {
    || Ratio(l) < Ratio(r)
    || (Ratio(l) == Ratio(r) && l.available > r.available)
    || (Ratio(l) == Ratio(r) && l.available == r.available && l.runningTasks < r.runningTasks)
  }

  lemma ComparePrefers(l: Load, r: Load)
    requires Fits(l, r)
    ensures CompareLoads(l, r) < 0 <==> Preferred(l, r)
  {
    RatioCompared(l, r);
  }

  lemma CompareTransitive(a: Load, b: Load, c: Load)
    requires Fits(a, b) && Fits(b, c) && Fits(a, c)
    requires CompareLoads(a, b) <= 0 && CompareLoads(b, c) <= 0
    ensures CompareLoads(a, c) <= 0
  {
    ComparePrefers(b, a);
    ComparePrefers(c, b);
    ComparePrefers(c, a);
    CompareAntisymmetric(a, b);
    CompareAntisymmetric(b, c);
    CompareAntisymmetric(a, c);
  }

  /** Equal ratios and equal free slots leave nothing to compare while a slot is free. */
  lemma ThirdTieBreakIdle(l: Load, r: Load)
    requires Fits(l, r)
    requires CompareLoadRatio(l, r) == 0 && l.available == r.available
    ensures l.runningTasks < l.capacity ==> l == r
    ensures l.runningTasks == r.runningTasks ==> l == r
  {
    RatioCompared(l, r);
    var x, c, y, d := l.runningTasks, l.capacity, r.runningTasks, r.capacity;
    assert x * d == y * c;
    if x < c {
      var a := c - x;
      assert d == y + a && c == x + a;
      assert x * (y + a) == y * (x + a);
      assert x * a == y * a;
      CancelFactor(x, y, a);
    } else if x == y {
      CancelFactor(d, c, x);
    }
  }

  lemma CancelFactor(x: int, y: int, a: int)
    requires a > 0 && x * a == y * a
    ensures x == y
  {
    assert (x - y) * a == 0;
  }

  /** Two loads tie exactly when they are the same clamped load. */
  lemma CompareZeroIff(l: Load, r: Load)
    requires Fits(l, r)
    ensures CompareLoads(l, r) == 0 <==> l == r
  {
    if CompareLoads(l, r) == 0 { ThirdTieBreakIdle(l, r); }
  }

  /** Among full workers the third tie-break does decide. */
  lemma ThirdTieBreakDecidesWhenFull()
    ensures CompareLoadRatio(Load(2, 1, 0), Load(4, 2, 0)) == 0
    ensures CompareLoads(Load(2, 1, 0), Load(4, 2, 0)) < 0
  {
  }

  /** A comparison the selection scan can trust: a total preorder on `nodes`. */
  ghost predicate PreorderOn(compare: Comparison, nodes: set<Node>) {
    && (forall a, b {:trigger compare(a, b)} ::
          a in nodes && b in nodes ==> (compare(a, b) < 0 <==> compare(b, a) > 0))
    && (forall a, b, c {:trigger compare(a, b), compare(b, c)} ::
          a in nodes && b in nodes && c in nodes && compare(a, b) <= 0 && compare(b, c) <= 0 ==>
          compare(a, c) <= 0)
  }

  /** The largest capacity for which comparing workers that still have a free slot cannot overflow. */
  const LARGEST_CAPACITY: int := 3037000500

  predicate HasSlot(n: Node) { 0 <= n.runningTasks < n.capacity }

  lemma FreeWorkersFit(a: Node, b: Node)
    requires HasSlot(a) && HasSlot(b) && a.capacity <= LARGEST_CAPACITY && b.capacity <= LARGEST_CAPACITY
    ensures Fits(SnapshotNodeLoad(Some(a)), SnapshotNodeLoad(Some(b)))
  {
    assert (LARGEST_CAPACITY - 1) * LARGEST_CAPACITY < TWO_63;
    assert a.runningTasks * b.capacity <= (LARGEST_CAPACITY - 1) * LARGEST_CAPACITY by {
      ScaledBound(a.runningTasks, b.capacity, LARGEST_CAPACITY - 1, LARGEST_CAPACITY);
    }
    assert b.runningTasks * a.capacity <= (LARGEST_CAPACITY - 1) * LARGEST_CAPACITY by {
      ScaledBound(b.runningTasks, a.capacity, LARGEST_CAPACITY - 1, LARGEST_CAPACITY);
    }
  }

  lemma ScaledBound(x: int, y: int, p: int, q: int)
    requires 0 <= x <= p && 0 <= y <= q
    ensures x * y <= p * q
  {
    assert x * y <= p * y;
    assert p * y <= p * q;
  }

  lemma LeastLoadedIsPreorder(nodes: set<Node>)
    requires forall n :: n in nodes ==> HasSlot(n) && n.capacity <= LARGEST_CAPACITY
    ensures PreorderOn(LeastLoaded, nodes)
  {
    forall a, b | a in nodes && b in nodes
      ensures LeastLoaded(a, b) < 0 <==> LeastLoaded(b, a) > 0
    {
      CompareAntisymmetric(SnapshotNodeLoad(Some(a)), SnapshotNodeLoad(Some(b)));
    }
    forall a, b, c | a in nodes && b in nodes && c in nodes && LeastLoaded(a, b) <= 0 && LeastLoaded(b, c) <= 0
      ensures LeastLoaded(a, c) <= 0
    {
      FreeWorkersFit(a, b);
      FreeWorkersFit(b, c);
      FreeWorkersFit(a, c);
      CompareTransitive(SnapshotNodeLoad(Some(a)), SnapshotNodeLoad(Some(b)), SnapshotNodeLoad(Some(c)));
    }
  }

  /** A worker that is not worse has no higher load ratio. */
  lemma NotWorseRatio(a: Node, b: Node)
    requires HasSlot(a) && HasSlot(b) && a.capacity <= LARGEST_CAPACITY && b.capacity <= LARGEST_CAPACITY
    requires LeastLoaded(a, b) <= 0
    ensures a.runningTasks * b.capacity <= b.runningTasks * a.capacity
  {
    FreeWorkersFit(a, b);
    RatioCompared(SnapshotNodeLoad(Some(a)), SnapshotNodeLoad(Some(b)));
  }

  lemma StrictScale(x: int, y: int, p: int)
    requires p > 0
    ensures x * p < y * p <==> x < y
  {
  }

  lemma EqualCapacityLoads(l: Load, r: Load)
    requires Fits(l, r) && l.capacity == r.capacity
    ensures CompareLoads(l, r) < 0 <==> l.runningTasks < r.runningTasks
    ensures CompareLoads(l, r) == 0 <==> l.runningTasks == r.runningTasks
  {
    RatioCompared(l, r);
    StrictScale(l.runningTasks, r.runningTasks, l.capacity);
    StrictScale(r.runningTasks, l.runningTasks, l.capacity);
  }

  /** At equal capacity the comparison is by running tasks. */
  lemma EqualCapacityCompare(a: Node, b: Node)
    requires HasSlot(a) && HasSlot(b) && a.capacity == b.capacity <= LARGEST_CAPACITY
    ensures LeastLoaded(a, b) < 0 <==> a.runningTasks < b.runningTasks
    ensures LeastLoaded(a, b) == 0 <==> a.runningTasks == b.runningTasks
  {
    FreeWorkersFit(a, b);
    EqualCapacityLoads(SnapshotNodeLoad(Some(a)), SnapshotNodeLoad(Some(b)));
  }
}
