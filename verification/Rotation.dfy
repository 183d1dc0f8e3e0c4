/** Rotation among equally loaded workers, within one dispatch and over successive submissions. */
module Rotation {
  import opened Machine
  import opened Order
  import opened Model
  import opened Strategy
  import opened Cluster
  import opened Invariants
  import opened Counts
  import opened Fairness
  import opened Calls

  /** Workers in the order in which the next scan meets them. */
  ghost function ScanOrder(s: State): (ids: seq<string>)
    ensures |ids| == |s.nodeOrder|
    ensures forall o :: 0 <= o < |ids| ==> ids[o] == s.nodeOrder[Visited(s, o)]
  {
    seq(|s.nodeOrder|, o requires 0 <= o < |s.nodeOrder| => s.nodeOrder[Visited(s, o)])
  }

  predicate Light(s: State, id: string, load: int) {
    id in s.nodes && Eligible(s.nodes[id]) && s.nodes[id].runningTasks == load
  }

  function LightIn(s: State, ids: seq<string>, load: int): (r: seq<string>) {
    if ids == [] then []
    else (if Light(s, ids[0], load) then [ids[0]] else []) + LightIn(s, ids[1..], load)
  }

  /** The eligible workers with the given load, in scan order. */
  ghost function LightWorkers(s: State, load: int): (r: seq<string>) { LightIn(s, ScanOrder(s), load) }

  /** Every eligible worker has one capacity, and runs `load` tasks or one more. */
  ghost predicate Level(s: State, load: int, capacity: int) {
    0 <= load < capacity <= LARGEST_CAPACITY
    && forall id :: id in s.nodes && Eligible(s.nodes[id]) ==>
         s.nodes[id].capacity == capacity && load <= s.nodes[id].runningTasks <= load + 1
  }

  lemma {:induction false} LightConcat(s: State, a: seq<string>, b: seq<string>, load: int)
    ensures LightIn(s, a + b, load) == LightIn(s, a, load) + LightIn(s, b, load)
  {
    if a == [] {
      assert a + b == b;
    } else {
      assert (a + b)[1..] == a[1..] + b;
      LightConcat(s, a[1..], b, load);
    }
  }

  lemma {:induction false} LightNone(s: State, ids: seq<string>, load: int)
    requires forall id :: id in ids ==> !Light(s, id, load)
    ensures LightIn(s, ids, load) == []
  {
    if ids == [] {
    } else {
      assert ids[0] in ids;
      assert forall id :: id in ids[1..] ==> id in ids;
      LightNone(s, ids[1..], load);
    }
  }

  lemma {:induction false} LightSame(s: State, r: State, ids: seq<string>, load: int)
    requires forall id :: id in ids ==> (Light(s, id, load) <==> Light(r, id, load))
    ensures LightIn(s, ids, load) == LightIn(r, ids, load)
  {
    if ids == [] {
    } else {
      assert ids[0] in ids;
      assert forall id :: id in ids[1..] ==> id in ids;
      LightSame(s, r, ids[1..], load);
    }
  }

  lemma {:induction false} LightMembers(s: State, ids: seq<string>, load: int, id: string)
    ensures id in LightIn(s, ids, load) <==> id in ids && Light(s, id, load)
  {
    if ids == [] {
    } else {
      assert ids == [ids[0]] + ids[1..];
      LightMembers(s, ids[1..], load, id);
    }
  }

  lemma {:induction false} LightDistinct(s: State, ids: seq<string>, load: int)
    requires Distinct(ids)
    ensures Distinct(LightIn(s, ids, load))
  {
    if ids == [] {
    } else {
      LightDistinct(s, ids[1..], load);
      LightMembers(s, ids[1..], load, ids[0]);
    }
  }

  /** Against the eligible worker at offset `x`, the selected one runs no more, and fewer if it is met later. */
  lemma SelectedRunsFewest(c: Config, s: State, load: int, capacity: int, x: nat)
    requires Valid(s) && UsesLeastLoaded(c) && Level(s, load, capacity) && CapacitiesOfEligible(s)
    requires Select(c, s).Some? && x < |s.nodeOrder| && EligibleAt(s, Visited(s, x))
    ensures
      var b := Select(c, s).value;
      var mine, other := NodeAt(s, b).runningTasks, NodeAt(s, Visited(s, x)).runningTasks;
      mine <= other && (x < OffsetOf(s, b) ==> mine < other)
  {
    LeastLoadedIsPreorder(EligibleNodes(s));
    SelectIsFirstMinimum(c, s);
    EqualCapacityCompare(NodeAt(s, Select(c, s).value), NodeAt(s, Visited(s, x)));
  }

  /** The first light worker in scan order is selected. */
  lemma SelectsFirstLight(c: Config, s: State, load: int, capacity: int)
    requires Valid(s) && UsesLeastLoaded(c) && Level(s, load, capacity)
    requires CapacitiesOfEligible(s) && LightWorkers(s, load) != []
    ensures Select(c, s).Some?
    ensures
      var o := OffsetOf(s, Select(c, s).value);
      && ScanOrder(s)[o] == s.nodeOrder[Select(c, s).value] && Light(s, ScanOrder(s)[o], load)
      && forall id :: id in ScanOrder(s)[..o] ==> !Light(s, id, load)
  {
    var x := FirstLightOffset(s, load);
    SelectNoneIff(c, s);
    assert EligibleAt(s, Visited(s, x));
    var b := Select(c, s).value;
    var o := OffsetOf(s, b);
    ScanIsBijective(s, b, x);
    SelectedRunsFewest(c, s, load, capacity, x);
    assert Light(s, s.nodeOrder[b], load);
    forall id | id in ScanOrder(s)[..o] ensures !Light(s, id, load) {
      var y: nat :| y < o && ScanOrder(s)[y] == id;
      if Light(s, id, load) { SelectedRunsFewest(c, s, load, capacity, y); }
    }
  }

  lemma FirstLightOffset(s: State, load: int) returns (x: nat)
    requires LightWorkers(s, load) != []
    ensures x < |s.nodeOrder| && Light(s, s.nodeOrder[Visited(s, x)], load)
  {
    var first := LightWorkers(s, load)[0];
    LightMembers(s, ScanOrder(s), load, first);
    assert first in ScanOrder(s);
    x :| x < |ScanOrder(s)| && ScanOrder(s)[x] == first;
  }

  ghost predicate CapacitiesOfEligible(s: State) {
    forall n :: n in EligibleNodes(s) ==> HasSlot(n) && n.capacity <= LARGEST_CAPACITY
  }

  lemma LevelIsComparable(s: State, load: int, capacity: int)
    requires Valid(s) && Level(s, load, capacity)
    ensures CapacitiesOfEligible(s)
  {
  }

  /** Visiting from just past index `b` continues the old scan, then wraps around. */
  lemma VisitedAfter(s: State, r: State, b: nat, x: nat)
    requires b < |s.nodeOrder| && x < |s.nodeOrder| && r.nodeOrder == s.nodeOrder && r.nextNodeIndex == Successor(s, b)
    ensures
      var o, n := OffsetOf(s, b) + 1, |s.nodeOrder|;
      Visited(r, x) == Visited(s, if o + x < n then o + x else o + x - n)
  {
    assert Start(r) == Successor(s, b);
  }

  /** Assigning moves the scan just past the chosen worker. */
  lemma ScanRotates(c: Config, s: State, id: string, b: nat, now: Time)
    requires Valid(s) && IsPending(s, id) && b < |s.nodeOrder| && EligibleAt(s, b)
    ensures
      var o := OffsetOf(s, b) + 1;
      ScanOrder(Assign(c, s, id, b, now)) == ScanOrder(s)[o..] + ScanOrder(s)[..o]
  {
    var r, o := Assign(c, s, id, b, now), OffsetOf(s, b) + 1;
    var scan, rotated := ScanOrder(s), ScanOrder(r);
    forall x | 0 <= x < |s.nodeOrder| ensures rotated[x] == (scan[o..] + scan[..o])[x] {
      VisitedAfter(s, r, b, x);
    }
  }

  lemma LightSplit(s: State, o: nat, load: int)
    requires o < |ScanOrder(s)| && Light(s, ScanOrder(s)[o], load)
    requires forall id :: id in ScanOrder(s)[..o] ==> !Light(s, id, load)
    ensures LightWorkers(s, load) == [ScanOrder(s)[o]] + LightIn(s, ScanOrder(s)[o + 1..], load)
  {
    var scan := ScanOrder(s);
    var w, before, after := scan[o], scan[..o], scan[o + 1..];
    assert scan == before + ([w] + after);
    LightConcat(s, before, [w] + after, load);
    LightNone(s, before, load);
    assert ([w] + after)[1..] == after;
  }

  lemma LightChange(c: Config, s: State, id: string, b: nat, now: Time, load: int, x: string)
    requires Valid(s) && IsPending(s, id) && b < |s.nodeOrder| && Light(s, s.nodeOrder[b], load)
    ensures Light(Assign(c, s, id, b, now), x, load) <==> Light(s, x, load) && x != s.nodeOrder[b]
  {
  }

  /** After the assignment the workers up to and including the chosen one are no longer light. */
  lemma LightAfter(c: Config, s: State, id: string, b: nat, now: Time, load: int)
    requires Valid(s) && IsPending(s, id) && b < |s.nodeOrder| && EligibleAt(s, b)
    requires Light(s, s.nodeOrder[b], load)
    requires forall x :: x in ScanOrder(s)[..OffsetOf(s, b)] ==> !Light(s, x, load)
    ensures LightWorkers(Assign(c, s, id, b, now), load) == LightIn(s, ScanOrder(s)[OffsetOf(s, b) + 1..], load)
  {
    var r, scan, o := Assign(c, s, id, b, now), ScanOrder(s), OffsetOf(s, b);
    ScanIsBijective(s, b, 0);
    ScanRotates(c, s, id, b, now);
    ScanDistinct(s);
    forall x ensures Light(r, x, load) <==> Light(s, x, load) && x != scan[o] {
      LightChange(c, s, id, b, now, load, x);
    }
    LightRotated(s, r, scan, o, load);
  }

  lemma LightRotated(s: State, r: State, scan: seq<string>, o: nat, load: int)
    requires Distinct(scan) && o < |scan|
    requires forall x :: Light(r, x, load) <==> Light(s, x, load) && x != scan[o]
    requires forall x :: x in scan[..o] ==> !Light(s, x, load)
    ensures LightIn(r, scan[o + 1..] + scan[..o + 1], load) == LightIn(s, scan[o + 1..], load)
  {
    var after, upTo := scan[o + 1..], scan[..o + 1];
    LightConcat(r, after, upTo, load);
    assert scan[o] !in after;
    LightSame(s, r, after, load);
    assert upTo == scan[..o] + [scan[o]];
    LightNone(r, upTo, load);
  }

  lemma AssignKeepsLevel(c: Config, s: State, id: string, b: nat, now: Time, load: int, capacity: int)
    requires Valid(s) && FreshAt(c, s, now) && IsPending(s, id) && b < |s.nodeOrder| && EligibleAt(s, b)
    requires Level(s, load, capacity) && Light(s, s.nodeOrder[b], load)
    ensures Level(Assign(c, s, id, b, now), load, capacity)
  {
  }

  lemma AssignPopsLight(c: Config, s: State, id: string, now: Time, load: int, capacity: int)
    requires Valid(s) && FreshAt(c, s, now) && IsPending(s, id)
    requires UsesLeastLoaded(c) && Level(s, load, capacity) && LightWorkers(s, load) != []
    ensures Select(c, s).Some?
    ensures
      var r := Assign(c, s, id, Select(c, s).value, now);
      && s.nodeOrder[Select(c, s).value] == LightWorkers(s, load)[0]
      && LightWorkers(r, load) == LightWorkers(s, load)[1..] && Level(r, load, capacity)
  {
    LevelIsComparable(s, load, capacity);
    SelectsFirstLight(c, s, load, capacity);
    var b := Select(c, s).value;
    LightSplit(s, OffsetOf(s, b), load);
    LightAfter(c, s, id, b, now, load);
    AssignKeepsLevel(c, s, id, b, now, load, capacity);
  }

  lemma ScanDistinct(s: State)
    requires Valid(s)
    ensures Distinct(ScanOrder(s)) && forall id :: id in ScanOrder(s) <==> id in s.nodes
  {
    forall id | id in s.nodes ensures id in ScanOrder(s) {
      var i: nat :| i < |s.nodeOrder| && s.nodeOrder[i] == id;
      ScanIsBijective(s, i, 0);
      assert ScanOrder(s)[OffsetOf(s, i)] == id;
    }
  }

  /** The worker a dispatched task went to. */
  ghost function WorkerOf(s: State, id: string): (w: string) {
    if id in s.tasks then s.tasks[id].assignedWorker else ""
  }

  lemma FirstTakesTurn(c: Config, s: State, q: seq<string>, now: Time)
    requires QueueReady(c, s, q, now) && q != [] && Select(c, s).Some?
    ensures WorkerOf(DispatchQueue(c, s, q, now), q[0]) == s.nodeOrder[Select(c, s).value]
  {
    QueueTurn(c, s, q, now);
    assert q[0] !in q[1..];
    var w := s.nodeOrder[Select(c, s).value];
    assert NodeOk(w, s.nodes[w]);
    DispatchLeavesOthers(c, PlaceFirst(c, s, q, now), q[1..], now, q[0]);
  }

  lemma {:induction false} DispatchLeavesOthers(c: Config, s: State, q: seq<string>, now: Time, id: string)
    requires id in s.tasks && id !in q
    ensures id in DispatchQueue(c, s, q, now).tasks && DispatchQueue(c, s, q, now).tasks[id] == s.tasks[id]
    decreases |q|
  {
    if q == [] || !IsPending(s, q[0]) || Select(c, s).None? {
    } else {
      assert q[0] in q;
      assert forall x :: x in q[1..] ==> x in q;
      DispatchLeavesOthers(c, Assign(c, s, q[0], Select(c, s).value, now), q[1..], now, id);
    }
  }

  // ----- The cycle -----

  /** In scan order no worker running one more comes before one running `load`. */
  ghost predicate LightFirst(s: State, scan: seq<string>, load: int, heavy: int) {
    forall i, j :: 0 <= i < j < |scan| && Light(s, scan[j], load) ==> !Light(s, scan[i], heavy)
  }

  lemma HeavyChange(c: Config, s: State, id: string, b: nat, now: Time, load: int, capacity: int, x: string)
    requires Valid(s) && FreshAt(c, s, now) && IsPending(s, id) && b < |s.nodeOrder|
    requires Level(s, load, capacity) && load + 1 < capacity && Light(s, s.nodeOrder[b], load)
    ensures Light(Assign(c, s, id, b, now), x, load + 1) <==> Light(s, x, load + 1) || x == s.nodeOrder[b]
  {
  }

  lemma HeavyChanges(c: Config, s: State, id: string, b: nat, now: Time, load: int, capacity: int, heavy: int)
    requires Valid(s) && FreshAt(c, s, now) && IsPending(s, id) && b < |s.nodeOrder| && heavy == load + 1
    requires Level(s, load, capacity) && heavy < capacity && Light(s, s.nodeOrder[b], load)
    ensures
      var r := Assign(c, s, id, b, now);
      forall x :: Light(r, x, heavy) <==> Light(s, x, heavy) || x == s.nodeOrder[b]
  {
    var r := Assign(c, s, id, b, now);
    forall x ensures Light(r, x, heavy) <==> Light(s, x, heavy) || x == s.nodeOrder[b] {
      HeavyChange(c, s, id, b, now, load, capacity, x);
    }
  }

  lemma HeavyRotated(s: State, r: State, scan: seq<string>, o: nat, load: int)
    requires Distinct(scan) && o < |scan| && !Light(s, scan[o], load)
    requires forall x :: Light(r, x, load) <==> Light(s, x, load) || x == scan[o]
    requires forall x :: x in scan[..o] ==> !Light(s, x, load)
    ensures LightIn(r, scan[o + 1..] + scan[..o + 1], load) == LightIn(s, scan, load) + [scan[o]]
  {
    var before, w, after := scan[..o], scan[o], scan[o + 1..];
    assert scan == before + ([w] + after) && scan[..o + 1] == before + [w];
    LightConcat(s, before, [w] + after, load);
    LightConcat(s, [w], after, load);
    LightNone(s, before, load);
    LightNone(s, [w], load);
    LightConcat(r, after, before + [w], load);
    LightConcat(r, before, [w], load);
    assert w !in after && w !in before;
    LightSame(s, r, after, load);
    LightNone(r, before, load);
    assert [w][1..] == [];
  }

  lemma NoneBefore(s: State, scan: seq<string>, o: nat, load: int, heavy: int)
    requires o < |scan| && Light(s, scan[o], load) && LightFirst(s, scan, load, heavy)
    ensures forall x :: x in scan[..o] ==> !Light(s, x, heavy)
  {
  }

  /** The chosen worker joins those running one more, at the end of the scan. */
  lemma HeavyAfter(c: Config, s: State, id: string, b: nat, now: Time, load: int, capacity: int)
    requires Valid(s) && FreshAt(c, s, now) && IsPending(s, id) && b < |s.nodeOrder| && EligibleAt(s, b)
    requires Level(s, load, capacity) && load + 1 < capacity && Light(s, s.nodeOrder[b], load)
    requires LightFirst(s, ScanOrder(s), load, load + 1)
    ensures LightWorkers(Assign(c, s, id, b, now), load + 1) == LightWorkers(s, load + 1) + [s.nodeOrder[b]]
  {
    var r, scan, o := Assign(c, s, id, b, now), ScanOrder(s), OffsetOf(s, b);
    ScanIsBijective(s, b, 0);
    ScanRotates(c, s, id, b, now);
    ScanDistinct(s);
    var heavy := load + 1;
    assert scan[o] == s.nodeOrder[b];
    HeavyChanges(c, s, id, b, now, load, capacity, heavy);
    NoneBefore(s, scan, o, load, heavy);
    HeavyRotated(s, r, scan, o, heavy);
  }

  lemma LightFirstAfter(c: Config, s: State, id: string, b: nat, now: Time, load: int)
    requires Valid(s) && IsPending(s, id) && b < |s.nodeOrder| && EligibleAt(s, b)
    requires Light(s, s.nodeOrder[b], load) && LightFirst(s, ScanOrder(s), load, load + 1)
    requires forall x :: x in ScanOrder(s)[..OffsetOf(s, b)] ==> !Light(s, x, load)
    ensures
      var r := Assign(c, s, id, b, now);
      LightFirst(r, ScanOrder(r), load, load + 1)
  {
    var r, scan, o := Assign(c, s, id, b, now), ScanOrder(s), OffsetOf(s, b);
    ScanIsBijective(s, b, 0);
    ScanRotates(c, s, id, b, now);
    ScanDistinct(s);
    var heavy := load + 1;
    forall x ensures Light(r, x, load) <==> Light(s, x, load) && x != scan[o] {
      LightChange(c, s, id, b, now, load, x);
    }
    forall x | x != scan[o] ensures Light(r, x, heavy) <==> Light(s, x, heavy) {}
    LightFirstRotated(s, r, scan, o, load, heavy);
  }

  lemma LightFirstRotated(s: State, r: State, scan: seq<string>, o: nat, load: int, heavy: int)
    requires Distinct(scan) && o < |scan| && LightFirst(s, scan, load, heavy)
    requires forall x :: Light(r, x, load) <==> Light(s, x, load) && x != scan[o]
    requires forall x :: x != scan[o] ==> (Light(r, x, heavy) <==> Light(s, x, heavy))
    requires forall x :: x in scan[..o] ==> !Light(s, x, load)
    ensures LightFirst(r, scan[o + 1..] + scan[..o + 1], load, heavy)
  {
    var m := |scan| - o - 1;
    var rotated := scan[o + 1..] + scan[..o + 1];
    forall j | m <= j < |rotated| ensures !Light(r, rotated[j], load) {
      assert rotated[j] == scan[j - m];
      if j - m < o { assert scan[j - m] in scan[..o]; }
    }
    forall i, j | 0 <= i < j < |rotated| && Light(r, rotated[j], load) ensures !Light(r, rotated[i], heavy) {
      assert rotated[j] == scan[o + 1 + j] && rotated[i] == scan[o + 1 + i];
    }
  }

  /** The workers of `turn` share one capacity. The first `j` of them run one task more than `load`, the rest run
      `load`, and the scan meets them in the order `turn[j..] + turn[..j]`. */
  ghost predicate Cycle(s: State, turn: seq<string>, load: int, j: nat, capacity: int) {
    && j < |turn| && Level(s, load, capacity) && LightFirst(s, ScanOrder(s), load, load + 1)
    && LightWorkers(s, load) == turn[j..]
    && (load + 1 < capacity ==> LightWorkers(s, load + 1) == turn[..j])
  }

  /** One assignment goes to the worker whose turn it is, and moves the cycle on. */
  lemma CycleStep(c: Config, s: State, id: string, now: Time, turn: seq<string>, load: int, j: nat, capacity: int)
    returns (r: State)
    requires Valid(s) && FreshAt(c, s, now) && IsPending(s, id) && UsesLeastLoaded(c)
    requires Cycle(s, turn, load, j, capacity)
    ensures Select(c, s).Some? && s.nodeOrder[Select(c, s).value] == turn[j]
    ensures r == Assign(c, s, id, Select(c, s).value, now)
    ensures j + 1 < |turn| ==> Cycle(r, turn, load, j + 1, capacity)
    ensures j + 1 == |turn| && load + 1 < capacity ==> Cycle(r, turn, load + 1, 0, capacity)
  {
    AssignPopsLight(c, s, id, now, load, capacity);
    LevelIsComparable(s, load, capacity);
    SelectsFirstLight(c, s, load, capacity);
    var b := Select(c, s).value;
    r := Assign(c, s, id, b, now);
    LightFirstAfter(c, s, id, b, now, load);
    assert turn[j..][0] == turn[j] && turn[j..][1..] == turn[j + 1..];
    if load + 1 < capacity {
      HeavyAfter(c, s, id, b, now, load, capacity);
      assert turn[..j] + [turn[j]] == turn[..j + 1];
      if j + 1 == |turn| {
        AssignValid(c, s, id, b, now);
        NextRound(r, turn, load, capacity);
      }
    }
  }

  /** With nobody left at `load`, the next round starts. */
  lemma NextRound(s: State, turn: seq<string>, load: int, capacity: int)
    requires Valid(s) && Level(s, load, capacity) && load + 1 < capacity && turn != []
    requires LightWorkers(s, load) == [] && LightWorkers(s, load + 1) == turn
    ensures Cycle(s, turn, load + 1, 0, capacity)
  {
    ScanDistinct(s);
    forall id | id in s.nodes && Eligible(s.nodes[id]) ensures s.nodes[id].runningTasks == load + 1 {
      LightMembers(s, ScanOrder(s), load, id);
    }
    StartOfRound(s, load + 1, capacity);
  }

  /** Every eligible worker has one capacity and runs `load` tasks. */
  ghost predicate Even(s: State, load: int, capacity: int) {
    0 <= load < capacity <= LARGEST_CAPACITY
    && forall id :: id in s.nodes && Eligible(s.nodes[id]) ==>
         s.nodes[id].capacity == capacity && s.nodes[id].runningTasks == load
  }

  lemma StartOfRound(s: State, load: int, capacity: int)
    requires Even(s, load, capacity) && LightWorkers(s, load) != []
    ensures Cycle(s, LightWorkers(s, load), load, 0, capacity)
  {
    LightNone(s, ScanOrder(s), load + 1);
  }

  // ----- Counting turns -----

  /** Full rounds in `m` turns of `n` workers. */
  function Laps(m: nat, n: nat): (r: nat)
    requires n > 0
  {
    if m < n then 0 else 1 + Laps(m - n, n)
  }

  lemma {:induction false} LapStep(m: nat, n: nat)
    requires n > 0
    ensures
      if Remainder(m, n) + 1 < n then Remainder(m + 1, n) == Remainder(m, n) + 1 && Laps(m + 1, n) == Laps(m, n)
      else Remainder(m + 1, n) == 0 && Laps(m + 1, n) == Laps(m, n) + 1
  {
    if m < n {
      assert m + 1 == n ==> Remainder(m + 1 - n, n) == 0;
    } else {
      LapStep(m - n, n);
      assert m + 1 - n == m - n + 1;
    }
  }

  lemma {:induction false} LapsMonotone(m: nat, k: nat, n: nat)
    requires n > 0 && m <= k
    ensures Laps(m, n) <= Laps(k, n)
  {
    if m < n {
    } else {
      LapsMonotone(m - n, k - n, n);
    }
  }

  lemma {:induction false} LapsAndRemainder(m: nat, n: nat)
    requires n > 0
    ensures m == Laps(m, n) * n + Remainder(m, n)
  {
    if m < n {
    } else {
      LapsAndRemainder(m - n, n);
      assert Laps(m, n) * n == Laps(m - n, n) * n + n;
    }
  }

  /** Turns before the workers are full are in a round that fits. */
  lemma LapsFit(m: nat, n: nat, room: nat)
    requires n > 0 && m < n * room
    ensures Laps(m, n) < room
  {
    LapsAndRemainder(m, n);
    if Laps(m, n) >= room { ScaledBound(n, room, n, Laps(m, n)); }
  }

  /** The cycle after `m` turns that started from an even load. */
  ghost predicate AtTurn(s: State, turn: seq<string>, load: int, m: nat, capacity: int) {
    turn != [] && Cycle(s, turn, load + Laps(m, |turn|), Remainder(m, |turn|), capacity)
  }

  lemma TurnNumber(s: State, turn: seq<string>, load: int, m: nat, capacity: int) returns (lap: int, j: nat)
    requires AtTurn(s, turn, load, m, capacity)
    ensures lap == load + Laps(m, |turn|) && j == Remainder(m, |turn|) && Cycle(s, turn, lap, j, capacity)
  {
    lap, j := load + Laps(m, |turn|), Remainder(m, |turn|);
  }

  lemma NextTurn(r: State, turn: seq<string>, load: int, m: nat, lap: int, j: nat, capacity: int)
    requires turn != [] && lap == load + Laps(m, |turn|) && j == Remainder(m, |turn|)
    requires j + 1 < |turn| ==> Cycle(r, turn, lap, j + 1, capacity)
    requires j + 1 == |turn| && lap + 1 < capacity ==> Cycle(r, turn, lap + 1, 0, capacity)
    ensures load + Laps(m + 1, |turn|) < capacity ==> AtTurn(r, turn, load, m + 1, capacity)
  {
    LapStep(m, |turn|);
  }

  lemma TurnTaken(c: Config, s: State, id: string, now: Time, turn: seq<string>, load: int, m: nat, capacity: int)
    returns (r: State)
    requires Valid(s) && FreshAt(c, s, now) && IsPending(s, id) && UsesLeastLoaded(c)
    requires AtTurn(s, turn, load, m, capacity)
    ensures Select(c, s).Some? && s.nodeOrder[Select(c, s).value] == turn[Remainder(m, |turn|)]
    ensures r == Assign(c, s, id, Select(c, s).value, now)
    ensures load + Laps(m + 1, |turn|) < capacity ==> AtTurn(r, turn, load, m + 1, capacity)
  {
    var lap, j := TurnNumber(s, turn, load, m, capacity);
    r := CycleStep(c, s, id, now, turn, lap, j, capacity);
    NextTurn(r, turn, load, m, lap, j, capacity);
  }

  // ----- One dispatch -----

  /** Every turn of the dispatch loop finds a worker and keeps `p`, which may count the turns. */
  ghost predicate KeptByTurns(c: Config, q: seq<string>, now: Time, k: nat, p: (State, nat) -> bool)
    requires k <= |q|
  {
    forall x: State, m: nat :: m < k && p(x, m) && QueueReady(c, x, q[m..], now) ==>
      IsPending(x, q[m..][0]) && Select(c, x).Some? && p(PlaceFirst(c, x, q[m..], now), m + 1)
  }

  lemma {:induction false} QueueReaches(c: Config, s: State, q: seq<string>, now: Time, k: nat, p: (State, nat) -> bool)
    returns (x: State)
    requires QueueReady(c, s, q, now) && k <= |q| && p(s, 0) && KeptByTurns(c, q, now, k, p)
    ensures QueueReady(c, x, q[k..], now) && p(x, k)
    ensures DispatchQueue(c, s, q, now) == DispatchQueue(c, x, q[k..], now)
  {
    if k == 0 {
      x := s;
      assert q[0..] == q;
    } else {
      var before := QueueReaches(c, s, q, now, k - 1, p);
      QueueTurn(c, before, q[k - 1..], now);
      x := PlaceFirst(c, before, q[k - 1..], now);
      assert q[k - 1..][1..] == q[k..];
    }
  }

  lemma LightTurn(c: Config, x: State, q: seq<string>, now: Time, load: int, capacity: int)
    requires QueueReady(c, x, q, now) && q != [] && UsesLeastLoaded(c) && Level(x, load, capacity)
    requires LightWorkers(x, load) != []
    ensures IsPending(x, q[0]) && Select(c, x).Some? && x.nodeOrder[Select(c, x).value] == LightWorkers(x, load)[0]
    ensures
      var r := PlaceFirst(c, x, q, now);
      Level(r, load, capacity) && LightWorkers(r, load) == LightWorkers(x, load)[1..]
  {
    assert q[0] in q;
    AssignPopsLight(c, x, q[0], now, load, capacity);
  }

  /** Whatever the other loads, tasks go first to the least loaded workers, in scan order, one each. */
  lemma LightWorkersTakeTurns(c: Config, s: State, q: seq<string>, now: Time, load: int, capacity: int, k: nat)
    requires QueueReady(c, s, q, now) && UsesLeastLoaded(c) && Level(s, load, capacity)
    requires k < |q| && k < |LightWorkers(s, load)|
    ensures WorkerOf(DispatchQueue(c, s, q, now), q[k]) == LightWorkers(s, load)[k]
  {
    var light := LightWorkers(s, load);
    var p := (x: State, m: nat) => m <= k && Level(x, load, capacity) && LightWorkers(x, load) == light[m..];
    forall x: State, m: nat | m < k && p(x, m) && QueueReady(c, x, q[m..], now)
      ensures IsPending(x, q[m..][0]) && Select(c, x).Some? && p(PlaceFirst(c, x, q[m..], now), m + 1)
    {
      LightTurn(c, x, q[m..], now, load, capacity);
      assert light[m..][1..] == light[m + 1..];
    }
    var x := QueueReaches(c, s, q, now, k, p);
    LightTurn(c, x, q[k..], now, load, capacity);
    FirstTakesTurn(c, x, q[k..], now);
  }

  lemma TurnKept(c: Config, x: State, q: seq<string>, now: Time, turn: seq<string>, load: int, capacity: int, m: nat)
    requires QueueReady(c, x, q, now) && q != [] && UsesLeastLoaded(c) && AtTurn(x, turn, load, m, capacity)
    ensures IsPending(x, q[0]) && Select(c, x).Some?
    ensures load + Laps(m + 1, |turn|) < capacity ==> AtTurn(PlaceFirst(c, x, q, now), turn, load, m + 1, capacity)
  {
    assert q[0] in q;
    var r := TurnTaken(c, x, q[0], now, turn, load, m, capacity);
  }

  lemma TaskTakesTurn(c: Config, s: State, q: seq<string>, now: Time, load: int, capacity: int, k: nat)
    requires QueueReady(c, s, q, now) && UsesLeastLoaded(c) && Even(s, load, capacity) && LightWorkers(s, load) != []
    requires k < |q| && load + Laps(k, |LightWorkers(s, load)|) < capacity
    ensures
      var turn := LightWorkers(s, load);
      WorkerOf(DispatchQueue(c, s, q, now), q[k]) == turn[Remainder(k, |turn|)]
  {
    var turn := LightWorkers(s, load);
    StartOfRound(s, load, capacity);
    var p := (x: State, m: nat) => AtTurn(x, turn, load, m, capacity);
    forall x: State, m: nat | m < k && p(x, m) && QueueReady(c, x, q[m..], now)
      ensures IsPending(x, q[m..][0]) && Select(c, x).Some? && p(PlaceFirst(c, x, q[m..], now), m + 1)
    {
      TurnKept(c, x, q[m..], now, turn, load, capacity, m);
      LapsMonotone(m + 1, k, |turn|);
    }
    var x := QueueReaches(c, s, q, now, k, p);
    assert q[k..][0] == q[k] && q[k] in q[k..];
    var r := TurnTaken(c, x, q[k], now, turn, load, k, capacity);
    FirstTakesTurn(c, x, q[k..], now);
  }

  lemma QueuedTakesTurn(c: Config, s: State, q: seq<string>, now: Time,
                        turn: seq<string>, load: int, capacity: int, k: nat)
    requires QueueReady(c, s, q, now) && UsesLeastLoaded(c) && Even(s, load, capacity)
    requires turn != [] && turn == LightWorkers(s, load) && k < |q| && k < |turn| * (capacity - load)
    ensures WorkerOf(DispatchQueue(c, s, q, now), q[k]) == turn[k % |turn|]
  {
    LapsFit(k, |turn|, capacity - load);
    TaskTakesTurn(c, s, q, now, load, capacity, k);
    RemainderIsModulo(k, |turn|);
  }

  /** When all eligible workers are equally loaded, a dispatch gives them its tasks in turn, in cyclic
      registration order, round after round until they are full. */
  lemma RoundRobin(c: Config, s: State, now: Time, load: int, capacity: int)
    requires Valid(s) && UsesLeastLoaded(c) && Even(Refresh(c, s, now), load, capacity)
    ensures
      var ready := Refresh(c, s, now);
      var turn, q := LightWorkers(ready, load), PendingQueue(ready);
      && Distinct(turn)
      && (forall id :: id in turn <==> id in ready.nodes && Eligible(ready.nodes[id]))
      && (turn != [] ==> forall k :: 0 <= k < |q| && k < |turn| * (capacity - load) ==>
            WorkerOf(DispatchPending(c, s, now), q[k]) == turn[k % |turn|])
  {
    var ready := Refresh(c, s, now);
    var turn, q := LightWorkers(ready, load), PendingQueue(ready);
    RefreshValid(c, s, now);
    ScanDistinct(ready);
    LightDistinct(ready, ScanOrder(ready), load);
    forall id ensures id in turn <==> id in ready.nodes && Eligible(ready.nodes[id]) {
      LightMembers(ready, ScanOrder(ready), load, id);
    }
    if turn != [] {
      forall k | 0 <= k < |q| && k < |turn| * (capacity - load)
        ensures WorkerOf(DispatchPending(c, s, now), q[k]) == turn[k % |turn|]
      {
        QueuedTakesTurn(c, ready, q, now, turn, load, capacity, k);
      }
    }
  }

  // ----- Successive submissions -----

  /** A submission and the clock reading of its call. */
  datatype Submission = Submission(req: SubmitRequest, now: Time)

  predicate AcceptedIn(submits: seq<Submission>) { forall i :: 0 <= i < |submits| ==> SubmitAccepted(submits[i].req) }

  /** What one accepted call to submit does. */
  ghost function SubmitOne(c: Config, s: State, x: Submission): (r: State) {
    DispatchPending(c, Submit(s, x.req, x.now).0, x.now)
  }

  ghost function SubmitAll(c: Config, s: State, submits: seq<Submission>): (r: State) {
    if submits == [] then s else SubmitOne(c, SubmitAll(c, s, submits[..|submits| - 1]), submits[|submits| - 1])
  }

  function CallsOf(submits: seq<Submission>): (calls: seq<TimedCall>)
    ensures |calls| == |submits|
    ensures forall i :: 0 <= i < |submits| ==> calls[i] == At(submits[i].now, SubmitCall(submits[i].req))
  {
    seq(|submits|, i requires 0 <= i < |submits| => At(submits[i].now, SubmitCall(submits[i].req)))
  }

  lemma InvokeSubmit(c: Config, s: State, x: Submission)
    requires SubmitAccepted(x.req)
    ensures Invoke(c, s, SubmitCall(x.req), x.now) == SubmitOne(c, s, x)
  {
  }

  lemma SubmitAllExtends(c: Config, s: State, submits: seq<Submission>, k: nat)
    requires k < |submits|
    ensures SubmitAll(c, s, submits[..k + 1]) == SubmitOne(c, SubmitAll(c, s, submits[..k]), submits[k])
  {
    assert submits[..k + 1][..k] == submits[..k];
  }

  /** They are calls like any other. */
  lemma {:induction false} SubmitAllIsRun(c: Config, s: State, submits: seq<Submission>)
    requires AcceptedIn(submits)
    ensures RunCalls(c, s, CallsOf(submits)) == SubmitAll(c, s, submits)
  {
    if submits == [] {
    } else {
      var init, last := submits[..|submits| - 1], submits[|submits| - 1];
      assert CallsOf(submits)[..|submits| - 1] == CallsOf(init);
      SubmitAllIsRun(c, s, init);
      InvokeSubmit(c, SubmitAll(c, s, init), last);
    }
  }

  /** The same workers are online at both times. */
  ghost predicate SameOnline(c: Config, s: State, t: Time, now: Time) {
    forall id :: id in s.nodes ==> (OnlineAt(c, s, id, t) <==> OnlineAt(c, s, id, now))
  }

  ghost predicate SameHeartbeats(s: State, x: State) {
    && x.nodes.Keys == s.nodes.Keys
    && forall id :: id in s.nodes ==> x.nodes[id].lastHeartbeat == s.nodes[id].lastHeartbeat
  }

  lemma RefreshedAlike(c: Config, s: State, x: State, t: Time, now: Time)
    requires SameHeartbeats(s, x) && SameOnline(c, s, t, now)
    ensures Refresh(c, x, t) == Refresh(c, x, now)
  {
    forall id | id in x.nodes ensures c.Derive(x.nodes[id], t) == c.Derive(x.nodes[id], now) {
      assert OnlineAt(c, s, id, t) <==> OnlineAt(c, s, id, now);
    }
    assert Refresh(c, x, t).nodes == Refresh(c, x, now).nodes;
  }

  /** What the scan looks at. */
  ghost predicate SameWorkers(s: State, r: State) {
    r.nodes == s.nodes && r.nodeOrder == s.nodeOrder && r.nextNodeIndex == s.nextNodeIndex
  }

  lemma LightAlike(s: State, r: State, load: int)
    requires SameWorkers(s, r)
    ensures ScanOrder(r) == ScanOrder(s) && LightWorkers(r, load) == LightWorkers(s, load)
  {
    forall o | 0 <= o < |s.nodeOrder| ensures Visited(r, o) == Visited(s, o) { assert Start(r) == Start(s); }
    assert ScanOrder(r) == ScanOrder(s);
    LightSame(s, r, ScanOrder(s), load);
  }

  lemma CycleAlike(s: State, r: State, turn: seq<string>, load: int, j: nat, capacity: int)
    requires SameWorkers(s, r) && Cycle(s, turn, load, j, capacity)
    ensures Cycle(r, turn, load, j, capacity)
  {
    LightAlike(s, r, load);
    LightAlike(s, r, load + 1);
    assert forall x, l :: Light(r, x, l) <==> Light(s, x, l);
  }

  lemma AtTurnAlike(s: State, r: State, turn: seq<string>, load: int, m: nat, capacity: int)
    requires SameWorkers(s, r) && AtTurn(s, turn, load, m, capacity)
    ensures AtTurn(r, turn, load, m, capacity)
  {
    var lap, j := TurnNumber(s, turn, load, m, capacity);
    CycleAlike(s, r, turn, lap, j, capacity);
  }

  /** Between two calls: nothing waits, heartbeats are those of `s`, and the cycle has made `m` turns. */
  ghost predicate Standing(c: Config, s: State, x: State, t: Time, turn: seq<string>, load: int, m: nat,
                           capacity: int)
  {
    Valid(x) && PendingIDs(x) == {} && SameHeartbeats(s, x) && AtTurn(Refresh(c, x, t), turn, load, m, capacity)
  }

  lemma SubmittedOnly(x: State, req: SubmitRequest, now: Time) returns (x1: State, id: string)
    requires Valid(x) && PendingIDs(x) == {} && SubmitAccepted(req)
    ensures x1 == Submit(x, req, now).0 && id == Submit(x, req, now).1.value
    ensures Valid(x1) && PendingIDs(x1) == {id} && SameWorkers(x, x1)
  {
    x1, id := Submit(x, req, now).0, Submit(x, req, now).1.value;
    SubmitValid(x, req, now);
    forall y ensures y in PendingIDs(x1) <==> y == id { assert y !in PendingIDs(x); }
  }

  /** The state in which a submission is dispatched. */
  lemma ReadyAlike(c: Config, s: State, x: State, x1: State, t: Time, now: Time) returns (ready: State)
    requires SameHeartbeats(s, x) && SameWorkers(x, x1) && Valid(x1) && SameOnline(c, s, t, now)
    ensures ready == Refresh(c, x1, now) && Valid(ready) && FreshAt(c, ready, now)
    ensures SameHeartbeats(s, ready) && PendingIDs(ready) == PendingIDs(x1) && SameWorkers(Refresh(c, x, t), ready)
  {
    RefreshValid(c, x1, now);
    ready := Refresh(c, x1, now);
    assert PendingIDs(ready) == PendingIDs(x1);
    RefreshedAlike(c, s, x, t, now);
    assert ready.nodes == Refresh(c, x, now).nodes;
  }

  lemma SettledAfter(c: Config, ready: State, id: string, b: nat, now: Time) returns (r: State)
    requires Valid(ready) && FreshAt(c, ready, now) && PendingIDs(ready) == {id}
    requires b < |ready.nodeOrder| && EligibleAt(ready, b)
    ensures id in ready.tasks && r == Assign(c, ready, id, b, now)
    ensures Valid(r) && FreshAt(c, r, now) && PendingIDs(r) == {} && SameHeartbeats(ready, r)
    ensures WorkerOf(r, id) == ready.nodeOrder[b]
  {
    assert id in PendingIDs(ready);
    AssignValid(c, ready, id, b, now);
    AssignPlaces(c, ready, id, b, now);
    r := Assign(c, ready, id, b, now);
    forall y ensures y !in PendingIDs(r) { assert y in PendingIDs(ready) <==> y == id; }
    assert NodeOk(ready.nodeOrder[b], ready.nodes[ready.nodeOrder[b]]);
  }

  lemma ShownAlike(c: Config, s: State, r: State, t: Time, now: Time)
    requires FreshAt(c, r, now) && SameHeartbeats(s, r) && SameOnline(c, s, t, now)
    ensures SameWorkers(r, Refresh(c, r, t))
  {
    RefreshedAlike(c, s, r, t, now);
    assert Refresh(c, r, now).nodes == r.nodes;
  }

  /** A submitted task goes to the worker whose turn it is. */
  lemma SubmitTakesTurn(c: Config, s: State, x: State, t: Time, sub: Submission,
                        turn: seq<string>, load: int, m: nat, capacity: int)
    returns (r: State, id: string)
    requires Standing(c, s, x, t, turn, load, m, capacity) && SubmitAccepted(sub.req) && SameOnline(c, s, t, sub.now)
    requires UsesLeastLoaded(c)
    ensures r == SubmitOne(c, x, sub) && id == Submit(x, sub.req, sub.now).1.value
    ensures WorkerOf(r, id) == turn[Remainder(m, |turn|)]
    ensures load + Laps(m + 1, |turn|) < capacity ==> Standing(c, s, r, t, turn, load, m + 1, capacity)
  {
    var x1;
    x1, id := SubmittedOnly(x, sub.req, sub.now);
    var ready := ReadyAlike(c, s, x, x1, t, sub.now);
    AtTurnAlike(Refresh(c, x, t), ready, turn, load, m, capacity);
    assert id in PendingIDs(ready);
    r := TurnTaken(c, ready, id, sub.now, turn, load, m, capacity);
    r := SettledAfter(c, ready, id, Select(c, ready).value, sub.now);
    DispatchOne(c, x1, id, sub.now);
    ShownAlike(c, s, r, t, sub.now);
    if load + Laps(m + 1, |turn|) < capacity { AtTurnAlike(r, Refresh(c, r, t), turn, load, m + 1, capacity); }
  }

  lemma {:induction false} SubmitsStand(c: Config, s: State, submits: seq<Submission>, t: Time,
                                        turn: seq<string>, load: int, capacity: int)
    returns (x: State)
    requires turn != [] && Standing(c, s, s, t, turn, load, 0, capacity) && UsesLeastLoaded(c) && AcceptedIn(submits)
    requires forall i :: 0 <= i < |submits| ==> SameOnline(c, s, t, submits[i].now)
    requires load + Laps(|submits|, |turn|) < capacity
    ensures x == SubmitAll(c, s, submits) && Standing(c, s, x, t, turn, load, |submits|, capacity)
    decreases |submits|
  {
    if submits == [] {
      x := s;
    } else {
      var k := |submits| - 1;
      LapsMonotone(k, k + 1, |turn|);
      var before := SubmitsStand(c, s, submits[..k], t, turn, load, capacity);
      var id;
      x, id := SubmitTakesTurn(c, s, before, t, submits[k], turn, load, k, capacity);
    }
  }

  lemma SubmittedTakesTurn(c: Config, s: State, submits: seq<Submission>, t: Time,
                           turn: seq<string>, load: int, capacity: int, k: nat)
    returns (r: State, id: string)
    requires turn != [] && Standing(c, s, s, t, turn, load, 0, capacity) && UsesLeastLoaded(c) && AcceptedIn(submits)
    requires forall i :: 0 <= i < |submits| ==> SameOnline(c, s, t, submits[i].now)
    requires k < |submits| && load + Laps(k, |turn|) < capacity
    ensures r == SubmitAll(c, s, submits[..k + 1])
    ensures id == Submit(SubmitAll(c, s, submits[..k]), submits[k].req, submits[k].now).1.value
    ensures WorkerOf(r, id) == turn[Remainder(k, |turn|)]
  {
    var before := SubmitsStand(c, s, submits[..k], t, turn, load, capacity);
    r, id := SubmitTakesTurn(c, s, before, t, submits[k], turn, load, k, capacity);
    SubmitAllExtends(c, s, submits, k);
  }

  lemma SubmitsInTurn(c: Config, s: State, submits: seq<Submission>, t: Time,
                      turn: seq<string>, load: int, capacity: int, k: nat)
    returns (r: State, id: string)
    requires turn != [] && Standing(c, s, s, t, turn, load, 0, capacity) && UsesLeastLoaded(c) && AcceptedIn(submits)
    requires forall i :: 0 <= i < |submits| ==> SameOnline(c, s, t, submits[i].now)
    requires k < |submits| && load + Laps(k, |turn|) < capacity
    ensures r == RunCalls(c, s, CallsOf(submits[..k + 1]))
    ensures id == Submit(RunCalls(c, s, CallsOf(submits[..k])), submits[k].req, submits[k].now).1.value
    ensures WorkerOf(r, id) == turn[Remainder(k, |turn|)]
  {
    r, id := SubmittedTakesTurn(c, s, submits, t, turn, load, capacity, k);
    SubmitAllIsRun(c, s, submits[..k]);
    SubmitAllIsRun(c, s, submits[..k + 1]);
  }

  /** While the same workers are online, tasks submitted one by one to equally loaded workers are given to them in
      turn, in cyclic registration order, until they are full. */
  lemma SubmitsTakeTurns(c: Config, s: State, submits: seq<Submission>, turn: seq<string>,
                         load: int, capacity: int, k: nat)
    returns (r: State, id: string)
    requires Valid(s) && PendingIDs(s) == {} && UsesLeastLoaded(c) && k < |submits| && AcceptedIn(submits)
    requires forall i :: 0 <= i < |submits| ==> SameOnline(c, s, submits[0].now, submits[i].now)
    requires Even(Refresh(c, s, submits[0].now), load, capacity)
    requires turn == LightWorkers(Refresh(c, s, submits[0].now), load)
    requires turn != [] && k < |turn| * (capacity - load)
    ensures r == RunCalls(c, s, CallsOf(submits[..k + 1]))
    ensures id == Submit(RunCalls(c, s, CallsOf(submits[..k])), submits[k].req, submits[k].now).1.value
    ensures WorkerOf(r, id) == turn[k % |turn|]
  {
    LapsFit(k, |turn|, capacity - load);
    RemainderIsModulo(k, |turn|);
    StartOfRound(Refresh(c, s, submits[0].now), load, capacity);
    r, id := SubmitsInTurn(c, s, submits, submits[0].now, turn, load, capacity, k);
  }
}
