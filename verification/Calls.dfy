/** Whole service calls, one at a time: nothing that could run is left waiting between them. */
module Calls {
  import opened Machine
  import opened Order
  import opened Model
  import opened Cluster
  import opened Invariants

  datatype Call =
    | RegisterCall(register: RegisterRequest)
    | HeartbeatCall(heartbeat: HeartbeatRequest)
    | SubmitCall(submit: SubmitRequest)
    | CompleteCall(id: string, complete: CompleteRequest)
    | TickCall
    | OverviewCall

  /** A write section, then a dispatch at the same clock reading unless the write section failed. */
  ghost function Invoke(c: Config, s: State, call: Call, now: Time): (r: State) {
    match call
    case RegisterCall(req) =>
      var (s1, result) := Register(c, s, req, now);
      if result.Err? then s else DispatchPending(c, s1, now)
    case HeartbeatCall(req) =>
      var (s1, result) := Heartbeat(c, s, req, now);
      if result.Err? then s else DispatchPending(c, s1, now)
    case SubmitCall(req) =>
      var (s1, result) := Submit(s, req, now);
      if result.Err? then s else DispatchPending(c, s1, now)
    case CompleteCall(id, req) =>
      var (s1, result) := Complete(s, id, req, now);
      if result.Err? then s else DispatchPending(c, s1, now)
    case TickCall => DispatchPending(c, Refresh(c, s, now), now)
    case OverviewCall => Refresh(c, s, now)
  }

  datatype TimedCall = At(now: Time, call: Call)

  ghost function RunCalls(c: Config, s: State, calls: seq<TimedCall>): (r: State) {
    if calls == [] then s else
      var last := calls[|calls| - 1];
      Invoke(c, RunCalls(c, s, calls[..|calls| - 1]), last.call, last.now)
  }

  ghost function ExecCalls(c: Config, calls: seq<TimedCall>): (r: State) { RunCalls(c, INITIAL, calls) }

  ghost predicate ClockForward(calls: seq<TimedCall>) {
    forall i, j :: 0 <= i < j < |calls| ==> calls[i].now <= calls[j].now
  }

  /** No pending task coexists with an online worker that has a free slot. */
  ghost predicate NothingWaits(s: State) {
    PendingIDs(s) == {} || forall id :: id in s.nodes ==> !Eligible(s.nodes[id])
  }

  /** A worker shown offline really is late at `now`. */
  ghost predicate OfflineIsLate(c: Config, s: State, now: Time) {
    forall id :: id in s.nodes && s.nodes[id].status == Offline ==> Late(s.nodes[id], now, c.offlineAfter)
  }

  lemma NothingWaitsAfter(s: State, r: State, q: seq<string>, now: Time)
    requires Valid(r) && PrefixPlaced(s, r, q, now) && Distinct(q) && forall id :: id in q <==> id in PendingIDs(s)
    requires FreeSlots(r, r.nodeOrder) == FreeSlots(s, s.nodeOrder) - AssignedNow(s, q)
    ensures NothingWaits(r)
  {
    if AssignedNow(s, q) == |q| {
      StillPending(s, r, q, now);
      assert q[|q|..] == [];
    } else {
      NoSlotsIff(r, r.nodeOrder);
    }
  }

  /** After a dispatch nothing waits, and every status shown was derived at its clock reading. */
  lemma DispatchLeavesNothingWaiting(c: Config, s: State, now: Time)
    requires Valid(s)
    ensures
      var r := DispatchPending(c, s, now);
      Valid(r) && NothingWaits(r) && OfflineIsLate(c, r, now)
  {
    var ready := Refresh(c, s, now);
    RefreshValid(c, s, now);
    DispatchValid(c, s, now);
    var q, r := PendingQueue(ready), DispatchPending(c, s, now);
    QueueUsesSlots(c, ready, q, now);
    QueuePrefix(c, ready, q, now);
    NothingWaitsAfter(ready, r, q, now);
  }

  // ----- Exactly when something is left waiting -----

  /** The write section refuses the call, so that nothing is dispatched. */
  predicate Refused(s: State, call: Call) {
    match call
    case RegisterCall(req) => req.id == ""
    case HeartbeatCall(req) => req.id == "" || req.id !in s.nodes
    case SubmitCall(req) => !SubmitAccepted(req)
    case CompleteCall(id, _) => id == "" || id !in s.tasks
    case TickCall => false
    case OverviewCall => false
  }

  /** At `now` some task is pending and some worker could take it, whatever status the worker was last given. */
  ghost predicate WorkFor(c: Config, s: State, now: Time) {
    PendingIDs(s) != {} && exists id :: id in s.nodes && !Late(s.nodes[id], now, c.offlineAfter) && !Full(s.nodes[id])
  }

  lemma RefreshNothingWaitsIff(c: Config, s: State, now: Time)
    ensures NothingWaits(Refresh(c, s, now)) <==> !WorkFor(c, s, now)
  {
    var r := Refresh(c, s, now);
    assert PendingIDs(r) == PendingIDs(s);
    forall id | id in s.nodes
      ensures Eligible(r.nodes[id]) <==> !Late(s.nodes[id], now, c.offlineAfter) && !Full(s.nodes[id])
    {
    }
  }

  lemma AcceptedLeavesNothingWaiting(c: Config, s: State, call: Call, now: Time)
    requires Valid(s) && !Refused(s, call) && !call.OverviewCall?
    ensures
      var r := Invoke(c, s, call, now);
      Valid(r) && NothingWaits(r) && OfflineIsLate(c, r, now)
  {
    match call
    case RegisterCall(req) =>
      RegisterValid(c, s, req, now);
      DispatchLeavesNothingWaiting(c, Register(c, s, req, now).0, now);
    case HeartbeatCall(req) =>
      HeartbeatValid(c, s, req, now);
      DispatchLeavesNothingWaiting(c, Heartbeat(c, s, req, now).0, now);
    case SubmitCall(req) =>
      SubmitValid(s, req, now);
      DispatchLeavesNothingWaiting(c, Submit(s, req, now).0, now);
    case CompleteCall(id, req) =>
      CompleteValid(s, id, req, now);
      DispatchLeavesNothingWaiting(c, Complete(s, id, req, now).0, now);
    case TickCall =>
      RefreshValid(c, s, now);
      DispatchLeavesNothingWaiting(c, Refresh(c, s, now), now);
  }

  lemma RefusedChangesNothing(c: Config, s: State, call: Call, now: Time)
    requires Refused(s, call)
    ensures Invoke(c, s, call, now) == s
  {
  }

  /** From any well-formed state and at any clock reading, nothing waits after a call if and only if nothing
      waited before, when it is refused; there is no work for a worker, when it is an overview; always, otherwise. */
  lemma CallNothingWaitsIff(c: Config, s: State, call: Call, now: Time)
    requires Valid(s)
    ensures Valid(Invoke(c, s, call, now))
    ensures NothingWaits(Invoke(c, s, call, now))
            <==> if Refused(s, call) then NothingWaits(s) else call.OverviewCall? ==> !WorkFor(c, s, now)
  {
    if Refused(s, call) {
      RefusedChangesNothing(c, s, call, now);
    } else if call.OverviewCall? {
      RefreshValid(c, s, now);
      RefreshNothingWaitsIff(c, s, now);
    } else {
      AcceptedLeavesNothingWaiting(c, s, call, now);
    }
  }

  /** An overview that sees a worker able to take a pending task, and does not give it one. */
  ghost predicate Exposes(c: Config, s: State, tc: TimedCall) { tc.call.OverviewCall? && WorkFor(c, s, tc.now) }

  ghost predicate AtEveryPoint(p: seq<TimedCall> -> bool, calls: seq<TimedCall>) {
    forall k :: 0 <= k <= |calls| ==> p(calls[..k])
  }

  ghost function Settled(c: Config): (p: seq<TimedCall> -> bool) { calls => NothingWaits(ExecCalls(c, calls)) }

  ghost predicate NeverWaits(c: Config, calls: seq<TimedCall>) { AtEveryPoint(Settled(c), calls) }

  ghost predicate NeverExposes(c: Config, calls: seq<TimedCall>) {
    forall k :: 0 <= k < |calls| ==> !Exposes(c, ExecCalls(c, calls[..k]), calls[k])
  }

  lemma {:induction false} CallsValid(c: Config, calls: seq<TimedCall>)
    ensures Valid(ExecCalls(c, calls))
  {
    if calls == [] {
    } else {
      var init, last := calls[..|calls| - 1], calls[|calls| - 1];
      CallsValid(c, init);
      CallNothingWaitsIff(c, ExecCalls(c, init), last.call, last.now);
    }
  }

  lemma EveryPointExtends(p: seq<TimedCall> -> bool, init: seq<TimedCall>, last: TimedCall)
    ensures AtEveryPoint(p, init + [last]) <==> AtEveryPoint(p, init) && p(init + [last])
  {
    var calls := init + [last];
    assert forall k :: 0 <= k <= |init| ==> calls[..k] == init[..k];
    assert calls[..|calls|] == calls;
  }

  lemma LastPoint(p: seq<TimedCall> -> bool, calls: seq<TimedCall>)
    requires AtEveryPoint(p, calls)
    ensures p(calls)
  {
    assert calls[..|calls|] == calls;
  }

  lemma {:induction false} NeverExposesExtends(c: Config, init: seq<TimedCall>, last: TimedCall)
    ensures NeverExposes(c, init + [last]) <==> NeverExposes(c, init) && !Exposes(c, ExecCalls(c, init), last)
  {
    var calls := init + [last];
    assert forall k :: 0 <= k < |init| ==> calls[..k] == init[..k] && calls[k] == init[k];
    assert calls[..|init|] == init && calls[|init|] == last;
  }

  /** Nothing waits at any point of a run if and only if none of its overviews exposes idle capacity. */
  lemma {:induction false} NeverWaitsIff(c: Config, calls: seq<TimedCall>)
    ensures NeverWaits(c, calls) <==> NeverExposes(c, calls)
  {
    if calls == [] {
      assert calls[..0] == [];
    } else {
      var init, last := calls[..|calls| - 1], calls[|calls| - 1];
      assert calls == init + [last];
      NeverWaitsIff(c, init);
      EveryPointExtends(Settled(c), init, last);
      NeverExposesExtends(c, init, last);
      CallsValid(c, init);
      if NeverWaits(c, init) { LastPoint(Settled(c), init); }
      CallNothingWaitsIff(c, ExecCalls(c, init), last.call, last.now);
    }
  }

  // ----- On a clock that does not go back -----

  lemma LaterStillLate(c: Config, s: State, before: Time, now: Time)
    requires OfflineIsLate(c, s, before) && before <= now
    ensures OfflineIsLate(c, s, now)
  {
    forall id | id in s.nodes && s.nodes[id].status == Offline ensures Late(s.nodes[id], now, c.offlineAfter) {
      LatenessIsMonotone(s.nodes[id], before, now, c.offlineAfter);
    }
  }

  /** Looking later can only find more workers late, so an overview then exposes nothing new. */
  lemma ForwardExposesNothing(c: Config, s: State, before: Time, tc: TimedCall)
    requires NothingWaits(s) && OfflineIsLate(c, s, before) && before <= tc.now
    ensures !Exposes(c, s, tc)
  {
    LaterStillLate(c, s, before, tc.now);
  }

  /** So refreshing at a later time cannot create waiting. */
  lemma RefreshKeepsNothingWaiting(c: Config, s: State, before: Time, now: Time)
    requires Valid(s) && NothingWaits(s) && OfflineIsLate(c, s, before) && before <= now
    ensures
      var r := Refresh(c, s, now);
      Valid(r) && NothingWaits(r) && OfflineIsLate(c, r, now)
  {
    RefreshValid(c, s, now);
    RefreshNothingWaitsIff(c, s, now);
    ForwardExposesNothing(c, s, before, At(now, OverviewCall));
  }

  lemma CallLeavesNothingWaiting(c: Config, s: State, tc: TimedCall, before: Time)
    requires Valid(s) && NothingWaits(s) && OfflineIsLate(c, s, before) && before <= tc.now
    ensures
      var r := Invoke(c, s, tc.call, tc.now);
      Valid(r) && NothingWaits(r) && OfflineIsLate(c, r, tc.now)
  {
    if Refused(s, tc.call) {
      RefusedChangesNothing(c, s, tc.call, tc.now);
      LaterStillLate(c, s, before, tc.now);
    } else if tc.call.OverviewCall? {
      RefreshKeepsNothingWaiting(c, s, before, tc.now);
    } else {
      AcceptedLeavesNothingWaiting(c, s, tc.call, tc.now);
    }
  }

  /** Calls one at a time on a clock that never goes back leave nothing waiting, at every point. */
  lemma {:induction false} RunLeavesNothingWaiting(c: Config, calls: seq<TimedCall>)
    requires ClockForward(calls)
    ensures Valid(ExecCalls(c, calls)) && NeverWaits(c, calls)
    ensures calls != [] ==> OfflineIsLate(c, ExecCalls(c, calls), calls[|calls| - 1].now)
  {
    if calls == [] {
      assert calls[..0] == [];
    } else {
      var init, last := calls[..|calls| - 1], calls[|calls| - 1];
      assert calls == init + [last];
      RunLeavesNothingWaiting(c, init);
      CallsValid(c, init);
      var before := if init == [] then last.now else init[|init| - 1].now;
      LastPoint(Settled(c), init);
      CallLeavesNothingWaiting(c, ExecCalls(c, init), last, before);
      EveryPointExtends(Settled(c), init, last);
    }
  }

  // ----- Why the clock must not go back -----

  /** Some sequence of calls, at any clock readings, ends in this state. */
  ghost predicate CallsReach(c: Config, s: State) { exists calls: seq<TimedCall> :: ExecCalls(c, calls) == s }

  lemma CallsReachInitial(c: Config)
    ensures CallsReach(c, INITIAL)
  {
    assert ExecCalls(c, []) == INITIAL;
  }

  lemma CallsReachNext(c: Config, s: State, call: Call, now: Time)
    requires CallsReach(c, s)
    ensures CallsReach(c, Invoke(c, s, call, now))
  {
    var calls :| ExecCalls(c, calls) == s;
    var longer := calls + [At(now, call)];
    assert longer[..|longer| - 1] == calls;
    assert ExecCalls(c, longer) == Invoke(c, s, call, now);
  }

  lemma CallsReachRegister(c: Config, s: State, req: RegisterRequest, now: Time)
    requires CallsReach(c, s) && req.id != ""
    ensures CallsReach(c, DispatchPending(c, Register(c, s, req, now).0, now))
  {
    CallsReachNext(c, s, RegisterCall(req), now);
  }

  lemma CallsReachSubmit(c: Config, s: State, req: SubmitRequest, now: Time)
    requires CallsReach(c, s) && SubmitAccepted(req)
    ensures CallsReach(c, DispatchPending(c, Submit(s, req, now).0, now))
  {
    CallsReachNext(c, s, SubmitCall(req), now);
  }

  lemma CallsReachOverview(c: Config, s: State, now: Time)
    requires CallsReach(c, s)
    ensures CallsReach(c, Refresh(c, s, now))
  {
    CallsReachNext(c, s, OverviewCall, now);
  }

  lemma EmptyQueue(s: State)
    requires PendingIDs(s) == {}
    ensures PendingQueue(s) == []
  {
    OlderIsStrictTotal(s);
    SortedUnique(Older(s), PendingQueue(s), [], {});
  }

  lemma NothingToDispatch(c: Config, s: State, now: Time)
    requires Valid(s) && (PendingIDs(s) == {} || forall id :: id in s.nodes ==> Late(s.nodes[id], now, c.offlineAfter))
    ensures DispatchPending(c, s, now) == Refresh(c, s, now)
  {
    var ready := Refresh(c, s, now);
    RefreshValid(c, s, now);
    assert PendingIDs(ready) == PendingIDs(s);
    if PendingIDs(s) == {} {
      EmptyQueue(ready);
    } else {
      forall i: nat | i < |ready.nodeOrder| ensures !EligibleAt(ready, i) {
        assert ready.nodeOrder[i] in ready.nodeOrder;
      }
      SelectNoneIff(c, ready);
    }
  }

  /** A worker that registered at `t` and has been idle since. */
  ghost predicate IdleSince(s: State, w: string, t: Time) {
    && w in s.nodes && s.nodes.Keys == {w} && s.nodes[w].lastHeartbeat == t
    && s.nodes[w].capacity == 1 && s.nodes[w].runningTasks == 0
  }

  lemma JoinAt(c: Config, w: string, t: Time) returns (s: State)
    requires w != "" && t > 0
    ensures CallsReach(c, s) && Valid(s) && IdleSince(s, w, t)
  {
    var join := RegisterRequest(w, "", 1, []);
    var s1 := Register(c, INITIAL, join, t).0;
    RegisterValid(c, INITIAL, join, t);
    NothingToDispatch(c, s1, t);
    RefreshValid(c, s1, t);
    s := Refresh(c, s1, t);
    CallsReachInitial(c);
    CallsReachRegister(c, INITIAL, join, t);
  }

  lemma SubmitWhileLate(c: Config, s: State, w: string, t: Time, req: SubmitRequest, now: Time) returns (r: State)
    requires CallsReach(c, s) && Valid(s) && IdleSince(s, w, t) && SubmitAccepted(req)
    requires Late(s.nodes[w], now, c.offlineAfter)
    ensures CallsReach(c, r) && IdleSince(r, w, t) && PendingIDs(r) != {}
  {
    var (s1, result) := Submit(s, req, now);
    SubmitValid(s, req, now);
    NothingToDispatch(c, s1, now);
    r := Refresh(c, s1, now);
    assert result.value in PendingIDs(r);
    CallsReachSubmit(c, s, req, now);
  }

  lemma RevivedWorkerIdles(c: Config, s: State, w: string, t: Time) returns (r: State)
    requires CallsReach(c, s) && IdleSince(s, w, t) && PendingIDs(s) != {} && c.offlineAfter >= 0
    ensures CallsReach(c, r) && !NothingWaits(r)
  {
    r := Refresh(c, s, t);
    assert PendingIDs(r) == PendingIDs(s);
    assert Eligible(r.nodes[w]);
    CallsReachOverview(c, s, t);
  }

  /** A worker seen offline at a late reading is revived by an overview at an earlier one, and idles. */
  lemma ClockBackLeavesWaiting(c: Config, w: string, req: SubmitRequest) returns (s: State)
    requires 0 <= c.offlineAfter < TWO_63 - 1 && w != "" && SubmitAccepted(req)
    ensures CallsReach(c, s) && !NothingWaits(s)
  {
    s := JoinAt(c, w, 1);
    s := SubmitWhileLate(c, s, w, 1, req, c.offlineAfter + 2);
    s := RevivedWorkerIdles(c, s, w, 1);
  }
}
