/** Queue pairs and connections: when a link may carry sends. */
module Links {

  datatype LinkState = Reset | Init | ReadyToReceive | ReadyToSend | Error

  /** Position in the bring-up sequence; the error state comes after everything. */
  function Rank(s: LinkState): (r: nat) {
    match s case Reset => 0 case Init => 1 case ReadyToReceive => 2 case ReadyToSend => 3 case Error => 4
  }

  /** The documented moves: one step up the bring-up sequence, or into the error state from anywhere. */
  predicate Allowed(from: LinkState, to: LinkState) {
    to.Error? || (Rank(to) == Rank(from) + 1 && !to.Error?)
  }

  /** Requests one move after another; a refused request changes nothing. */
  function Requested(s: LinkState, requests: seq<LinkState>): (r: LinkState)
    decreases |requests|
  {
    if requests == [] then s
    else Requested(if Allowed(s, requests[0]) then requests[0] else s, requests[1..])
  }

  /** Whatever is requested, a link never moves back, and an error is final. */
  lemma {:induction false} NeverMovesBack(s: LinkState, requests: seq<LinkState>)
    ensures Rank(s) <= Rank(Requested(s, requests))
    ensures s.Error? ==> Requested(s, requests).Error?
    decreases |requests|
  {
    if requests == [] {
    } else {
      NeverMovesBack(if Allowed(s, requests[0]) then requests[0] else s, requests[1..]);
    }
  }

  /** The moves still needed to be ready to send appear among the requests, in order. */
  lemma {:induction false} ReadyNeedsEveryStep(s: LinkState, requests: seq<LinkState>)
    requires Requested(s, requests).ReadyToSend?
    ensures Subsequence(MovesToReady(s), requests)
    decreases |requests|
  {
    if requests == [] {
    } else {
      var to := requests[0];
      var s1 := if Allowed(s, to) then to else s;
      NeverMovesBack(s1, requests[1..]);
      ReadyNeedsEveryStep(s1, requests[1..]);
    }
  }

  function MovesToReady(s: LinkState): (moves: seq<LinkState>) {
    match s
    case Reset => [Init, ReadyToReceive, ReadyToSend]
    case Init => [ReadyToReceive, ReadyToSend]
    case ReadyToReceive => [ReadyToSend]
    case ReadyToSend => []
    case Error => []
  }

  predicate Subsequence(a: seq<LinkState>, b: seq<LinkState>)
    decreases |b|
  {
    a == [] || (b != [] && (Subsequence(a, b[1..]) || (a[0] == b[0] && Subsequence(a[1..], b[1..]))))
  }

  class QueuePair {
    const local: string
    const remote: string
    var state: LinkState

    constructor (local: string, remote: string)
      ensures this.local == local && this.remote == remote && state == Reset
    {
      this.local, this.remote, state := local, remote, Reset;
    }

    method TransitionTo(next: LinkState) returns (ok: bool)
      modifies this
      ensures ok == Allowed(old(state), next)
      ensures state == if ok then next else old(state)
    {
      match state {
        case Reset => if next == Init { state := next; return true; }
        case Init => if next == ReadyToReceive { state := next; return true; }
        case ReadyToReceive => if next == ReadyToSend { state := next; return true; }
        case ReadyToSend => if next == Error { state := next; return true; }
        case Error =>
      }
      if next == Error { state := next; return true; }
      return false;
    }

    /** Succeeds from every state but the error state. */
    method BringUp() returns (ready: bool)
      modifies this
      ensures ready == (old(state) != Error)
      ensures state == if ready then ReadyToSend else Error
    {
      var ok;
      if state == Reset {
        ok := TransitionTo(Init);
      }
      if state == Init {
        ok := TransitionTo(ReadyToReceive);
      }
      if state == ReadyToReceive {
        ok := TransitionTo(ReadyToSend);
      }
      return state == ReadyToSend;
    }
  }

  class Connection {
    const queuePair: QueuePair
    var established: bool

    /** An established connection can send. */
    ghost predicate Valid()
      reads this, queuePair
    {
      established ==> queuePair.state == ReadyToSend
    }

    constructor (queuePair: QueuePair)
      ensures this.queuePair == queuePair && !established && Valid()
    {
      this.queuePair, established := queuePair, false;
    }

    /** After a failure a connection can never be established again. */
    method Establish() returns (ok: bool)
      requires Valid()
      modifies this, queuePair
      ensures Valid() && ok == established == (old(queuePair.state) != Error)
      ensures queuePair.state == if ok then ReadyToSend else Error
    {
      if established { return true; }
      established := queuePair.BringUp();
      return established;
    }

    method Fail() returns (ok: bool)
      modifies this, queuePair
      ensures Valid() && ok && !established && queuePair.state == Error
    {
      established := false;
      ok := queuePair.TransitionTo(Error);
    }
  }
}
