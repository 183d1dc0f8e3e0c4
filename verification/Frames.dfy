/** The `id|payload` line a worker receives over TCP, in chunks of any size. */
module Frames {
  import opened Wrappers
  import opened Messages

  /** What one read can return; a read of no bytes ends the list. */
  datatype Received = Chunk(bytes: Piece) | Interrupted | Failed

  type Piece = s: string | s != "" witness "x"

  datatype Frame = Frame(id: string, prompt: string)

  /** What the scheduler writes to the connection. */
  function FrameText(id: string, payload: string): (text: string) { id + "|" + payload + "\n" }

  /** All bytes received before the connection closes. */
  function Bytes(events: seq<Received>): (text: string) {
    if events == [] then "" else (if events[0].Chunk? then events[0].bytes else "") + Bytes(events[1..])
  }

  function StripReturn(s: string): (r: string) {
    if s != "" && s[|s| - 1] == '\r' then s[..|s| - 1] else s
  }

  function FirstLine(text: string): (r: string) { text[..Find(text, '\n')] }

  /** The task named by a line, if it names one. */
  function ParseFrame(line: string): (r: Option<Frame>) {
    var i := Find(line, '|');
    if i == |line| || i == 0 then None else Some(Frame(line[..i], line[i + 1..]))
  }

  function Receive(text: string): (r: Option<Frame>) { ParseFrame(StripReturn(FirstLine(text))) }

  lemma FindInPrefix(a: string, b: string, c: char)
    ensures Find(a, c) < |a| ==> Find(a + b, c) == Find(a, c)
    ensures Find(a, c) == |a| ==> Find(a + b, c) >= |a|
  {
    var i, j := Find(a, c), Find(a + b, c);
    assert forall k :: 0 <= k < |a| ==> (a + b)[k] == a[k];
  }

  lemma {:induction false} BytesAppend(a: seq<Received>, b: seq<Received>)
    ensures Bytes(a + b) == Bytes(a) + Bytes(b)
  {
    if a == [] {
      assert a + b == b;
    } else {
      assert (a + b)[1..] == a[1..] + b;
      BytesAppend(a[1..], b);
    }
  }

  lemma BytesStep(events: seq<Received>, i: nat)
    requires i < |events|
    ensures Bytes(events[..i + 1]) == Bytes(events[..i]) + if events[i].Chunk? then events[i].bytes else ""
    ensures Bytes(events[i..]) == (if events[i].Chunk? then events[i].bytes else "") + Bytes(events[i + 1..])
    ensures events[..i + 1] == events[..i] + [events[i]]
  {
    assert events[..i + 1] == events[..i] + [events[i]];
    BytesAppend(events[..i], [events[i]]);
    assert [events[i]][1..] == [];
    assert events[i..][1..] == events[i + 1..];
  }

  lemma FirstLineInPrefix(events: seq<Received>, i: nat)
    requires i <= |events| && Find(Bytes(events[..i]), '\n') < |Bytes(events[..i])|
    ensures FirstLine(Bytes(events[..i])) == FirstLine(Bytes(events))
  {
    var a, b := Bytes(events[..i]), Bytes(events[i..]);
    assert events == events[..i] + events[i..];
    BytesAppend(events[..i], events[i..]);
    FindInPrefix(a, b, '\n');
    assert (a + b)[..Find(a, '\n')] == a[..Find(a, '\n')];
  }

  /** The first failed read, or the number of events when there is none. */
  function FailureAt(events: seq<Received>): (k: nat)
    ensures k <= |events| && (k < |events| ==> events[k].Failed?)
    ensures forall i :: 0 <= i < k ==> !events[i].Failed?
  {
    if events == [] || events[0].Failed? then 0 else 1 + FailureAt(events[1..])
  }

  function Arrived(events: seq<Received>): (text: string) { Bytes(events[..FailureAt(events)]) }

  /** A read fails before any newline has arrived. */
  predicate BrokenOff(events: seq<Received>) { FailureAt(events) < |events| && '\n' !in Arrived(events) }

  lemma FirstLineArrived(events: seq<Received>, i: nat)
    requires i <= FailureAt(events) && '\n' in Bytes(events[..i])
    ensures FirstLine(Bytes(events[..i])) == FirstLine(Arrived(events)) && '\n' in Arrived(events)
  {
    var arrived := events[..FailureAt(events)];
    assert arrived[..i] == events[..i];
    FirstLineInPrefix(arrived, i);
    assert arrived == arrived[..i] + arrived[i..];
    BytesAppend(arrived[..i], arrived[i..]);
  }

  /** Accumulates chunks until one brings a newline, or the connection closes. */
  method ReadLine(events: seq<Received>) returns (line: Option<string>)
    ensures line == if BrokenOff(events) then None else Some(FirstLine(Arrived(events)))
  {
    var payload := "";
    for i := 0 to |events|
      invariant payload == Bytes(events[..i]) && '\n' !in payload && i <= FailureAt(events)
    {
      BytesStep(events, i);
      match events[i]
      case Interrupted =>
      case Failed => return None;
      case Chunk(bytes) =>
        payload := payload + bytes;
        var newline := Find(payload, '\n');
        if newline != |payload| {
          FirstLineArrived(events, i + 1);
          return Some(payload[..newline]);
        }
    }
    assert Arrived(events) == payload && FirstLine(payload) == payload;
    return Some(payload);
  }

  /** A read that fails too early drops what was received; otherwise only the bytes matter, not the chunks. */
  method HandleClient(events: seq<Received>) returns (task: Option<Frame>)
    ensures task == if BrokenOff(events) then None else Receive(Arrived(events))
    ensures Failed !in events ==> task == Receive(Bytes(events))
  {
    assert Failed !in events ==> FailureAt(events) == |events| && events[..FailureAt(events)] == events;
    var line := ReadLine(events);
    if line.None? { return None; }
    var payload := line.value;
    if payload != "" && payload[|payload| - 1] == '\r' { payload := payload[..|payload| - 1]; }
    if payload == "" { return None; }
    var separator := Find(payload, '|');
    if separator == |payload| { return None; }
    task := Some(Frame(payload[..separator], payload[separator + 1..]));
    if separator == 0 { return None; }
  }

  predicate Sendable(id: string, payload: string) {
    && id != "" && '|' !in id && '\n' !in id && '\n' !in payload
    && (payload != "" ==> payload[|payload| - 1] != '\r')
  }

  lemma FirstLineOfFrame(id: string, payload: string)
    requires '\n' !in id && '\n' !in payload
    ensures FirstLine(FrameText(id, payload)) == id + "|" + payload
  {
    var line := id + "|" + payload;
    assert FrameText(id, payload) == line + ['\n'] + "";
    FindAfter(line, '\n', "");
  }

  /** A line, with or without a final carriage return, names a task exactly when it is an id, a bar and the prompt. */
  lemma ReceiveIff(text: string, id: string, prompt: string)
    ensures Receive(text) == Some(Frame(id, prompt)) <==>
      var line := FirstLine(text);
      && id != "" && '|' !in id
      && line == id + "|" + prompt + if line != "" && line[|line| - 1] == '\r' then "\r" else ""
  {
    var line := FirstLine(text);
    var kept := StripReturn(line);
    SplitIff(kept, id, prompt);
    if line != "" && line[|line| - 1] == '\r' {
      assert line == kept + "\r";
      assert id + "|" + prompt + "\r" == (id + "|" + prompt) + "\r";
      if line == id + "|" + prompt + "\r" { assert line[..|line| - 1] == id + "|" + prompt; }
    }
  }

  lemma SplitIff(line: string, id: string, prompt: string)
    ensures ParseFrame(line) == Some(Frame(id, prompt)) <==> id != "" && '|' !in id && line == id + "|" + prompt
  {
    var i := Find(line, '|');
    if id != "" && '|' !in id && line == id + "|" + prompt {
      assert line == id + ['|'] + prompt;
      FindAfter(id, '|', prompt);
      assert line[..|id|] == id && line[|id| + 1..] == prompt;
    }
    if i < |line| { assert line == line[..i] + "|" + line[i + 1..]; }
  }

  lemma ReceivedIsPlain(text: string)
    ensures var r := Receive(text);
      r.Some? ==> r.value.id != "" && '|' !in r.value.id && '\n' !in r.value.id && '\n' !in r.value.prompt
  {
  }

  /** A frame arrives as it was sent exactly when its parts are sendable. */
  lemma FrameRoundTripIff(id: string, payload: string)
    ensures Receive(FrameText(id, payload)) == Some(Frame(id, payload)) <==> Sendable(id, payload)
  {
    ReceivedIsPlain(FrameText(id, payload));
    if '\n' !in id && '\n' !in payload && id != "" && '|' !in id {
      FirstLineOfFrame(id, payload);
      var line := id + "|" + payload;
      if payload != "" && payload[|payload| - 1] == '\r' {
        assert line[..|line| - 1] == id + ['|'] + payload[..|payload| - 1];
        FindAfter(id, '|', payload[..|payload| - 1]);
      } else {
        assert StripReturn(line) == line == id + ['|'] + payload;
        FindAfter(id, '|', payload);
        assert line[..|id|] == id && line[|id| + 1..] == payload;
      }
    }
  }
}
