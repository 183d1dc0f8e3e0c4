/** The line-oriented text form of task and result messages. Characters stand for bytes. */
module Messages {
  import opened Order

  // ----- Lines -----

  /** Position of the first `c` from `i` on, or the length when there is none. */
  function FindFrom(s: string, c: char, i: nat): (k: nat)
    requires i <= |s|
    ensures i <= k <= |s| && (k < |s| ==> s[k] == c) && (forall j :: i <= j < k ==> s[j] != c)
    decreases |s| - i
  {
    if i == |s| || s[i] == c then i else FindFrom(s, c, i + 1)
  }

  function Find(s: string, c: char): (k: nat)
    ensures k <= |s| && (k < |s| ==> s[k] == c) && (forall j :: 0 <= j < k ==> s[j] != c)
  {
    FindFrom(s, c, 0)
  }

  /** What repeated `getline` yields: no extra line after a final newline. */
  function Lines(text: string): (ls: seq<string>)
    decreases |text|
  {
    if text == "" then [] else
      var i := Find(text, '\n');
      if i == |text| then [text] else [text[..i]] + Lines(text[i + 1..])
  }

  function Unlines(ls: seq<string>): (text: string) {
    if ls == [] then "" else ls[0] + "\n" + Unlines(ls[1..])
  }

  predicate OneLine(s: string) { '\n' !in s }

  ghost predicate AllOneLine(ls: seq<string>) { forall i :: 0 <= i < |ls| ==> OneLine(ls[i]) }

  lemma FindAfter(a: string, c: char, b: string)
    requires c !in a
    ensures Find(a + [c] + b, c) == |a|
  {
    var s := a + [c] + b;
    var i := Find(s, c);
    assert s[|a|] == c;
    assert forall j :: 0 <= j < |a| ==> s[j] == a[j];
  }

  lemma {:induction false} LinesOfUnlines(ls: seq<string>)
    requires AllOneLine(ls)
    ensures Lines(Unlines(ls)) == ls
  {
    if ls == [] {
    } else {
      var text, rest := Unlines(ls), Unlines(ls[1..]);
      assert text == ls[0] + ['\n'] + rest;
      FindAfter(ls[0], '\n', rest);
      assert text[..|ls[0]|] == ls[0] && text[|ls[0]| + 1..] == rest;
      LinesOfUnlines(ls[1..]);
    }
  }

  lemma {:induction false} LinesAreOneLine(text: string)
    ensures AllOneLine(Lines(text))
    decreases |text|
  {
    if text == "" {
    } else {
      var i := Find(text, '\n');
      if i < |text| { LinesAreOneLine(text[i + 1..]); }
    }
  }

  lemma {:induction false} UnlinesConcat(a: seq<string>, b: seq<string>)
    ensures Unlines(a + b) == Unlines(a) + Unlines(b)
  {
    if a == [] {
      assert a + b == b;
    } else {
      assert (a + b)[1..] == a[1..] + b;
      UnlinesConcat(a[1..], b);
    }
  }

  // ----- Entries -----

  datatype Entry = Meta(key: string, value: string) | Field(key: string, value: string) | Skip

  function ParseLine(line: string): (e: Entry) {
    if line == "" then Skip
    else if "meta:" <= line then
      var pair := line[5..];
      var pos := Find(pair, '=');
      if pos == |pair| then Skip else Meta(pair[..pos], pair[pos + 1..])
    else
      var pos := Find(line, '=');
      if pos == |line| then Skip else Field(line[..pos], line[pos + 1..])
  }

  /** What a message text says: for each key the last value given. */
  datatype Parsed = Parsed(fields: map<string, string>, metadata: map<string, string>)

  function Collect(p: Parsed, e: Entry): (r: Parsed) {
    match e
    case Meta(k, v) => p.(metadata := p.metadata[k := v])
    case Field(k, v) => p.(fields := p.fields[k := v])
    case Skip => p
  }

  function ParseLines(ls: seq<string>): (p: Parsed) {
    if ls == [] then Parsed(map[], map[])
    else Collect(ParseLines(ls[..|ls| - 1]), ParseLine(ls[|ls| - 1]))
  }

  lemma ParseLinesExtends(ls: seq<string>, line: string)
    ensures ParseLines(ls + [line]) == Collect(ParseLines(ls), ParseLine(line))
  {
    assert (ls + [line])[..|ls|] == ls;
  }

  function Get(m: map<string, string>, key: string): (v: string) { if key in m then m[key] else "" }

  ghost predicate CleanMetadata(m: map<string, string>) {
    forall k :: k in m ==> OneLine(k) && '=' !in k && OneLine(m[k])
  }

  ghost predicate CleanParsed(p: Parsed) {
    CleanMetadata(p.metadata) && forall k :: k in p.fields ==> OneLine(p.fields[k])
  }

  /** A parsed text never holds a newline, nor a metadata key with an equals sign. */
  lemma {:induction false} ParsedIsClean(ls: seq<string>)
    requires AllOneLine(ls)
    ensures CleanParsed(ParseLines(ls))
  {
    if ls == [] {
    } else {
      ParsedIsClean(ls[..|ls| - 1]);
      assert OneLine(ls[|ls| - 1]);
    }
  }

  // ----- Encoding -----

  function FieldLine(key: string, value: string): (l: string) { key + "=" + value }

  function MetaLine(key: string, value: string): (l: string) { "meta:" + key + "=" + value }

  function MetaLines(m: map<string, string>, keys: seq<string>): (ls: seq<string>)
    requires forall k :: k in keys ==> k in m
    ensures |ls| == |keys|
  {
    if keys == [] then [] else
      var last := keys[|keys| - 1];
      MetaLines(m, keys[..|keys| - 1]) + [MetaLine(last, m[last])]
  }

  /** Metadata keys in map order. */
  ghost function SortedKeys(m: map<string, string>): (keys: seq<string>)
    ensures Enumerates(Less, keys, m.Keys)
  {
    LessIsStrictTotal();
    SortSet(Less, m.Keys)
  }

  /** A field name no metadata line can be confused with. */
  predicate FieldName(name: string) { name != "" && name[0] != 'm' && '=' !in name && OneLine(name) }

  lemma ParseFieldLine(key: string, value: string)
    requires FieldName(key)
    ensures ParseLine(FieldLine(key, value)) == Field(key, value)
  {
    var line := FieldLine(key, value);
    assert line == key + ['='] + value;
    assert line[0] != "meta:"[0];
    FindAfter(key, '=', value);
    assert line[..|key|] == key && line[|key| + 1..] == value;
  }

  lemma ParseMetaLine(key: string, value: string)
    requires '=' !in key
    ensures ParseLine(MetaLine(key, value)) == Meta(key, value)
  {
    var line := MetaLine(key, value);
    var pair := line[5..];
    assert line[..5] == "meta:";
    assert pair == key + ['='] + value;
    FindAfter(key, '=', value);
    assert pair[..|key|] == key && pair[|key| + 1..] == value;
  }

  lemma {:induction false} ParseMetaLines(before: seq<string>, m: map<string, string>, keys: seq<string>)
    requires CleanMetadata(m) && forall k :: k in keys ==> k in m
    requires ParseLines(before).metadata == map[]
    ensures
      var p := ParseLines(before + MetaLines(m, keys));
      && p.fields == ParseLines(before).fields
      && p.metadata == Restrict(m, keys)
    decreases |keys|
  {
    if keys == [] {
      assert before + [] == before;
    } else {
      var init, last := keys[..|keys| - 1], keys[|keys| - 1];
      ParseMetaLines(before, m, init);
      var line := MetaLine(last, m[last]);
      assert before + MetaLines(m, keys) == (before + MetaLines(m, init)) + [line];
      ParseLinesExtends(before + MetaLines(m, init), line);
      ParseMetaLine(last, m[last]);
      RestrictExtends(m, keys);
    }
  }

  function Restrict(m: map<string, string>, keys: seq<string>): (r: map<string, string>) {
    map k | k in keys && k in m :: m[k]
  }

  lemma RestrictExtends(m: map<string, string>, keys: seq<string>)
    requires keys != [] && keys[|keys| - 1] in m
    ensures Restrict(m, keys) == Restrict(m, keys[..|keys| - 1])[keys[|keys| - 1] := m[keys[|keys| - 1]]]
  {
    assert keys == keys[..|keys| - 1] + [keys[|keys| - 1]];
  }

  lemma {:induction false} MetaLinesAreOneLine(m: map<string, string>, keys: seq<string>)
    requires CleanMetadata(m) && forall k :: k in keys ==> k in m
    ensures AllOneLine(MetaLines(m, keys))
  {
    if keys == [] {
    } else {
      var last := keys[|keys| - 1];
      MetaLinesAreOneLine(m, keys[..|keys| - 1]);
      assert last in keys;
      assert OneLine(MetaLine(last, m[last]));
    }
  }

  /** Five named values, as both message types have. */
  datatype Header = Header(names: seq<string>, values: seq<string>)

  function HeaderLines(h: Header): (ls: seq<string>)
    requires |h.names| == |h.values|
    ensures |ls| == |h.names|
  {
    seq(|h.names|, i requires 0 <= i < |h.names| && |h.names| == |h.values| => FieldLine(h.names[i], h.values[i]))
  }

  ghost predicate HeaderOk(h: Header) {
    && |h.names| == |h.values| && Distinct(h.names)
    && forall i :: 0 <= i < |h.names| ==> FieldName(h.names[i])
  }

  ghost predicate HeaderClean(h: Header) { forall i :: 0 <= i < |h.values| ==> OneLine(h.values[i]) }

  /** One more header line sets one more field. */
  lemma {:induction false} HeaderStep(h: Header, k: nat)
    requires HeaderOk(h) && k < |h.names|
    ensures
      var p := ParseLines(HeaderLines(h)[..k]);
      ParseLines(HeaderLines(h)[..k + 1]) == p.(fields := p.fields[h.names[k] := h.values[k]])
  {
    var ls := HeaderLines(h);
    assert ls[..k + 1] == ls[..k] + [ls[k]];
    ParseLinesExtends(ls[..k], ls[k]);
    ParseFieldLine(h.names[k], h.values[k]);
  }

  lemma {:induction false} ParseHeader(h: Header, k: nat)
    requires HeaderOk(h) && k <= |h.names|
    ensures
      var p := ParseLines(HeaderLines(h)[..k]);
      && p.metadata == map[]
      && forall i :: 0 <= i < k ==> h.names[i] in p.fields && p.fields[h.names[i]] == h.values[i]
  {
    if k == 0 {
    } else {
      ParseHeader(h, k - 1);
      HeaderStep(h, k - 1);
    }
  }

  lemma {:induction false} ParsedNames(h: Header, k: nat, name: string)
    requires HeaderOk(h) && k <= |h.names| && name in ParseLines(HeaderLines(h)[..k]).fields
    ensures name in h.names
  {
    if k == 0 {
    } else {
      HeaderStep(h, k - 1);
      if name != h.names[k - 1] { ParsedNames(h, k - 1, name); }
    }
  }

  /** The text of a header and metadata. */
  ghost function Encode(h: Header, m: map<string, string>): (text: string)
    requires |h.names| == |h.values|
  {
    Unlines(HeaderLines(h) + MetaLines(m, SortedKeys(m)))
  }

  function Decode(text: string): (p: Parsed) { ParseLines(Lines(text)) }

  /** Clean values survive encoding and decoding. */
  lemma DecodeEncode(h: Header, m: map<string, string>)
    requires HeaderOk(h) && HeaderClean(h) && CleanMetadata(m)
    ensures
      var p := Decode(Encode(h, m));
      && p.metadata == m
      && (forall i :: 0 <= i < |h.names| ==> Get(p.fields, h.names[i]) == h.values[i])
      && (forall name :: name in p.fields ==> name in h.names)
  {
    var hs := HeaderLines(h);
    DecodeHeader(h, m);
    ParseHeader(h, |h.names|);
    assert hs[..|h.names|] == hs;
    forall name | name in ParseLines(hs).fields ensures name in h.names { ParsedNames(h, |h.names|, name); }
  }

  lemma DecodeHeader(h: Header, m: map<string, string>)
    requires HeaderOk(h) && HeaderClean(h) && CleanMetadata(m)
    ensures Decode(Encode(h, m)).metadata == m && Decode(Encode(h, m)).fields == ParseLines(HeaderLines(h)).fields
  {
    var hs, ms := HeaderLines(h), MetaLines(m, SortedKeys(m));
    MetaLinesAreOneLine(m, SortedKeys(m));
    assert AllOneLine(hs + ms);
    LinesOfUnlines(hs + ms);
    ParseHeader(h, |h.names|);
    assert hs[..|h.names|] == hs;
    ParseMetaLines(hs, m, SortedKeys(m));
    assert Restrict(m, SortedKeys(m)) == m;
  }

  lemma DecodeIsClean(text: string)
    ensures CleanParsed(Decode(text))
  {
    LinesAreOneLine(text);
    ParsedIsClean(Lines(text));
  }

  // ----- Task messages -----

  datatype TaskMessage = TaskMessage(
    taskId: string, kind: string, sourceNode: string, targetNode: string, description: string,
    metadata: map<string, string>)

  function TaskHeader(m: TaskMessage): (h: Header) {
    Header(["task_id", "kind", "source_node", "target_node", "description"],
           [m.taskId, m.kind, m.sourceNode, m.targetNode, m.description])
  }

  ghost function SerializeTask(m: TaskMessage): (text: string) { Encode(TaskHeader(m), m.metadata) }

  function TaskOf(p: Parsed): (m: TaskMessage) {
    TaskMessage(Get(p.fields, "task_id"), Get(p.fields, "kind"), Get(p.fields, "source_node"),
                Get(p.fields, "target_node"), Get(p.fields, "description"), p.metadata)
  }

  function DeserializeTask(text: string): (m: TaskMessage) { TaskOf(Decode(text)) }

  ghost predicate CleanTask(m: TaskMessage) {
    && OneLine(m.taskId) && OneLine(m.kind) && OneLine(m.sourceNode) && OneLine(m.targetNode)
    && OneLine(m.description) && CleanMetadata(m.metadata)
  }

  lemma DecodedTaskIsClean(text: string)
    ensures CleanTask(DeserializeTask(text))
  {
    DecodeIsClean(text);
  }

  lemma TaskHeaderOk(m: TaskMessage)
    ensures HeaderOk(TaskHeader(m))
  {
  }

  /** A task message survives the wire exactly when its text can hold it. */
  lemma TaskRoundTripIff(m: TaskMessage)
    ensures DeserializeTask(SerializeTask(m)) == m <==> CleanTask(m)
  {
    DecodedTaskIsClean(SerializeTask(m));
    if CleanTask(m) {
      var h := TaskHeader(m);
      TaskHeaderOk(m);
      DecodeEncode(h, m.metadata);
      var p := Decode(Encode(h, m.metadata));
      assert forall i :: 0 <= i < 5 ==> Get(p.fields, h.names[i]) == h.values[i];
      assert h.names[0] == "task_id" && h.names[1] == "kind" && h.names[2] == "source_node";
      assert h.names[3] == "target_node" && h.names[4] == "description";
    }
  }

  /** Reading, writing and reading again changes nothing, for every buffer. */
  lemma TaskReadIsStable(text: string)
    ensures DeserializeTask(SerializeTask(DeserializeTask(text))) == DeserializeTask(text)
  {
    DecodedTaskIsClean(text);
    TaskRoundTripIff(DeserializeTask(text));
  }

  // ----- Result messages -----

  datatype ResultMessage = ResultMessage(
    taskId: string, workerNode: string, targetNode: string, success: bool, detail: string,
    metadata: map<string, string>)

  function ResultHeader(m: ResultMessage): (h: Header) {
    Header(["task_id", "worker_node", "target_node", "success", "detail"],
           [m.taskId, m.workerNode, m.targetNode, if m.success then "1" else "0", m.detail])
  }

  ghost function SerializeResult(m: ResultMessage): (text: string) { Encode(ResultHeader(m), m.metadata) }

  function ResultOf(p: Parsed): (m: ResultMessage) {
    ResultMessage(Get(p.fields, "task_id"), Get(p.fields, "worker_node"), Get(p.fields, "target_node"),
                  Get(p.fields, "success") == "1", Get(p.fields, "detail"), p.metadata)
  }

  function DeserializeResult(text: string): (m: ResultMessage) { ResultOf(Decode(text)) }

  ghost predicate CleanResult(m: ResultMessage) {
    && OneLine(m.taskId) && OneLine(m.workerNode) && OneLine(m.targetNode)
    && OneLine(m.detail) && CleanMetadata(m.metadata)
  }

  lemma DecodedResultIsClean(text: string)
    ensures CleanResult(DeserializeResult(text))
  {
    DecodeIsClean(text);
  }

  lemma ResultHeaderOk(m: ResultMessage)
    ensures HeaderOk(ResultHeader(m))
  {
  }

  /** A result message survives the wire exactly when its text can hold it. */
  lemma ResultRoundTripIff(m: ResultMessage)
    ensures DeserializeResult(SerializeResult(m)) == m <==> CleanResult(m)
  {
    DecodedResultIsClean(SerializeResult(m));
    if CleanResult(m) {
      var h := ResultHeader(m);
      ResultHeaderOk(m);
      DecodeEncode(h, m.metadata);
      var p := Decode(Encode(h, m.metadata));
      assert forall i :: 0 <= i < 5 ==> Get(p.fields, h.names[i]) == h.values[i];
      assert h.names[0] == "task_id" && h.names[1] == "worker_node" && h.names[2] == "target_node";
      assert h.names[3] == "success" && h.names[4] == "detail";
    }
  }

  /** Read as a task, a result keeps its task id, target and metadata, and nothing else. */
  lemma ResultReadAsTask(m: ResultMessage)
    requires CleanResult(m)
    ensures DeserializeTask(SerializeResult(m)) == TaskMessage(m.taskId, "", "", m.targetNode, "", m.metadata)
  {
    var h := ResultHeader(m);
    ResultHeaderOk(m);
    DecodeEncode(h, m.metadata);
    var p := Decode(Encode(h, m.metadata));
    assert h.names[0] == "task_id" && h.names[2] == "target_node";
    assert "kind" !in h.names && "source_node" !in h.names && "description" !in h.names;
  }

  lemma ResultReadIsStable(text: string)
    ensures DeserializeResult(SerializeResult(DeserializeResult(text))) == DeserializeResult(text)
  {
    DecodedResultIsClean(text);
    ResultRoundTripIff(DeserializeResult(text));
  }

  // ----- The loops -----

  /** Appends one line per field, then one per metadata pair in key order. */
  method WriteTask(m: TaskMessage) returns (text: string)
    ensures text == SerializeTask(m)
  {
    var h := TaskHeader(m);
    text := WriteHeader(h);
    var meta := WriteMetadata(m.metadata);
    UnlinesConcat(HeaderLines(h), MetaLines(m.metadata, SortedKeys(m.metadata)));
    text := text + meta;
  }

  method WriteResult(m: ResultMessage) returns (text: string)
    ensures text == SerializeResult(m)
  {
    var h := ResultHeader(m);
    text := WriteHeader(h);
    var meta := WriteMetadata(m.metadata);
    UnlinesConcat(HeaderLines(h), MetaLines(m.metadata, SortedKeys(m.metadata)));
    text := text + meta;
  }

  method WriteHeader(h: Header) returns (text: string)
    requires |h.names| == |h.values|
    ensures text == Unlines(HeaderLines(h))
  {
    text := "";
    ghost var ls := HeaderLines(h);
    for i := 0 to |h.names|
      invariant text == Unlines(ls[..i])
    {
      assert ls[..i + 1] == ls[..i] + [ls[i]];
      UnlinesConcat(ls[..i], [ls[i]]);
      assert Unlines([ls[i]]) == ls[i] + "\n";
      text := text + (h.names[i] + "=" + h.values[i] + "\n");
    }
    assert ls[..|h.names|] == ls;
  }

  method WriteMetadata(m: map<string, string>) returns (text: string)
    ensures text == Unlines(MetaLines(m, SortedKeys(m)))
  {
    var keys := OrderedKeys(m);
    text := "";
    for i := 0 to |keys|
      invariant forall k :: k in keys[..i] ==> k in m
      invariant text == Unlines(MetaLines(m, keys[..i]))
    {
      assert keys[i] in m.Keys;
      ghost var done := MetaLines(m, keys[..i]);
      ghost var line := MetaLine(keys[i], m[keys[i]]);
      assert keys[..i + 1][..i] == keys[..i];
      UnlinesConcat(done, [line]);
      assert Unlines([line]) == line + "\n";
      text := text + ("meta:" + keys[i] + "=" + m[keys[i]] + "\n");
    }
    assert keys[..|keys|] == keys;
  }

  /** The order in which a `std::map` is walked. */
  method OrderedKeys(m: map<string, string>) returns (keys: seq<string>)
    ensures keys == SortedKeys(m)
  {
    var found: seq<string> := [];
    var remaining := m.Keys;
    while remaining != {}
      invariant remaining <= m.Keys && Distinct(found)
      invariant forall k :: k in found <==> k in m && k !in remaining
    {
      var k :| k in remaining;
      remaining := remaining - {k};
      found := found + [k];
    }
    LessIsStrictTotal();
    keys := Sort(Less, found);
    SortedUnique(Less, keys, SortedKeys(m), m.Keys);
  }

  lemma {:induction false} LinesSplit(text: string, i: nat, rest: string)
    requires text != "" && i == Find(text, '\n') && rest == if i == |text| then "" else text[i + 1..]
    ensures Lines(text) == [text[..i]] + Lines(rest)
  {
    if i == |text| { assert text[..i] == text && Lines(rest) == []; }
  }

  /** One `getline`: the next line and what follows it. */
  method NextLine(text: string) returns (line: string, rest: string)
    requires text != ""
    ensures Lines(text) == [line] + Lines(rest) && |rest| < |text|
  {
    var i := FindNewline(text);
    line, rest := text[..i], if i == |text| then "" else text[i + 1..];
    LinesSplit(text, i, rest);
  }

  method FindNewline(text: string) returns (i: nat)
    ensures i == Find(text, '\n')
  {
    i := 0;
    while i < |text| && text[i] != '\n'
      invariant i <= Find(text, '\n')
    {
      i := i + 1;
    }
  }

  lemma LineRead(all: seq<string>, done: seq<string>, line: string, rest: seq<string>)
    requires all == done + ([line] + rest)
    ensures all == (done + [line]) + rest && ParseLines(done + [line]) == Collect(ParseLines(done), ParseLine(line))
  {
    ParseLinesExtends(done, line);
  }

  method ReadTask(text: string) returns (m: TaskMessage)
    ensures m == DeserializeTask(text)
  {
    m := TaskMessage("", "", "", "", "", map[]);
    var rest := text;
    ghost var done: seq<string> := [];
    while rest != ""
      invariant Lines(text) == done + Lines(rest)
      invariant m == TaskOf(ParseLines(done))
      decreases |rest|
    {
      var line, after := NextLine(rest);
      LineRead(Lines(text), done, line, Lines(after));
      m := ReadTaskEntry(m, ParseLine(line), ParseLines(done));
      done := done + [line];
      rest := after;
    }
    assert Lines(text) == done;
  }

  /** The branches of the reading loop. */
  method ReadTaskEntry(m: TaskMessage, e: Entry, ghost p: Parsed) returns (r: TaskMessage)
    requires m == TaskOf(p)
    ensures r == TaskOf(Collect(p, e))
  {
    match e
    case Skip => r := m;
    case Meta(key, value) => r := m.(metadata := m.metadata[key := value]);
    case Field(key, value) =>
      r := m;
      if key == "task_id" {
        r := r.(taskId := value);
      } else if key == "kind" {
        r := r.(kind := value);
      } else if key == "source_node" {
        r := r.(sourceNode := value);
      } else if key == "target_node" {
        r := r.(targetNode := value);
      } else if key == "description" {
        r := r.(description := value);
      }
  }

  method ReadResult(text: string) returns (m: ResultMessage)
    ensures m == DeserializeResult(text)
  {
    m := ResultMessage("", "", "", false, "", map[]);
    var rest := text;
    ghost var done: seq<string> := [];
    while rest != ""
      invariant Lines(text) == done + Lines(rest)
      invariant m == ResultOf(ParseLines(done))
      decreases |rest|
    {
      var line, after := NextLine(rest);
      LineRead(Lines(text), done, line, Lines(after));
      m := ReadResultEntry(m, ParseLine(line), ParseLines(done));
      done := done + [line];
      rest := after;
    }
    assert Lines(text) == done;
  }

  method ReadResultEntry(m: ResultMessage, e: Entry, ghost p: Parsed) returns (r: ResultMessage)
    requires m == ResultOf(p)
    ensures r == ResultOf(Collect(p, e))
  {
    match e
    case Skip => r := m;
    case Meta(key, value) => r := m.(metadata := m.metadata[key := value]);
    case Field(key, value) =>
      r := m;
      if key == "task_id" {
        r := r.(taskId := value);
      } else if key == "worker_node" {
        r := r.(workerNode := value);
      } else if key == "target_node" {
        r := r.(targetNode := value);
      } else if key == "success" {
        r := r.(success := value == "1");
      } else if key == "detail" {
        r := r.(detail := value);
      }
  }
}
