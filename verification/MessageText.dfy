/** What the text of a message consists of, and what is read from any text, line by line. */
module MessageText {
  import opened Wrappers
  import opened Order
  import opened Messages

  // ----- Writing -----

  lemma UnlinesCons(line: string, ls: seq<string>)
    ensures Unlines([line] + ls) == line + "\n" + Unlines(ls)
  {
    assert ([line] + ls)[1..] == ls;
  }

  /** Splitting loses nothing but a missing final newline. */
  lemma {:induction false} UnlinesOfLines(text: string)
    ensures Unlines(Lines(text)) == if text == "" || text[|text| - 1] == '\n' then text else text + "\n"
    decreases |text|
  {
    if text == "" {
    } else {
      var i := Find(text, '\n');
      var rest := if i == |text| then "" else text[i + 1..];
      LinesSplit(text, i, rest);
      UnlinesOfLines(rest);
      UnlinesCons(text[..i], Lines(rest));
      Rejoined(text, i, rest);
    }
  }

  lemma Rejoined(text: string, i: nat, rest: string)
    requires text != "" && i == Find(text, '\n') && rest == if i == |text| then "" else text[i + 1..]
    ensures
      var ended := if rest == "" || rest[|rest| - 1] == '\n' then rest else rest + "\n";
      text[..i] + "\n" + ended == if text[|text| - 1] == '\n' then text else text + "\n"
  {
    if i == |text| {
      assert text[..i] == text;
    } else {
      assert text == text[..i] + "\n" + rest;
    }
  }

  lemma {:induction false} MetaLinesAt(m: map<string, string>, keys: seq<string>, i: nat)
    requires (forall k :: k in keys ==> k in m) && i < |keys|
    ensures MetaLines(m, keys)[i] == "meta:" + keys[i] + "=" + m[keys[i]]
    decreases |keys|
  {
    if i == |keys| - 1 {
    } else {
      assert forall k :: k in keys[..|keys| - 1] ==> k in keys;
      MetaLinesAt(m, keys[..|keys| - 1], i);
    }
  }

  /** One line per metadata pair, in key order. */
  ghost predicate MetadataText(m: map<string, string>, keys: seq<string>, metas: seq<string>) {
    && Enumerates(Less, keys, m.Keys) && |metas| == |keys|
    && forall i :: 0 <= i < |keys| ==> keys[i] in m && metas[i] == "meta:" + keys[i] + "=" + m[keys[i]]
  }

  lemma MetadataLines(m: map<string, string>) returns (keys: seq<string>, metas: seq<string>)
    ensures keys == SortedKeys(m) && metas == MetaLines(m, keys) && MetadataText(m, keys, metas)
  {
    keys := SortedKeys(m);
    metas := MetaLines(m, keys);
    forall i | 0 <= i < |keys| ensures keys[i] in m && metas[i] == "meta:" + keys[i] + "=" + m[keys[i]] {
      assert keys[i] in m.Keys;
      MetaLinesAt(m, keys, i);
    }
  }

  lemma LiteralPrefixes()
    ensures "task_id" + "=" == "task_id=" && "kind" + "=" == "kind=" && "source_node" + "=" == "source_node="
    ensures "target_node" + "=" == "target_node=" && "description" + "=" == "description="
    ensures "worker_node" + "=" == "worker_node=" && "success" + "=" == "success=" && "detail" + "=" == "detail="
  {
  }

  function FiveLines(a: string, b: string, c: string, d: string, e: string): (ls: seq<string>) { [a, b, c, d, e] }

  /** The text of any task message, line by line. */
  lemma TaskText(m: TaskMessage) returns (keys: seq<string>, metas: seq<string>)
    ensures MetadataText(m.metadata, keys, metas)
    ensures SerializeTask(m) == Unlines(
      FiveLines("task_id=" + m.taskId, "kind=" + m.kind, "source_node=" + m.sourceNode,
                "target_node=" + m.targetNode, "description=" + m.description) + metas)
  {
    keys, metas := MetadataLines(m.metadata);
    LiteralPrefixes();
    assert HeaderLines(TaskHeader(m)) ==
      FiveLines("task_id=" + m.taskId, "kind=" + m.kind, "source_node=" + m.sourceNode,
                "target_node=" + m.targetNode, "description=" + m.description);
  }

  /** The text of any result message, line by line. */
  lemma ResultText(m: ResultMessage) returns (keys: seq<string>, metas: seq<string>)
    ensures MetadataText(m.metadata, keys, metas)
    ensures SerializeResult(m) == Unlines(
      FiveLines("task_id=" + m.taskId, "worker_node=" + m.workerNode, "target_node=" + m.targetNode,
                if m.success then "success=1" else "success=0", "detail=" + m.detail) + metas)
  {
    keys, metas := MetadataLines(m.metadata);
    LiteralPrefixes();
    assert "success=" + "1" == "success=1" && "success=" + "0" == "success=0";
    assert HeaderLines(ResultHeader(m)) ==
      FiveLines("task_id=" + m.taskId, "worker_node=" + m.workerNode, "target_node=" + m.targetNode,
                if m.success then "success=1" else "success=0", "detail=" + m.detail);
  }

  // ----- Reading -----

  /** The last line that starts with `prefix` goes on with the value, or no line does. */
  ghost predicate LastSays(ls: seq<string>, prefix: string, value: Option<string>) {
    match value
    case None => forall j :: 0 <= j < |ls| ==> !(prefix <= ls[j])
    case Some(v) => exists i :: 0 <= i < |ls| && SaysAt(ls, prefix, v, i)
  }

  ghost predicate SaysAt(ls: seq<string>, prefix: string, v: string, i: int)
    requires 0 <= i < |ls|
  {
    ls[i] == prefix + v && forall j :: i < j < |ls| ==> !(prefix <= ls[j])
  }

  lemma SaysNow(ls: seq<string>, prefix: string, v: string)
    ensures LastSays(ls + [prefix + v], prefix, Some(v))
  {
    assert SaysAt(ls + [prefix + v], prefix, v, |ls|);
  }

  lemma SaysStill(ls: seq<string>, line: string, prefix: string, value: Option<string>)
    requires LastSays(ls, prefix, value) && !(prefix <= line)
    ensures LastSays(ls + [line], prefix, value)
  {
    var r := ls + [line];
    assert forall j :: 0 <= j < |ls| ==> r[j] == ls[j];
    if value.Some? {
      var i :| 0 <= i < |ls| && SaysAt(ls, prefix, value.value, i);
      assert SaysAt(r, prefix, value.value, i);
    }
  }

  /** The lines say one thing only. */
  lemma SaysOnce(ls: seq<string>, prefix: string, a: Option<string>, b: Option<string>)
    requires LastSays(ls, prefix, a) && LastSays(ls, prefix, b)
    ensures a == b
  {
    if a.Some? {
      var i :| 0 <= i < |ls| && SaysAt(ls, prefix, a.value, i);
      assert prefix <= ls[i];
      if b.Some? {
        var k :| 0 <= k < |ls| && SaysAt(ls, prefix, b.value, k);
        assert prefix <= ls[k];
        assert ls[i][|prefix|..] == a.value && ls[k][|prefix|..] == b.value;
      }
    }
  }

  function Lookup(m: map<string, string>, key: string): (v: Option<string>) {
    if key in m then Some(m[key]) else None
  }

  /** A line sets a field exactly when it starts with the field's name and an equals sign. */
  lemma FieldLineIff(line: string, key: string)
    requires FieldName(key)
    ensures key + "=" <= line ==> ParseLine(line) == Field(key, line[|key| + 1..])
    ensures !(key + "=" <= line) ==> !(ParseLine(line).Field? && ParseLine(line).key == key)
  {
    if key + "=" <= line {
      assert line == key + "=" + line[|key| + 1..];
      ParseFieldLine(key, line[|key| + 1..]);
    } else if ParseLine(line).Field? {
      var pos := Find(line, '=');
      assert line == line[..pos] + "=" + line[pos + 1..];
    }
  }

  lemma {:induction false} FieldSays(ls: seq<string>, key: string)
    requires FieldName(key)
    ensures LastSays(ls, key + "=", Lookup(ParseLines(ls).fields, key))
  {
    if ls == [] {
    } else {
      var init, line := ls[..|ls| - 1], ls[|ls| - 1];
      assert ls == init + [line];
      FieldSays(init, key);
      FieldLineIff(line, key);
      if key + "=" <= line {
        assert line == key + "=" + line[|key| + 1..];
        SaysNow(init, key + "=", line[|key| + 1..]);
      } else {
        SaysStill(init, line, key + "=", Lookup(ParseLines(init).fields, key));
      }
    }
  }

  /** Likewise for metadata. */
  lemma MetaLineIff(line: string, key: string)
    requires '=' !in key
    ensures MetaLine(key, "") <= line ==> ParseLine(line) == Meta(key, line[|key| + 6..])
    ensures !(MetaLine(key, "") <= line) ==> !(ParseLine(line).Meta? && ParseLine(line).key == key)
  {
    if MetaLine(key, "") <= line {
      assert line == MetaLine(key, line[|key| + 6..]);
      ParseMetaLine(key, line[|key| + 6..]);
    } else if ParseLine(line).Meta? {
      var pos := Find(line[5..], '=');
      assert line == "meta:" + line[5..][..pos] + "=" + line[5..][pos + 1..];
    }
  }

  lemma {:induction false} MetadataSays(ls: seq<string>, key: string, prefix: string)
    requires '=' !in key && prefix == MetaLine(key, "")
    ensures LastSays(ls, prefix, Lookup(ParseLines(ls).metadata, key))
  {
    if ls == [] {
    } else {
      var init, line := ls[..|ls| - 1], ls[|ls| - 1];
      assert ls == init + [line];
      MetadataSays(init, key, prefix);
      MetaLineIff(line, key);
      if prefix <= line {
        assert line == prefix + line[|prefix|..];
        SaysNow(init, prefix, line[|prefix|..]);
      } else {
        SaysStill(init, line, prefix, Lookup(ParseLines(init).metadata, key));
      }
    }
  }

  /** A field is what the last line about it says, and empty when there is none. */
  ghost predicate Says(ls: seq<string>, prefix: string, v: string) {
    LastSays(ls, prefix, Some(v)) || (v == "" && LastSays(ls, prefix, None))
  }

  /** Metadata has exactly the keys that lines give, each with the last value given. */
  ghost predicate SaysMetadata(ls: seq<string>, metadata: map<string, string>) {
    forall key :: if '=' in key then key !in metadata
                  else LastSays(ls, "meta:" + key + "=", Lookup(metadata, key))
  }

  lemma AllMetadata(text: string)
    ensures SaysMetadata(Lines(text), Decode(text).metadata)
  {
    DecodeIsClean(text);
    var ls := Lines(text);
    forall key | '=' !in key ensures LastSays(ls, "meta:" + key + "=", Lookup(ParseLines(ls).metadata, key)) {
      assert "meta:" + key + "=" + "" == "meta:" + key + "=";
      MetadataSays(ls, key, "meta:" + key + "=");
    }
  }

  lemma FieldNames()
    ensures FieldName("task_id") && FieldName("kind") && FieldName("source_node") && FieldName("target_node")
    ensures FieldName("description") && FieldName("worker_node") && FieldName("success") && FieldName("detail")
  {
  }

  lemma FieldRead(text: string, key: string, prefix: string)
    requires FieldName(key) && prefix == key + "="
    ensures Says(Lines(text), prefix, Get(Decode(text).fields, key))
    ensures Get(Decode(text).fields, key) == "1" <==> LastSays(Lines(text), prefix, Some("1"))
  {
    var ls := Lines(text);
    FieldSays(ls, key);
    if LastSays(ls, prefix, Some("1")) { SaysOnce(ls, prefix, Some("1"), Lookup(ParseLines(ls).fields, key)); }
  }

  /** What is read from any buffer as a task: for each field the last line that gives it. */
  lemma TaskFields(text: string)
    ensures
      var m, ls := DeserializeTask(text), Lines(text);
      && Says(ls, "task_id=", m.taskId) && Says(ls, "kind=", m.kind) && Says(ls, "source_node=", m.sourceNode)
      && Says(ls, "target_node=", m.targetNode) && Says(ls, "description=", m.description)
      && SaysMetadata(ls, m.metadata)
  {
    FieldNames();
    LiteralPrefixes();
    FieldRead(text, "task_id", "task_id=");
    FieldRead(text, "kind", "kind=");
    FieldRead(text, "source_node", "source_node=");
    FieldRead(text, "target_node", "target_node=");
    FieldRead(text, "description", "description=");
    AllMetadata(text);
  }

  /** What is read from any buffer as a result. It is a success exactly when the last line on that says 1. */
  lemma ResultFields(text: string)
    ensures
      var m, ls := DeserializeResult(text), Lines(text);
      && Says(ls, "task_id=", m.taskId) && Says(ls, "worker_node=", m.workerNode)
      && Says(ls, "target_node=", m.targetNode) && Says(ls, "detail=", m.detail)
      && (m.success <==> LastSays(ls, "success=", Some("1")))
      && SaysMetadata(ls, m.metadata)
  {
    FieldNames();
    LiteralPrefixes();
    FieldRead(text, "task_id", "task_id=");
    FieldRead(text, "worker_node", "worker_node=");
    FieldRead(text, "target_node", "target_node=");
    FieldRead(text, "success", "success=");
    FieldRead(text, "detail", "detail=");
    AllMetadata(text);
  }
}
