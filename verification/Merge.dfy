/** Deep merge of Configs. Models mergeJSONValue and mergeYAMLNode of
    internal/configdoc/merge.go. */
module Merge {
  import opened Json
  import opened JsonDocument

  // ----- The plain merge of mappings -----

  function MergeJson(source: Json, target: Json): Json {
    if !source.JObject? || !target.JObject? then source
    else
      JObject(map k | k in source.members.Keys + target.members.Keys ::
        if k !in source.members then target.members[k]
        else if k in target.members then MergeJson(source.members[k], target.members[k])
        else source.members[k])
  }

  /** mergeJSONValue: the loop over the source's members, in any order, writing into the target. */
  method MergeJsonValue(source: Json, target: Json) returns (merged: Json)
    ensures merged == MergeJson(source, target)
    decreases source
  {
    if !source.JObject? || !target.JObject? {
      return source;
    }
    var mapping := target.members;
    var unseen := source.members.Keys;
    while unseen != {}
      invariant unseen <= source.members.Keys
      invariant mapping.Keys == target.members.Keys + (source.members.Keys - unseen)
      invariant forall k | k in mapping ::
        mapping[k] == if k in source.members && k !in unseen then MergeJson(source, target).members[k]
            else target.members[k]
      decreases unseen
    {
      var key :| key in unseen;
      unseen := unseen - {key};
      if key in mapping {
        var value := MergeJsonValue(source.members[key], mapping[key]);
        mapping := mapping[key := value];
      } else {
        mapping := mapping[key := source.members[key]];
      }
    }
    merged := JObject(mapping);
    assert mapping == MergeJson(source, target).members;
  }

  /** The source wins at every path where it holds anything but a mapping. */
  lemma {:induction false} SourceWins(source: Json, target: Json, path: seq<Step>)
    requires Get(source, path).Some? && !Get(source, path).value.JObject?
    ensures Get(MergeJson(source, target), path) == Get(source, path)
    decreases |path|
  {
    if path != [] && source.JObject? && target.JObject? {
      var k := path[0].key;
      if k in target.members {
        SourceWins(source.members[k], target.members[k], path[1..]);
      }
    }
  }

  /** The path leaves the document through a mapping: it follows members of mappings until one
      of them is missing. */
  predicate LeavesThroughMapping(v: Json, path: seq<Step>)
    decreases |path|
  {
    && v.JObject? && path != [] && path[0].Member?
    && (path[0].key in v.members ==> LeavesThroughMapping(v.members[path[0].key], path[1..]))
  }

  /** What the target alone holds survives. */
  lemma {:induction false} TargetSurvives(source: Json, target: Json, path: seq<Step>)
    requires LeavesThroughMapping(source, path) && Get(target, path).Some?
    ensures Get(source, path).None? && Get(MergeJson(source, target), path) == Get(target, path)
    decreases |path|
  {
    var k := path[0].key;
    if k in source.members {
      TargetSurvives(source.members[k], target.members[k], path[1..]);
    }
  }

  /** Nothing else appears: every path of the result is a path of the source, or leaves the source
      through a mapping and is a path of the target. */
  lemma {:induction false} NothingElse(source: Json, target: Json, path: seq<Step>)
    requires Get(MergeJson(source, target), path).Some?
    ensures Get(source, path).Some? || (LeavesThroughMapping(source, path) && Get(target, path).Some?)
    decreases |path|
  {
    if path != [] && source.JObject? && target.JObject? {
      var k := path[0].key;
      if k in source.members && k in target.members {
        NothingElse(source.members[k], target.members[k], path[1..]);
      }
    }
  }

  lemma {:induction false} MergeSelf(v: Json)
    ensures MergeJson(v, v) == v
  {
    if v.JObject? {
      forall k | k in v.members ensures MergeJson(v.members[k], v.members[k]) == v.members[k] {
        MergeSelf(v.members[k]);
      }
      assert MergeJson(v, v).members == v.members;
    }
  }

  /** Merging the same source twice changes nothing more. */
  lemma {:induction false} MergeIdempotent(source: Json, target: Json)
    ensures MergeJson(source, MergeJson(source, target)) == MergeJson(source, target)
  {
    if source.JObject? && target.JObject? {
      var once := MergeJson(source, target);
      var twice := MergeJson(source, once);
      forall k | k in once.members ensures twice.members[k] == once.members[k] {
        if k in source.members {
          if k in target.members {
            MergeIdempotent(source.members[k], target.members[k]);
          } else {
            MergeSelf(source.members[k]);
          }
        }
      }
      assert twice.members == once.members;
    } else if source.JObject? {
      MergeSelf(source);
    }
  }

  // ----- When merging is associative -----

  /** `over` already holds every member of `under`, at every level where both are mappings. */
  predicate Covers(over: Json, under: Json) {
    over.JObject? && under.JObject? ==>
      && under.members.Keys <= over.members.Keys
      && forall k | k in under.members :: Covers(over.members[k], under.members[k])
  }

  lemma {:induction false} CoversExactly(over: Json, under: Json)
    ensures MergeJson(over, under) == over <==> Covers(over, under)
  {
    if over.JObject? && under.JObject? {
      var merged := MergeJson(over, under);
      forall k | k in under.members && k in over.members
        ensures merged.members[k] == over.members[k] <==> Covers(over.members[k], under.members[k])
      {
        CoversExactly(over.members[k], under.members[k]);
      }
      if Covers(over, under) {
        assert merged.members == over.members;
      } else if under.members.Keys <= over.members.Keys {
        var k :| k in under.members && !Covers(over.members[k], under.members[k]);
        assert merged.members[k] != over.members[k];
      } else {
        var k :| k in under.members && k !in over.members;
        assert k in merged.members;
      }
    }
  }

  /** Wherever the outer two documents are both mappings at a path all three share, the middle one
      is a mapping too, or the first already covers the last there. */
  predicate Bridged(first: Json, middle: Json, last: Json) {
    first.JObject? && last.JObject? ==>
      if middle.JObject? then
        forall k | k in first.members && k in middle.members && k in last.members ::
          Bridged(first.members[k], middle.members[k], last.members[k])
      else Covers(first, last)
  }

  /** Deep merge is associative exactly on bridged documents. */
  lemma {:induction false} MergeAssociative(first: Json, middle: Json, last: Json)
    ensures MergeJson(first, MergeJson(middle, last)) == MergeJson(MergeJson(first, middle), last)
       <==> Bridged(first, middle, last)
  {
    if first.JObject? && last.JObject? {
      if middle.JObject? {
        var left := MergeJson(first, MergeJson(middle, last));
        var right := MergeJson(MergeJson(first, middle), last);
        assert left.members.Keys == right.members.Keys;
        forall k | k in left.members
          ensures left.members[k] == right.members[k] <==>
                  (k in first.members && k in middle.members && k in last.members ==>
                    Bridged(first.members[k], middle.members[k], last.members[k]))
        {
          if k in first.members && k in middle.members && k in last.members {
            MergeAssociative(first.members[k], middle.members[k], last.members[k]);
          }
        }
        if Bridged(first, middle, last) {
          assert left.members == right.members;
        } else {
          var k :| && k in first.members && k in middle.members && k in last.members
                   && !Bridged(first.members[k], middle.members[k], last.members[k]);
          assert left.members[k] != right.members[k];
        }
      } else {
        CoversExactly(first, last);
      }
    }
  }

  /** A scalar in the middle: {} over null over {"a": null} depends on the grouping. */
  lemma MergeNotAssociative()
    ensures var first, middle, last := JObject(map[]), JNull, JObject(map["a" := JNull]);
            MergeJson(first, MergeJson(middle, last)) != MergeJson(MergeJson(first, middle), last)
  {
    var last := JObject(map["a" := JNull]);
    assert "a" in last.members;
    MergeAssociative(JObject(map[]), JNull, last);
  }

  // ----- YAML: ordered mappings -----

  /** A YAML node without aliases. A mapping lists its entries in order; two keys are the same when
      their scalar text is, whatever their tags. */
  datatype Yaml =
    | Scalar(tag: string, text: string)
    | Sequence(items: seq<Yaml>)
    | Mapping(entries: seq<Entry>)

  datatype Entry = Entry(tag: string, key: string, value: Yaml)

  /** What parseYAML has validated: no mapping repeats a key. */
  predicate UniqueKeys(y: Yaml) {
    match y
    case Scalar(_, _) => true
    case Sequence(items) => forall i | 0 <= i < |items| :: UniqueKeys(items[i])
    case Mapping(entries) =>
      && Distinct(entries)
      && forall i | 0 <= i < |entries| :: UniqueKeys(entries[i].value)
  }

  predicate Distinct(entries: seq<Entry>) {
    forall i, j | 0 <= i < j < |entries| :: entries[i].key != entries[j].key
  }

  predicate HasKey(entries: seq<Entry>, key: string) {
    exists i | 0 <= i < |entries| :: entries[i].key == key
  }

  function IndexOf(entries: seq<Entry>, key: string): (i: nat)
    requires HasKey(entries, key)
    ensures i < |entries| && entries[i].key == key
  {
    if entries[0].key == key then 0 else
      assert exists i | 0 <= i < |entries[1..]| :: entries[1..][i].key == key by {
        var i :| 0 <= i < |entries| && entries[i].key == key;
        assert entries[1..][i - 1].key == key;
      }
      1 + IndexOf(entries[1..], key)
  }

  /** The entries of the source whose keys the target lacks, in source order. */
  function Missing(source: seq<Entry>, target: seq<Entry>): (added: seq<Entry>) {
    if source == [] then []
    else if HasKey(target, source[0].key) then Missing(source[1..], target)
    else [source[0]] + Missing(source[1..], target)
  }

  /** The ordered merge, said once: the target's entries in their order, each one merged with the
      source's entry of that key if there is one, then the source's other entries in their order. */
  function MergeYaml(source: Yaml, target: Yaml): Yaml
    decreases source
  {
    if !source.Mapping? || !target.Mapping? then source
    else
      Mapping(MergedEntries(source.entries, target.entries) + Missing(source.entries, target.entries))
  }

  function MergedEntries(source: seq<Entry>, target: seq<Entry>): (merged: seq<Entry>)
    ensures |merged| == |target|
    ensures forall i | 0 <= i < |target| :: merged[i] == MergedEntry(source, target[i])
    decreases source, 1
  {
    seq(|target|, i requires 0 <= i < |target| => MergedEntry(source, target[i]))
  }

  function MergedEntry(source: seq<Entry>, e: Entry): (merged: Entry)
    ensures merged.key == e.key
    decreases source, 0
  {
    if HasKey(source, e.key) then e.(value := MergeYaml(source[IndexOf(source, e.key)].value, e.value)) else e
  }

  lemma {:induction false} MissingAppend(source: seq<Entry>, target: seq<Entry>, e: Entry)
    ensures Missing(source + [e], target) == Missing(source, target) + if HasKey(target, e.key) then [] else [e]
  {
    if source == [] {
      assert (source + [e])[1..] == [];
    } else {
      MissingAppend(source[1..], target, e);
      assert (source + [e])[1..] == source[1..] + [e];
    }
  }

  /** The keys of `added` occur in `source`, in the same order. */
  ghost predicate InOrderOf(source: seq<Entry>, added: seq<Entry>) {
    && (forall i | 0 <= i < |added| :: HasKey(source, added[i].key))
    && (forall i, j | 0 <= i < j < |added| :: IndexOf(source, added[i].key) < IndexOf(source, added[j].key))
  }

  lemma {:induction false} MissingMembers(source: seq<Entry>, target: seq<Entry>)
    ensures var added := Missing(source, target);
            && (forall i | 0 <= i < |added| :: added[i] in source && !HasKey(target, added[i].key))
            && (forall i | 0 <= i < |source| && !HasKey(target, source[i].key) :: source[i] in added)
  {
    if source != [] {
      var rest, added := source[1..], Missing(source, target);
      MissingMembers(rest, target);
      MissingStep(source, target);
      forall i | 0 <= i < |added| ensures added[i] in source && !HasKey(target, added[i].key) {
        if HasKey(target, source[0].key) || i > 0 {
          var j := if HasKey(target, source[0].key) then i else i - 1;
          assert added[i] == Missing(rest, target)[j] && added[i] in rest;
        }
      }
      forall i | 0 <= i < |source| && !HasKey(target, source[i].key) ensures source[i] in added {
        if i > 0 {
          assert source[i] == rest[i - 1];
        }
      }
    }
  }

  lemma MissingStep(source: seq<Entry>, target: seq<Entry>)
    requires source != []
    ensures Missing(source, target)
         == (if HasKey(target, source[0].key) then [] else [source[0]]) + Missing(source[1..], target)
  {
  }

  /** The added entries come from the source, lack a counterpart in the target, and keep the
      source's order. */
  lemma {:induction false} MissingInOrder(source: seq<Entry>, target: seq<Entry>)
    requires Distinct(source)
    ensures var added := Missing(source, target);
            && Distinct(added)
            && (forall i | 0 <= i < |added| :: added[i] in source && !HasKey(target, added[i].key))
            && (forall i | 0 <= i < |source| && !HasKey(target, source[i].key) :: source[i] in added)
            && InOrderOf(source, added)
  {
    MissingMembers(source, target);
    MissingAscends(source, target);
  }

  lemma {:induction false} MissingAscends(source: seq<Entry>, target: seq<Entry>)
    requires Distinct(source)
    ensures var added := Missing(source, target);
            && Distinct(added)
            && InOrderOf(source, added)
  {
    if source != [] {
      var rest := source[1..];
      MissingAscends(rest, target);
      MissingMembers(rest, target);
      var tail := Missing(rest, target);
      forall i | 0 <= i < |tail|
        ensures HasKey(rest, tail[i].key) && HasKey(source, tail[i].key)
        ensures IndexOf(source, tail[i].key) == 1 + IndexOf(rest, tail[i].key)
        ensures tail[i].key != source[0].key
      {
        assert tail[i] in rest;
        var k :| 0 <= k < |rest| && rest[k] == tail[i];
        assert source[k + 1] == tail[i];
        IndexShift(source, tail[i].key);
      }
      TailAscends(source, target, tail);
    }
  }

  lemma TailAscends(source: seq<Entry>, target: seq<Entry>, tail: seq<Entry>)
    requires Distinct(source) && source != [] && tail == Missing(source[1..], target) && Distinct(tail)
    requires forall i | 0 <= i < |tail| ::
               HasKey(source, tail[i].key) && IndexOf(source, tail[i].key) >= 1 && tail[i].key != source[0].key
    requires forall i, j | 0 <= i < j < |tail| :: IndexOf(source, tail[i].key) < IndexOf(source, tail[j].key)
    ensures var added := Missing(source, target);
            && Distinct(added)
            && InOrderOf(source, added)
  {
    hide Missing, IndexOf;
    IndexUnique(source, 0);
    MissingStep(source, target);
    var added := Missing(source, target);
    if !HasKey(target, source[0].key) {
      assert added == [source[0]] + tail;
      forall i | 0 < i < |added| ensures added[i] == tail[i - 1] {}
    } else {
      assert added == tail;
    }
  }

  lemma IndexUnique(entries: seq<Entry>, i: nat)
    requires Distinct(entries) && i < |entries|
    ensures HasKey(entries, entries[i].key) && IndexOf(entries, entries[i].key) == i
  {
  }

  lemma IndexShift(entries: seq<Entry>, key: string)
    requires Distinct(entries) && entries != [] && HasKey(entries[1..], key)
    ensures HasKey(entries, key) && IndexOf(entries, key) == 1 + IndexOf(entries[1..], key)
  {
    var i := IndexOf(entries[1..], key);
    assert entries[i + 1].key == key;
    IndexUnique(entries, i + 1);
  }

  /** Where the loop of mergeYAMLNode stands after the first n entries of the source. */
  ghost predicate MergedUpto(source: seq<Entry>, target: seq<Entry>, n: nat, content: seq<Entry>)
    requires n <= |source|
  {
    && |content| == |target| + |Missing(source[..n], target)|
    && content[|target|..] == Missing(source[..n], target)
    && forall j | 0 <= j < |target| :: content[j] == MergedEntry(source[..n], target[j])
  }

  ghost predicate Indexes(indexes: map<string, nat>, content: seq<Entry>) {
    && (forall key | key in indexes :: indexes[key] < |content| && content[indexes[key]].key == key)
    && (forall i | 0 <= i < |content| :: content[i].key in indexes)
  }

  lemma MergedEntryAppend(source: seq<Entry>, n: nat, e: Entry)
    requires Distinct(source) && n < |source|
    ensures MergedEntry(source[..n + 1], e)
         == if e.key == source[n].key then e.(value := MergeYaml(source[n].value, e.value))
            else MergedEntry(source[..n], e)
  {
    var more := source[..n + 1];
    if e.key == source[n].key {
      assert more[n] == source[n];
      IndexUnique(more, n);
    } else if HasKey(more, e.key) {
      var i :| 0 <= i < |more| && more[i].key == e.key;
      assert source[..n][i] == more[i];
      IndexUnique(more, i);
      IndexUnique(source[..n], i);
    } else {
      assert forall i | 0 <= i < n :: source[..n][i] == more[i];
    }
  }

  lemma NotYetMissing(source: seq<Entry>, target: seq<Entry>, n: nat, content: seq<Entry>, j: nat)
    requires Distinct(source) && Distinct(target) && n < |source| && MergedUpto(source, target, n, content)
    requires j < |content| && content[j].key == source[n].key
    ensures j < |target|
  {
    MissingInOrder(source[..n], target);
    forall k | |target| <= k < |content| ensures content[k].key != source[n].key {
      assert content[k] == Missing(source[..n], target)[k - |target|];
      assert content[k] in source[..n];
    }
  }

  lemma MergeStepExisting(source: seq<Entry>, target: seq<Entry>, n: nat, content: seq<Entry>, j: nat)
    requires Distinct(source) && Distinct(target) && n < |source| && MergedUpto(source, target, n, content)
    requires j < |target| && target[j].key == source[n].key
    ensures content[j] == target[j]
    ensures MergedUpto(source, target, n + 1,
              content[j := target[j].(value := MergeYaml(source[n].value, target[j].value))])
  {
    MissingAppend(source[..n], target, source[n]);
    assert source[..n + 1] == source[..n] + [source[n]];
    assert MergedEntry(source[..n], target[j]) == target[j];
    forall i | 0 <= i < |target|
      ensures MergedEntry(source[..n + 1], target[i])
           == if i == j then target[j].(value := MergeYaml(source[n].value, target[j].value)) else content[i]
    {
      MergedEntryAppend(source, n, target[i]);
    }
  }

  lemma MergeStepNew(source: seq<Entry>, target: seq<Entry>, n: nat, content: seq<Entry>)
    requires Distinct(source) && n < |source| && MergedUpto(source, target, n, content)
    requires !HasKey(target, source[n].key)
    ensures MergedUpto(source, target, n + 1, content + [source[n]])
  {
    MissingAppend(source[..n], target, source[n]);
    assert source[..n + 1] == source[..n] + [source[n]];
    forall i | 0 <= i < |target| ensures MergedEntry(source[..n + 1], target[i]) == content[i] {
      MergedEntryAppend(source, n, target[i]);
    }
  }

  /** The loop invariant, with the index of the keys written so far. */
  ghost predicate MergeState(source: seq<Entry>, target: seq<Entry>, n: nat, content: seq<Entry>,
                             indexes: map<string, nat>)
    requires n <= |source|
  {
    MergedUpto(source, target, n, content) && Indexes(indexes, content)
  }

  /** The index finds exactly the target's entry of this key. */
  lemma IndexedInTarget(source: seq<Entry>, target: seq<Entry>, n: nat, content: seq<Entry>, indexes: map<string, nat>)
    requires Distinct(source) && Distinct(target) && n < |source|
    requires MergeState(source, target, n, content, indexes)
    ensures source[n].key in indexes <==> HasKey(target, source[n].key)
    ensures source[n].key in indexes ==>
            var j := indexes[source[n].key];
            j < |target| && target[j].key == source[n].key && content[j] == target[j]
  {
    var key := source[n].key;
    assert forall j | 0 <= j < |target| :: content[j].key == target[j].key;
    if key in indexes {
      NotYetMissing(source, target, n, content, indexes[key]);
      MergeStepExisting(source, target, n, content, indexes[key]);
    }
  }

  lemma StateExisting(source: seq<Entry>, target: seq<Entry>, n: nat, content: seq<Entry>, indexes: map<string, nat>,
                      j: nat)
    requires Distinct(source) && Distinct(target) && n < |source|
    requires MergeState(source, target, n, content, indexes)
    requires j < |target| && target[j].key == source[n].key && content[j] == target[j]
    ensures MergeState(source, target, n + 1,
              content[j := content[j].(value := MergeYaml(source[n].value, content[j].value))], indexes)
  {
    MergeStepExisting(source, target, n, content, j);
    var after := content[j := content[j].(value := MergeYaml(source[n].value, content[j].value))];
    assert forall i | 0 <= i < |content| :: after[i].key == content[i].key;
  }

  lemma StateNew(source: seq<Entry>, target: seq<Entry>, n: nat, content: seq<Entry>, indexes: map<string, nat>)
    requires Distinct(source) && n < |source|
    requires MergeState(source, target, n, content, indexes) && !HasKey(target, source[n].key)
    ensures MergeState(source, target, n + 1, content + [source[n]], indexes[source[n].key := |content|])
  {
    MergeStepNew(source, target, n, content);
  }

  /** mergeYAMLNode: an index of the target's keys, then one pass over the source's entries. */
  method MergeYamlNode(source: Yaml, target: Yaml) returns (merged: Yaml)
    requires UniqueKeys(source) && UniqueKeys(target)
    ensures merged == MergeYaml(source, target)
    decreases source, 1
  {
    if !source.Mapping? || !target.Mapping? {
      return source;
    }
    var content := MergeEntries(source, source.entries, target.entries);
    merged := Mapping(content);
    MergedAll(source.entries, target.entries, content);
  }

  method MergeEntries(source: Yaml, entries: seq<Entry>, target: seq<Entry>) returns (content: seq<Entry>)
    requires source == Mapping(entries) && UniqueKeys(source) && UniqueKeys(Mapping(target))
    ensures MergedUpto(entries, target, |entries|, content)
    decreases source, 0
  {
    content := target;
    var indexes: map<string, nat> := IndexKeys(content);
    for n := 0 to |entries|
      invariant MergeState(entries, target, n, content, indexes)
    {
      IndexedInTarget(entries, target, n, content, indexes);
      var entry := entries[n];
      if entry.key in indexes {
        var j := indexes[entry.key];
        StateExisting(entries, target, n, content, indexes, j);
        var value := MergeYamlNode(entry.value, content[j].value);
        content := content[j := content[j].(value := value)];
      } else {
        StateNew(entries, target, n, content, indexes);
        content := content + [entry];
        indexes := indexes[entry.key := |content| - 1];
      }
    }
  }

  method IndexKeys(content: seq<Entry>) returns (indexes: map<string, nat>)
    ensures Indexes(indexes, content)
  {
    indexes := map[];
    for i := 0 to |content|
      invariant Indexes(indexes, content[..i])
    {
      indexes := indexes[content[i].key := i];
    }
    assert content[..|content|] == content;
  }

  lemma MergedAll(source: seq<Entry>, target: seq<Entry>, content: seq<Entry>)
    requires MergedUpto(source, target, |source|, content)
    ensures Mapping(content) == MergeYaml(Mapping(source), Mapping(target))
  {
    assert source[..|source|] == source;
    var merged := MergeYaml(Mapping(source), Mapping(target)).entries;
    assert content == content[..|target|] + content[|target|..];
    assert content[..|target|] == merged[..|target|];
  }

  // ----- The ordered merge refines the plain one -----

  /** A YAML node with the order of its mappings and the tags of its keys forgotten; scalars and
      sequences become distinguishable non-mappings. */
  function Plain(y: Yaml): Json
    requires UniqueKeys(y)
  {
    match y
    case Scalar(tag, text) => JArray([JString(tag), JString(text)])
    case Sequence(items) => JArray([JArray(seq(|items|, i requires 0 <= i < |items| => Plain(items[i])))])
    case Mapping(entries) =>
      JObject(map key | key in KeysOf(entries) :: Plain(entries[IndexOf(entries, key)].value))
  }

  function KeysOf(entries: seq<Entry>): (keys: set<string>)
    ensures forall key :: key in keys <==> HasKey(entries, key)
  {
    set i | 0 <= i < |entries| :: entries[i].key
  }

  lemma EntriesMerged(source: seq<Entry>, target: seq<Entry>)
    ensures var merged := MergeYaml(Mapping(source), Mapping(target)).entries;
            && |merged| == |target| + |Missing(source, target)|
            && (forall i | 0 <= i < |target| :: merged[i] == MergedEntry(source, target[i]))
            && (forall i | |target| <= i < |merged| :: merged[i] == Missing(source, target)[i - |target|])
  {
    hide Missing, MergedEntry, MergedEntries;
    var merged := MergeYaml(Mapping(source), Mapping(target)).entries;
    var kept, added := MergedEntries(source, target), Missing(source, target);
    assert merged == kept + added;
    forall i | 0 <= i < |target| ensures merged[i] == MergedEntry(source, target[i]) {
      assert merged[i] == kept[i];
    }
  }

  /** The merged mapping repeats no key, and read without its order it is the plain merge, at every
      level. */
  lemma {:induction false} MergeYamlRefines(source: Yaml, target: Yaml)
    requires UniqueKeys(source) && UniqueKeys(target)
    ensures UniqueKeys(MergeYaml(source, target))
    ensures Plain(MergeYaml(source, target)) == MergeJson(Plain(source), Plain(target))
    decreases source
  {
    if source.Mapping? && target.Mapping? {
      var s, t := source.entries, target.entries;
      var merged := MergeYaml(source, target).entries;
      EntriesMerged(s, t);
      MissingInOrder(s, t);
      forall i | 0 <= i < |t| && HasKey(s, t[i].key)
        ensures var m := s[IndexOf(s, t[i].key)].value;
                && UniqueKeys(MergeYaml(m, t[i].value))
                && Plain(MergeYaml(m, t[i].value)) == MergeJson(Plain(m), Plain(t[i].value))
      {
        MergeYamlRefines(s[IndexOf(s, t[i].key)].value, t[i].value);
      }
      MergedDistinct(s, t);
      forall i | 0 <= i < |merged| ensures UniqueKeys(merged[i].value) {
        if i >= |t| {
          assert merged[i] in s;
        }
      }
      MergedMembers(source, target);
    }
  }

  lemma MergedDistinct(source: seq<Entry>, target: seq<Entry>)
    requires Distinct(source) && Distinct(target)
    ensures Distinct(MergeYaml(Mapping(source), Mapping(target)).entries)
  {
    EntriesMerged(source, target);
    MissingInOrder(source, target);
  }

  function PlainMergeAt(source: seq<Entry>, target: seq<Entry>, key: string): Json
    requires UniqueKeys(Mapping(source)) && UniqueKeys(Mapping(target))
    requires HasKey(source, key) || HasKey(target, key)
  {
    if !HasKey(source, key) then Plain(target[IndexOf(target, key)].value)
    else
      var value := Plain(source[IndexOf(source, key)].value);
      if HasKey(target, key) then MergeJson(value, Plain(target[IndexOf(target, key)].value)) else value
  }

  /** The plain merge at one key. */
  lemma MergeJsonMember(source: Yaml, target: Yaml, key: string)
    requires source.Mapping? && target.Mapping? && UniqueKeys(source) && UniqueKeys(target)
    ensures var right := MergeJson(Plain(source), Plain(target)).members;
            && (key in right <==> HasKey(source.entries, key) || HasKey(target.entries, key))
            && (key in right ==> right[key] == PlainMergeAt(source.entries, target.entries, key))
  {
  }

  ghost predicate MergedAtKeys(source: Yaml, target: Yaml)
    requires source.Mapping? && target.Mapping? && UniqueKeys(source) && UniqueKeys(target)
  {
    forall i | 0 <= i < |target.entries| && HasKey(source.entries, target.entries[i].key) ::
      var m := source.entries[IndexOf(source.entries, target.entries[i].key)].value;
      UniqueKeys(MergeYaml(m, target.entries[i].value))
      && Plain(MergeYaml(m, target.entries[i].value)) == MergeJson(Plain(m), Plain(target.entries[i].value))
  }

  lemma MergedMember(source: Yaml, target: Yaml, i: nat)
    requires source.Mapping? && target.Mapping? && UniqueKeys(source) && UniqueKeys(target)
    requires UniqueKeys(MergeYaml(source, target)) && i < |MergeYaml(source, target).entries|
    requires MergedAtKeys(source, target)
    ensures var e := MergeYaml(source, target).entries[i];
            var right := MergeJson(Plain(source), Plain(target)).members;
            e.key in right && Plain(e.value) == right[e.key]
  {
    var s, t := source.entries, target.entries;
    var e := MergeYaml(source, target).entries[i];
    EntriesMerged(s, t);
    MergeJsonMember(source, target, e.key);
    if i < |t| {
      IndexUnique(t, i);
    } else {
      MissingInOrder(s, t);
      assert e == Missing(s, t)[i - |t|];
      var k :| 0 <= k < |s| && s[k] == e;
      IndexUnique(s, k);
    }
  }

  lemma UniqueIsDistinct(y: Yaml)
    requires y.Mapping? && UniqueKeys(y)
    ensures Distinct(y.entries)
  {
  }

  lemma EveryKeyMerged(source: Yaml, target: Yaml, key: string) returns (i: nat)
    requires source.Mapping? && target.Mapping? && UniqueKeys(source) && UniqueKeys(target)
    requires HasKey(source.entries, key) || HasKey(target.entries, key)
    ensures i < |MergeYaml(source, target).entries| && MergeYaml(source, target).entries[i].key == key
  {
    hide Missing, MergedEntry, MergeYaml, UniqueKeys, InOrderOf, Distinct, IndexOf;
    var s, t := source.entries, target.entries;
    UniqueIsDistinct(source);
    EntriesMerged(s, t);
    if HasKey(t, key) {
      i := IndexOf(t, key);
    } else {
      MissingInOrder(s, t);
      var k := IndexOf(s, key);
      assert s[k] in Missing(s, t);
      var j :| 0 <= j < |Missing(s, t)| && Missing(s, t)[j] == s[k];
      i := |t| + j;
    }
  }

  lemma PlainMembers(y: Yaml)
    requires y.Mapping? && UniqueKeys(y)
    ensures Plain(y).JObject? && forall key :: key in Plain(y).members <==> HasKey(y.entries, key)
    ensures forall key | HasKey(y.entries, key) ::
              Plain(y).members[key] == Plain(y.entries[IndexOf(y.entries, key)].value)
  {
  }

  lemma PlainEquals(y: Yaml, members: map<string, Json>)
    requires y.Mapping? && UniqueKeys(y)
    requires forall i | 0 <= i < |y.entries| ::
               y.entries[i].key in members && Plain(y.entries[i].value) == members[y.entries[i].key]
    requires forall key | key in members :: HasKey(y.entries, key)
    ensures Plain(y) == JObject(members)
  {
    hide Plain, UniqueKeys;
    PlainMembers(y);
    forall key | key in members ensures Plain(y).members[key] == members[key] {
      assert y.entries[IndexOf(y.entries, key)].key == key;
    }
    assert Plain(y).members == members;
  }

  lemma MergedMembers(source: Yaml, target: Yaml)
    requires source.Mapping? && target.Mapping? && UniqueKeys(source) && UniqueKeys(target)
    requires UniqueKeys(MergeYaml(source, target)) && MergedAtKeys(source, target)
    ensures Plain(MergeYaml(source, target)) == MergeJson(Plain(source), Plain(target))
  {
    var merged := MergeYaml(source, target);
    var right := MergeJson(Plain(source), Plain(target)).members;
    forall i | 0 <= i < |merged.entries|
      ensures merged.entries[i].key in right && Plain(merged.entries[i].value) == right[merged.entries[i].key]
    {
      MergedMember(source, target, i);
    }
    forall key | key in right ensures HasKey(merged.entries, key) {
      MergeJsonMember(source, target, key);
      var i := EveryKeyMerged(source, target, key);
    }
    PlainEquals(merged, right);
  }
}
