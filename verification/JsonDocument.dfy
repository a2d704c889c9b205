/** JSON Config documents: the Vault References in them, their canonical form and their resolution.
    Models canonicalizeJSON, findJSONReferences (internal/configdoc/canonical.go), resolveJSON,
    resolveJSONValue and the bounded lookup (internal/configdoc/resolve.go). */
module JsonDocument {
  import opened Ordering
  import opened References
  import opened Json
  import JsonDecoder

  type Lookups = map<Reference, string>

  // ----- Paths -----

  datatype Step = Member(key: string) | Item(index: nat)

  function Get(v: Json, path: seq<Step>): Option<Json>
    decreases |path|
  {
    if path == [] then Some(v)
    else if path[0].Member? && v.JObject? && path[0].key in v.members then
      Get(v.members[path[0].key], path[1..])
    else if path[0].Item? && v.JArray? && path[0].index < |v.items| then
      Get(v.items[path[0].index], path[1..])
    else None
  }

  // ----- The references of a document -----

  /** Every string scalar parses: none of them is a malformed reference. */
  predicate Readable(v: Json) {
    match v
    case JObject(members) => forall k | k in members :: Readable(members[k])
    case JArray(items) => forall i | 0 <= i < |items| :: Readable(items[i])
    case JString(text) => ParseReference(text) != Malformed
    case _ => true
  }

  ghost function ReferencesIn(v: Json): set<Reference> {
    match v
    case JObject(members) => set k, r | k in members && r in ReferencesIn(members[k]) :: r
    case JArray(items) => set i, r | 0 <= i < |items| && r in ReferencesIn(items[i]) :: r
    case JString(text) => (match ParseReference(text) case Lookup(r) => {r} case _ => {})
    case _ => {}
  }

  /** The references below some of an object's members, or the first items of an array. */
  ghost function MemberReferences(v: Json, keys: set<string>): set<Reference>
    requires v.JObject?
  {
    set k, r | k in v.members && k in keys && r in ReferencesIn(v.members[k]) :: r
  }

  ghost function ItemReferences(v: Json, upto: nat): set<Reference>
    requires v.JArray?
  {
    set i, r | 0 <= i < |v.items| && i < upto && r in ReferencesIn(v.items[i]) :: r
  }

  lemma ItemReferencesStep(v: Json, i: nat)
    requires v.JArray? && i < |v.items|
    ensures ItemReferences(v, i + 1) == ItemReferences(v, i) + ReferencesIn(v.items[i])
  {
  }

  lemma AllItemReferences(v: Json)
    requires v.JArray?
    ensures ItemReferences(v, 0) == {} && ItemReferences(v, |v.items|) == ReferencesIn(v)
  {
  }

  /** findJSONReferences: collects into the shared set, members in any order. */
  method FindJsonReferences(v: Json, found: set<Reference>) returns (ok: bool, references: set<Reference>)
    ensures ok <==> Readable(v)
    ensures ok ==> references == found + ReferencesIn(v)
    decreases v, 1
  {
    references := found;
    match v
    case JObject(_) => ok, references := FindInMembers(v, found);
    case JArray(_) => ok, references := FindInItems(v, found);
    case JString(text) =>
      var parsed := ParseReference(text);
      ok := parsed != Malformed;
      if parsed.Lookup? {
        references := references + {parsed.lookup};
      }
    case _ =>
      ok := true;
  }

  method FindInMembers(v: Json, found: set<Reference>) returns (ok: bool, references: set<Reference>)
    requires v.JObject?
    ensures ok <==> Readable(v)
    ensures ok ==> references == found + ReferencesIn(v)
    decreases v, 0
  {
    references := found;
    var unseen := v.members.Keys;
    ghost var seen: set<string> := {};
    while unseen != {}
      invariant seen + unseen == v.members.Keys
      invariant forall k | k in seen :: Readable(v.members[k])
      invariant references == found + MemberReferences(v, seen)
      decreases unseen
    {
      var key :| key in unseen;
      ok, references := FindJsonReferences(v.members[key], references);
      if !ok {
        return;
      }
      assert MemberReferences(v, seen + {key}) == MemberReferences(v, seen) + ReferencesIn(v.members[key]);
      unseen, seen := unseen - {key}, seen + {key};
    }
    assert MemberReferences(v, seen) == ReferencesIn(v);
    ok := true;
  }

  lemma ItemsReadable(v: Json)
    requires v.JArray?
    ensures Readable(v) <==> forall i | 0 <= i < |v.items| :: Readable(v.items[i])
  {
  }

  method FindInItems(v: Json, found: set<Reference>) returns (ok: bool, references: set<Reference>)
    requires v.JArray?
    ensures ok <==> Readable(v)
    ensures ok ==> references == found + ReferencesIn(v)
    decreases v, 0
  {
    hide ItemReferences, ReferencesIn, Readable;
    references := found;
    AllItemReferences(v);
    ItemsReadable(v);
    for i := 0 to |v.items|
      invariant forall j | 0 <= j < i :: Readable(v.items[j])
      invariant references == found + ItemReferences(v, i)
    {
      ok, references := FindJsonReferences(v.items[i], references);
      if !ok {
        return;
      }
      ItemReferencesStep(v, i);
    }
    ok := true;
  }

  // ----- Resolution -----

  /** The document with every reference replaced by its value and every escape undone; a
      substituted value is final. */
  function Rewrite(v: Json, values: Lookups): Json {
    match v
    case JObject(members) => JObject(map k | k in members :: Rewrite(members[k], values))
    case JArray(items) => JArray(seq(|items|, i requires 0 <= i < |items| => Rewrite(items[i], values)))
    case JString(text) =>
      (match ParseReference(text)
       case Lookup(r) => if r in values then JString(values[r]) else v
       case Escaped(r) => JString(r.ToText())
       case _ => v)
    case _ => v
  }

  /** The bytes the lookups bring in, one charge per occurrence. */
  ghost function Cost(v: Json, values: Lookups): nat
    decreases v, 1, 0
  {
    match v
    case JObject(members) => Sum(MemberCosts(v, values), members.Keys)
    case JArray(items) => ItemsCost(v, |items|, values)
    case JString(text) =>
      (match ParseReference(text)
       case Lookup(r) => if r in values then |values[r]| else 0
       case _ => 0)
    case _ => 0
  }

  ghost function MemberCosts(v: Json, values: Lookups): (costs: map<string, nat>)
    requires v.JObject?
    ensures costs.Keys == v.members.Keys
    decreases v, 0, 0
  {
    map k | k in v.members :: Cost(v.members[k], values)
  }

  ghost function ItemsCost(v: Json, upto: nat, values: Lookups): nat
    requires v.JArray? && upto <= |v.items|
    decreases v, 0, upto
  {
    if upto == 0 then 0 else ItemsCost(v, upto - 1, values) + Cost(v.items[upto - 1], values)
  }

  lemma {:induction false} ItemsCostMonotone(v: Json, from: nat, upto: nat, values: Lookups)
    requires v.JArray? && from <= upto <= |v.items|
    ensures ItemsCost(v, from, values) <= ItemsCost(v, upto, values)
  {
    if from < upto {
      ItemsCostMonotone(v, from, upto - 1, values);
    }
  }

  /** What resolution needs: readable scalars, an answer for every reference, and the answers
      together within the budget. */
  ghost predicate Resolvable(v: Json, values: Lookups, budget: nat) {
    Readable(v) && ReferencesIn(v) <= values.Keys && Cost(v, values) <= budget
  }

  /** resolveJSONValue under the bounded lookup. Whatever order the members are visited in, it
      succeeds exactly on resolvable documents, and then yields the rewritten document and charges
      exactly its cost. */
  method ResolveJsonValue(v: Json, values: Lookups, budget: nat) returns (r: Option<Json>, remaining: nat)
    ensures r.Some? <==> Resolvable(v, values, budget)
    ensures r.Some? ==> r.value == Rewrite(v, values) && remaining == budget - Cost(v, values)
    decreases v, 1
  {
    remaining := budget;
    match v
    case JObject(_) => r, remaining := ResolveMembers(v, values, budget);
    case JArray(_) => r, remaining := ResolveItems(v, values, budget);
    case JString(text) =>
      match ParseReference(text) {
        case Malformed => return None, remaining;
        case Escaped(reference) => return Some(JString(reference.ToText())), remaining;
        case Literal => return Some(v), remaining;
        case Lookup(reference) =>
          if reference !in values || |values[reference]| > remaining {
            return None, remaining;
          }
          remaining := remaining - |values[reference]|;
          r := Some(JString(values[reference]));
      }
    case _ => r := Some(v);
  }

  /** The loop over an object's members, overwriting each entry in place. */
  method ResolveMembers(v: Json, values: Lookups, budget: nat) returns (r: Option<Json>, remaining: nat)
    requires v.JObject?
    ensures r.Some? <==> Resolvable(v, values, budget)
    ensures r.Some? ==> r.value == Rewrite(v, values) && remaining == budget - Cost(v, values)
    decreases v, 0
  {
    hide Cost, Rewrite, ReferencesIn, Readable, Sum;
    NothingSpent(v, values);
    remaining := budget;
    var current := v.members;
    var unseen := v.members.Keys;
    ghost var seen: set<string> := {};
    while unseen != {}
      invariant seen + unseen == v.members.Keys && seen !! unseen
      invariant remaining == budget - Sum(MemberCosts(v, values), seen)
      invariant RewrittenMembers(v, values, seen, current)
      decreases unseen
    {
      var key :| key in unseen;
      MemberStep(v, values, budget, seen, key);
      var resolved;
      resolved, remaining := ResolveJsonValue(v.members[key], values, remaining);
      if resolved.None? {
        return None, remaining;
      }
      current := current[key := resolved.value];
      unseen, seen := unseen - {key}, seen + {key};
    }
    assert seen == v.members.Keys;
    MembersDone(v, values, current);
    r := Some(JObject(current));
  }

  ghost predicate RewrittenMembers(v: Json, values: Lookups, seen: set<string>, current: map<string, Json>)
    requires v.JObject?
  {
    && current.Keys == v.members.Keys
    && (forall k | k in v.members :: current[k] == if k in seen then Rewrite(v.members[k], values) else v.members[k])
    && (forall k | k in seen && k in v.members :: Readable(v.members[k]) && ReferencesIn(v.members[k]) <= values.Keys)
  }

  lemma NothingSpent(v: Json, values: Lookups)
    requires v.JObject?
    ensures Sum(MemberCosts(v, values), {}) == 0 && Cost(v, values) == Sum(MemberCosts(v, values), v.members.Keys)
  {
  }

  /** One member's part in the cost, and what its failure means for the whole. */
  lemma MemberStep(v: Json, values: Lookups, budget: nat, seen: set<string>, key: string)
    requires v.JObject? && seen <= v.members.Keys && key in v.members && key !in seen
    requires Sum(MemberCosts(v, values), seen) <= budget
    ensures Sum(MemberCosts(v, values), seen + {key}) == Sum(MemberCosts(v, values), seen)
            + Cost(v.members[key], values)
    ensures Resolvable(v, values, budget) ==>
            Resolvable(v.members[key], values, budget - Sum(MemberCosts(v, values), seen))
  {
    SumAdd(MemberCosts(v, values), seen, key);
    SumMonotone(MemberCosts(v, values), seen + {key}, v.members.Keys);
    forall r | r in ReferencesIn(v.members[key]) ensures r in ReferencesIn(v) {
    }
  }

  lemma MembersDone(v: Json, values: Lookups, current: map<string, Json>)
    requires v.JObject? && RewrittenMembers(v, values, v.members.Keys, current)
    ensures JObject(current) == Rewrite(v, values)
    ensures Readable(v) && ReferencesIn(v) <= values.Keys
  {
    assert current == map k | k in v.members :: Rewrite(v.members[k], values);
  }

  /** The loop over an array's items. */
  method ResolveItems(v: Json, values: Lookups, budget: nat) returns (r: Option<Json>, remaining: nat)
    requires v.JArray?
    ensures r.Some? <==> Resolvable(v, values, budget)
    ensures r.Some? ==> r.value == Rewrite(v, values) && remaining == budget - Cost(v, values)
    decreases v, 0
  {
    hide Cost, Rewrite, ReferencesIn, Readable;
    ItemsCosts(v, values);
    remaining := budget;
    var current := v.items;
    for i := 0 to |v.items|
      invariant remaining == budget - ItemsCost(v, i, values)
      invariant RewrittenItems(v, values, i, current)
    {
      ItemStep(v, values, budget, i);
      var resolved;
      resolved, remaining := ResolveJsonValue(v.items[i], values, remaining);
      if resolved.None? {
        return None, remaining;
      }
      current := current[i := resolved.value];
    }
    ItemsDone(v, values, current);
    r := Some(JArray(current));
  }

  ghost predicate RewrittenItems(v: Json, values: Lookups, upto: nat, current: seq<Json>)
    requires v.JArray?
  {
    && |current| == |v.items|
    && (forall i | 0 <= i < |v.items| :: current[i] == if i < upto then Rewrite(v.items[i], values) else v.items[i])
    && (forall i | 0 <= i < |v.items| && i < upto :: Readable(v.items[i]) && ReferencesIn(v.items[i]) <= values.Keys)
  }

  lemma ItemsCosts(v: Json, values: Lookups)
    requires v.JArray?
    ensures ItemsCost(v, 0, values) == 0 && Cost(v, values) == ItemsCost(v, |v.items|, values)
  {
  }

  lemma ItemStep(v: Json, values: Lookups, budget: nat, i: nat)
    requires v.JArray? && i < |v.items| && ItemsCost(v, i, values) <= budget
    ensures Resolvable(v, values, budget) ==> Resolvable(v.items[i], values, budget - ItemsCost(v, i, values))
  {
    ItemsCostMonotone(v, i + 1, |v.items|, values);
    forall r | r in ReferencesIn(v.items[i]) ensures r in ReferencesIn(v) {
    }
  }

  lemma ItemsDone(v: Json, values: Lookups, current: seq<Json>)
    requires v.JArray? && RewrittenItems(v, values, |v.items|, current)
    ensures JArray(current) == Rewrite(v, values)
    ensures Readable(v) && ReferencesIn(v) <= values.Keys
  {
    assert current == seq(|v.items|, i requires 0 <= i < |v.items| => Rewrite(v.items[i], values));
  }

  // ----- What resolution depends on and what it changes -----

  ghost predicate Agree(references: set<Reference>, some: Lookups, other: Lookups) {
    forall r | r in references :: (r in some <==> r in other) && (r in some ==> some[r] == other[r])
  }

  /** Resolution depends only on the answers for the references in the document. */
  lemma {:induction false} AgreeingLookups(v: Json, some: Lookups, other: Lookups)
    requires Agree(ReferencesIn(v), some, other)
    ensures Rewrite(v, some) == Rewrite(v, other) && Cost(v, some) == Cost(v, other)
    decreases v, 1
  {
    match v
    case JObject(_) => AgreeingMembers(v, some, other);
    case JArray(_) => AgreeingItems(v, some, other);
    case _ =>
  }

  lemma {:induction false} AgreeingMembers(v: Json, some: Lookups, other: Lookups)
    requires v.JObject? && Agree(ReferencesIn(v), some, other)
    ensures Rewrite(v, some) == Rewrite(v, other) && Cost(v, some) == Cost(v, other)
    decreases v, 0
  {
    forall k | k in v.members
      ensures Rewrite(v.members[k], some) == Rewrite(v.members[k], other)
      ensures Cost(v.members[k], some) == Cost(v.members[k], other)
    {
      assert ReferencesIn(v.members[k]) <= ReferencesIn(v);
      AgreeingLookups(v.members[k], some, other);
    }
    assert Rewrite(v, some).members == Rewrite(v, other).members;
    assert MemberCosts(v, some) == MemberCosts(v, other);
  }

  lemma {:induction false} AgreeingItems(v: Json, some: Lookups, other: Lookups)
    requires v.JArray? && Agree(ReferencesIn(v), some, other)
    ensures Rewrite(v, some) == Rewrite(v, other) && Cost(v, some) == Cost(v, other)
    decreases v, 0
  {
    forall i | 0 <= i < |v.items|
      ensures Rewrite(v.items[i], some) == Rewrite(v.items[i], other)
      ensures Cost(v.items[i], some) == Cost(v.items[i], other)
    {
      assert ReferencesIn(v.items[i]) <= ReferencesIn(v);
      AgreeingLookups(v.items[i], some, other);
    }
    assert Rewrite(v, some).items == Rewrite(v, other).items;
    ItemsCostAgrees(v, |v.items|, some, other);
  }

  /** Hence it succeeds under both or under neither. */
  lemma AgreeingResolvable(v: Json, some: Lookups, other: Lookups, budget: nat)
    requires Agree(ReferencesIn(v), some, other)
    ensures Resolvable(v, some, budget) <==> Resolvable(v, other, budget)
  {
    AgreeingLookups(v, some, other);
    assert ReferencesIn(v) <= some.Keys <==> ReferencesIn(v) <= other.Keys by {
      assert forall r | r in ReferencesIn(v) :: r in some <==> r in other;
    }
  }

  lemma {:induction false} ItemsCostAgrees(v: Json, upto: nat, some: Lookups, other: Lookups)
    requires v.JArray? && upto <= |v.items|
    requires forall i | 0 <= i < upto :: Cost(v.items[i], some) == Cost(v.items[i], other)
    ensures ItemsCost(v, upto, some) == ItemsCost(v, upto, other)
  {
    if upto > 0 {
      ItemsCostAgrees(v, upto - 1, some, other);
    }
  }

  /** Rewriting commutes with every path: keys, order, lengths and non-string scalars are
      untouched, and the scalar at a path is rewritten once from its own original text. */
  lemma {:induction false} RewriteAt(v: Json, values: Lookups, path: seq<Step>)
    ensures Get(Rewrite(v, values), path)
         == match Get(v, path) case None => None case Some(x) => Some(Rewrite(x, values))
    decreases |path|
  {
    if path != [] {
      if path[0].Member? && v.JObject? && path[0].key in v.members {
        RewriteAt(v.members[path[0].key], values, path[1..]);
      } else if path[0].Item? && v.JArray? && path[0].index < |v.items| {
        RewriteAt(v.items[path[0].index], values, path[1..]);
      }
    }
  }

  /** An escape becomes the plain spelling for free and a looked-up value stays as it came, at the price of its
      length, even when either of them is spelled like a reference. */
  lemma RewrittenOnce(r: Reference, values: Lookups)
    requires r.Valid()
    ensures Rewrite(JString(EscapedText(r)), values) == JString(r.ToText())
    ensures Cost(JString(EscapedText(r)), values) == 0
    ensures r in values ==> Rewrite(JString(r.ToText()), values) == JString(values[r])
    ensures r in values ==> Cost(JString(r.ToText()), values) == |values[r]|
  {
    ParsePrinted(r);
  }

  // ----- The same by paths and spellings -----

  /** What a resolution makes of the value at one place: a string that prints a reference gives way to the
      value of it, an escaped reference to the reference, containers keep their keys or their length, and
      everything else stays. */
  ghost predicate Substituted(x: Json, values: Lookups, y: Json) {
    match x
    case JObject(members) => y.JObject? && y.members.Keys == members.Keys
    case JArray(items) => y.JArray? && |y.items| == |items|
    case JString(text) =>
      && (forall r: Reference | r.Valid() && text == r.ToText() :: r in values && y == JString(values[r]))
      && (forall r: Reference | r.Valid() && text == EscapedText(r) :: y == JString(r.ToText()))
      && ((forall r: Reference | r.Valid() :: text != r.ToText() && text != EscapedText(r)) ==> y == x)
    case _ => y == x
  }

  /** Both documents have the same paths, and every place holds what resolution makes of it. */
  ghost predicate SubstitutedEverywhere(v: Json, values: Lookups, w: Json) {
    forall path ::
      && (Get(v, path).Some? <==> Get(w, path).Some?)
      && (Get(v, path).Some? ==> Substituted(Get(v, path).value, values, Get(w, path).value))
  }

  lemma RewriteSubstitutes(x: Json, values: Lookups)
    requires ReferencesIn(x) <= values.Keys
    ensures Substituted(x, values, Rewrite(x, values))
  {
    hide ParseReference, Reference.ToText, EscapedText, Reference.Valid;
    if x.JString? {
      ParseExactly(x.text);
      match ParseReference(x.text)
      case Lookup(r) =>
        assert r in ReferencesIn(x);
      case _ =>
    }
  }

  lemma {:induction false} ReferencesAt(v: Json, path: seq<Step>)
    requires Get(v, path).Some?
    ensures ReferencesIn(Get(v, path).value) <= ReferencesIn(v)
    decreases |path|
  {
    if path != [] {
      if path[0].Member? {
        ReferencesAt(v.members[path[0].key], path[1..]);
      } else {
        ReferencesAt(v.items[path[0].index], path[1..]);
      }
    }
  }

  /** A resolved document differs from the original only where that has a reference or an escaped one. */
  lemma RewriteEverywhere(v: Json, values: Lookups)
    requires ReferencesIn(v) <= values.Keys
    ensures SubstitutedEverywhere(v, values, Rewrite(v, values))
  {
    hide Substituted, Rewrite, ReferencesIn, Get;
    forall path: seq<Step> | true
      ensures Get(v, path).Some? <==> Get(Rewrite(v, values), path).Some?
      ensures Get(v, path).Some? ==> Substituted(Get(v, path).value, values, Get(Rewrite(v, values), path).value)
    {
      RewriteAt(v, values, path);
      if Get(v, path).Some? {
        ReferencesAt(v, path);
        RewriteSubstitutes(Get(v, path).value, values);
      }
    }
  }

  /** The references of a document are those that one of its strings prints. */
  lemma {:induction false} ReferencesPrinted(v: Json, r: Reference)
    ensures r in ReferencesIn(v) <==> r.Valid() && exists path :: Get(v, path) == Some(JString(r.ToText()))
  {
    hide ParseReference, Reference.ToText, Reference.Valid, EscapedText, Get;
    if r in ReferencesIn(v) {
      var path := PrintedAt(v, r);
    }
    if exists path :: Get(v, path) == Some(JString(r.ToText())) && r.Valid() {
      var path :| Get(v, path) == Some(JString(r.ToText()));
      ParsePrinted(r);
      ReferencesAt(v, path);
    }
  }

  lemma {:induction false} PrintedAt(v: Json, r: Reference) returns (path: seq<Step>)
    requires r in ReferencesIn(v)
    ensures r.Valid() && Get(v, path) == Some(JString(r.ToText()))
    decreases v
  {
    hide ParseReference, Reference.ToText, Reference.Valid, EscapedText;
    match v
    case JObject(members) =>
      var k :| k in members && r in ReferencesIn(members[k]);
      var rest := PrintedAt(members[k], r);
      path := [Member(k)] + rest;
      assert path[1..] == rest;
    case JArray(items) =>
      var i :| 0 <= i < |items| && r in ReferencesIn(items[i]);
      var rest := PrintedAt(items[i], r);
      path := [Item(i)] + rest;
      assert path[1..] == rest;
    case JString(text) =>
      ParsedTexts(text);
      path := [];
  }

  /** A string with the opening marker in it that prints neither a reference nor an escaped one. */
  ghost predicate Misspelt(text: string) {
    Contains(text, "{vault.") && forall r: Reference | r.Valid() :: text != r.ToText() && text != EscapedText(r)
  }

  lemma MalformedExactly(text: string)
    ensures ParseReference(text) == Malformed <==> Misspelt(text)
  {
    hide ParseReference, Reference.ToText, Reference.Valid, EscapedText, Contains;
    ParseExactly(text);
    match ParseReference(text)
    case Lookup(r) =>
      assert text == r.ToText();
    case Escaped(r) =>
      assert text == EscapedText(r);
    case _ =>
  }

  /** A document is readable exactly when none of its strings is misspelt. */
  lemma ReadableExactly(v: Json)
    ensures Readable(v) <==> forall path | Get(v, path).Some? && Get(v, path).value.JString? ::
                               !Misspelt(Get(v, path).value.text)
  {
    hide Misspelt, Get;
    if Readable(v) {
      forall path | Get(v, path).Some? && Get(v, path).value.JString? ensures !Misspelt(Get(v, path).value.text) {
        ReadableAt(v, path);
        MalformedExactly(Get(v, path).value.text);
      }
    } else {
      var path := UnreadableAt(v);
      MalformedExactly(Get(v, path).value.text);
    }
  }

  lemma {:induction false} ReadableAt(v: Json, path: seq<Step>)
    requires Readable(v) && Get(v, path).Some?
    ensures Readable(Get(v, path).value)
    decreases |path|
  {
    if path != [] {
      if path[0].Member? {
        ReadableAt(v.members[path[0].key], path[1..]);
      } else {
        ReadableAt(v.items[path[0].index], path[1..]);
      }
    }
  }

  lemma {:induction false} UnreadableAt(v: Json) returns (path: seq<Step>)
    requires !Readable(v)
    ensures Get(v, path).Some? && Get(v, path).value.JString?
    ensures ParseReference(Get(v, path).value.text) == Malformed
    decreases v
  {
    hide ParseReference;
    path := [];
    match v
    case JObject(members) =>
      var k :| k in members && !Readable(members[k]);
      var rest := UnreadableAt(members[k]);
      path := [Member(k)] + rest;
      assert path[1..] == rest;
    case JArray(items) =>
      var i :| 0 <= i < |items| && !Readable(items[i]);
      var rest := UnreadableAt(items[i]);
      path := [Item(i)] + rest;
      assert path[1..] == rest;
    case JString(_) =>
  }

  // ----- The two operations end to end, on the token stream -----

  /** A canonicalised document: its value (whose canonical text is stored) and its references. */
  datatype Document = Document(value: Json, references: seq<Reference>)

  predicate BeforeReference(a: Reference, b: Reference) {
    if a.namespaceKey != b.namespaceKey then Less(a.namespaceKey, b.namespaceKey)
    else if a.itemKey != b.itemKey then Less(a.itemKey, b.itemKey)
    else Less(a.fieldKey, b.fieldKey)
  }

  /** sortedReferences: the set enumerated in strictly ascending (namespace, item, field) order. */
  ghost predicate SortedReferences(unique: set<Reference>, list: seq<Reference>) {
    && (forall i, j | 0 <= i < j < |list| :: BeforeReference(list[i], list[j]))
    && Elements(list) == unique
  }

  lemma {:induction false} SortedReferencesUnique(unique: set<Reference>, xs: seq<Reference>, ys: seq<Reference>)
    requires SortedReferences(unique, xs) && SortedReferences(unique, ys)
    ensures xs == ys
    decreases |xs|
  {
    assert xs != [] ==> xs[0] in Elements(ys);
    assert ys != [] ==> ys[0] in Elements(xs);
    if xs != [] && ys != [] {
      var i :| 0 <= i < |ys| && ys[i] == xs[0];
      var j :| 0 <= j < |xs| && xs[j] == ys[0];
      if i != 0 {
        BeforeAsymmetric(ys[0], ys[i]);
      }
      SortedReferencesTail(unique, xs);
      SortedReferencesTail(unique, ys);
      SortedReferencesUnique(unique - {xs[0]}, xs[1..], ys[1..]);
      assert xs == [xs[0]] + xs[1..] && ys == [ys[0]] + ys[1..];
    }
  }

  lemma BeforeAsymmetric(a: Reference, b: Reference)
    requires BeforeReference(a, b)
    ensures a != b && !BeforeReference(b, a)
  {
    LessIrreflexive(a.fieldKey);
    if a.namespaceKey != b.namespaceKey {
      LessAsymmetric(a.namespaceKey, b.namespaceKey);
    } else if a.itemKey != b.itemKey {
      LessAsymmetric(a.itemKey, b.itemKey);
    } else {
      LessAsymmetric(a.fieldKey, b.fieldKey);
    }
  }

  lemma SortedReferencesTail(unique: set<Reference>, xs: seq<Reference>)
    requires SortedReferences(unique, xs) && xs != []
    ensures SortedReferences(unique - {xs[0]}, xs[1..])
  {
    forall i | 1 <= i < |xs| ensures xs[i] != xs[0] {
      BeforeAsymmetric(xs[0], xs[i]);
    }
    forall x | x in unique && x != xs[0] ensures x in Elements(xs[1..]) {
      assert x in Elements(xs);
      var i :| 0 <= i < |xs| && xs[i] == x;
      assert xs[1..][i - 1] == x;
    }
  }

  /** The accepted JSON Configs: one well-formed value within the nesting limit, no malformed
      reference in it, and a canonical text within 5 MiB. */
  ghost predicate Canonicalizes(input: seq<JsonDecoder.Token>, v: Json) {
    && JsonDecoder.Decode(input, 0) == JsonDecoder.Ok(v, [])
    && Readable(v)
    && |CanonicalText(v)| <= MAX_CONFIG_BYTES
  }

  /** canonicalizeJSON: accepts exactly the accepted Configs and returns their value and the
      set of their references (returned unsorted; sortedReferences fixes the one order). */
  method CanonicalizeJson(input: seq<JsonDecoder.Token>) returns (ok: bool, v: Json, references: set<Reference>)
    ensures ok <==> exists w :: Canonicalizes(input, w)
    ensures ok ==> Canonicalizes(input, v) && references == ReferencesIn(v)
  {
    v, references := JNull, {};
    var decoder := new JsonDecoder.Decoder(input);
    var decoded := decoder.DecodeJsonValue(0);
    if decoded.Err? {
      return false, v, references;
    }
    var trailer := decoder.NextToken();
    if trailer.Some? {
      return false, v, references;
    }
    v := decoded.value;
    ok, references := FindJsonReferences(v, {});
    if !ok {
      return;
    }
    ghost var content;
    ok, content := EncodeJson(v);
    assert ok ==> Canonicalizes(input, v);
  }

  /** The stored Configs that resolve: v is the value, resolvable, and its rewritten form fits. */
  ghost predicate Resolves(input: seq<JsonDecoder.Token>, values: Lookups, v: Json) {
    && JsonDecoder.Decode(input, 0) == JsonDecoder.Ok(v, [])
    && Resolvable(v, values, MAX_CONFIG_BYTES)
    && |CanonicalText(Rewrite(v, values))| <= MAX_CONFIG_BYTES
  }

  /** resolveJSON on a stored Config. */
  method ResolveJson(input: seq<JsonDecoder.Token>, values: Lookups) returns (ok: bool, resolved: Json)
    ensures ok <==> exists v :: Resolves(input, values, v)
    ensures ok ==> exists v :: Resolves(input, values, v) && resolved == Rewrite(v, values)
                               && SubstitutedEverywhere(v, values, resolved)
  {
    hide SubstitutedEverywhere;
    resolved := JNull;
    var decoder := new JsonDecoder.Decoder(input);
    var decoded := decoder.DecodeJsonValue(0);
    if decoded.Err? {
      return false, resolved;
    }
    var trailer := decoder.NextToken();
    if trailer.Some? {
      return false, resolved;
    }
    var rewritten, remaining := ResolveJsonValue(decoded.value, values, MAX_CONFIG_BYTES);
    if rewritten.None? {
      return false, resolved;
    }
    resolved := rewritten.value;
    ghost var content;
    ok, content := EncodeJson(resolved);
    RewriteEverywhere(decoded.value, values);
    assert ok ==> Resolves(input, values, decoded.value);
  }

  /** Canonicalising a canonical Config again returns the same value, hence the same text and the
      same references; so the references recorded when a Config is stored are exactly the ones its
      resolution looks up. */
  lemma CanonicalizeIdempotent(input: seq<JsonDecoder.Token>, v: Json)
    requires Canonicalizes(input, v)
    ensures forall w :: Canonicalizes(JsonDecoder.CanonicalTokens(v), w) <==> w == v
  {
    JsonDecoder.CanonicalIdempotent(input);
    JsonDecoder.DecodeExactly(input, v);
  }
}
