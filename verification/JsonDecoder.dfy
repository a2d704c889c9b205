/** The token-level JSON reader: models decodeJSONValue of internal/configdoc/resolve.go.
    Its reference is the grammar itself: `Doc` is a JSON document as written (member order and
    repetitions included), `Flatten` spells it as tokens and `Value` is what it denotes. */
module JsonDecoder {
  import opened Ordering
  import opened Json

  const MAX_DEPTH: nat := 100

  /** What json.Decoder.Token yields; commas and colons are consumed by the lexer. */
  datatype Token =
    | BeginObject | EndObject | BeginArray | EndArray
    | Null | Bool(value: bool) | Number(lexeme: string) | Text(text: string)
    | Invalid // Token returned an error

  datatype Error = TooDeep | BadToken | KeyNotString | DuplicateKey(key: string) | NotClosed

  datatype Decoded = Ok(value: Json, rest: seq<Token>) | Err(error: Error)

  /** decoder.More(). */
  predicate More(input: seq<Token>) {
    input != [] && input[0] != EndObject && input[0] != EndArray
  }

  function Decode(input: seq<Token>, depth: nat): (r: Decoded)
    ensures r.Ok? ==> |r.rest| < |input|
    decreases |input|, 1
  {
    if depth > MAX_DEPTH then Err(TooDeep)
    else if input == [] then Err(BadToken)
    else
      match input[0]
      case Null => Ok(JNull, input[1..])
      case Bool(value) => Ok(JBool(value), input[1..])
      case Number(lexeme) => Ok(JNumber(lexeme), input[1..])
      case Text(text) => Ok(JString(text), input[1..])
      case BeginObject => DecodeMembers(input[1..], map[], depth)
      case BeginArray => DecodeItems(input[1..], [], depth)
      case _ => Err(BadToken)
  }

  function DecodeMembers(input: seq<Token>, soFar: map<string, Json>, depth: nat): (r: Decoded)
    ensures r.Ok? ==> |r.rest| < |input|
    decreases |input|, 0
  {
    if !More(input) then
      if input != [] && input[0] == EndObject then Ok(JObject(soFar), input[1..]) else Err(NotClosed)
    else if input[0].Invalid? then Err(BadToken)
    else if !input[0].Text? then Err(KeyNotString)
    else if input[0].text in soFar then Err(DuplicateKey(input[0].text))
    else
      var member := Decode(input[1..], depth + 1);
      if member.Err? then member
      else DecodeMembers(member.rest, soFar[input[0].text := member.value], depth)
  }

  function DecodeItems(input: seq<Token>, soFar: seq<Json>, depth: nat): (r: Decoded)
    ensures r.Ok? ==> |r.rest| < |input|
    decreases |input|, 2
  {
    if !More(input) then
      if input != [] && input[0] == EndArray then Ok(JArray(soFar), input[1..]) else Err(NotClosed)
    else
      var item := Decode(input, depth + 1);
      if item.Err? then item else DecodeItems(item.rest, soFar + [item.value], depth)
  }

  // ----- The loops of the source, on a decoder that consumes its input -----

  class Decoder {
    var input: seq<Token>

    constructor (tokens: seq<Token>)
      ensures input == tokens
    {
      input := tokens;
    }

    /** decoder.Token(): None at the end of the input. */
    method NextToken() returns (token: Option<Token>)
      modifies this
      ensures old(input) == [] ==> token == None && input == []
      ensures old(input) != [] ==> token == Some(old(input)[0]) && input == old(input)[1..]
    {
      if input == [] {
        return None;
      }
      token := Some(input[0]);
      input := input[1..];
    }

    /** decodeJSONValue. */
    method DecodeJsonValue(depth: nat) returns (r: Decoded)
      modifies this
      ensures r == Decode(old(input), depth)
      ensures r.Ok? ==> input == r.rest
      decreases |input|, 1
    {
      if depth > MAX_DEPTH {
        return Err(TooDeep);
      }
      var token := NextToken();
      if token.None? {
        return Err(BadToken);
      }
      match token.value
      case Null => r := Ok(JNull, input);
      case Bool(value) => r := Ok(JBool(value), input);
      case Number(lexeme) => r := Ok(JNumber(lexeme), input);
      case Text(text) => r := Ok(JString(text), input);
      case BeginObject => r := ReadMembers(depth);
      case BeginArray => r := ReadItems(depth);
      case _ => r := Err(BadToken);
    }

    method ReadMembers(depth: nat) returns (r: Decoded)
      modifies this
      ensures r == DecodeMembers(old(input), map[], depth)
      ensures r.Ok? ==> input == r.rest
      decreases |input|, 2
    {
      var soFar: map<string, Json> := map[];
      while More(input)
        invariant |input| <= |old(input)|
        invariant DecodeMembers(input, soFar, depth) == DecodeMembers(old(input), map[], depth)
        decreases |input|
      {
        var keyToken := NextToken();
        if keyToken.value.Invalid? {
          return Err(BadToken);
        }
        if !keyToken.value.Text? {
          return Err(KeyNotString);
        }
        var key := keyToken.value.text;
        if key in soFar {
          return Err(DuplicateKey(key));
        }
        var member := DecodeJsonValue(depth + 1);
        if member.Err? {
          return member;
        }
        soFar := soFar[key := member.value];
      }
      var closing := NextToken();
      if closing != Some(EndObject) {
        return Err(NotClosed);
      }
      r := Ok(JObject(soFar), input);
    }

    method ReadItems(depth: nat) returns (r: Decoded)
      modifies this
      ensures r == DecodeItems(old(input), [], depth)
      ensures r.Ok? ==> input == r.rest
      decreases |input|, 2
    {
      var soFar: seq<Json> := [];
      while More(input)
        invariant |input| <= |old(input)|
        invariant DecodeItems(input, soFar, depth) == DecodeItems(old(input), [], depth)
        decreases |input|
      {
        var item := DecodeJsonValue(depth + 1);
        if item.Err? {
          return item;
        }
        soFar := soFar + [item.value];
      }
      var closing := NextToken();
      if closing != Some(EndArray) {
        return Err(NotClosed);
      }
      r := Ok(JArray(soFar), input);
    }
  }

  // ----- The grammar -----

  /** A document as written. */
  datatype Doc = Atom(token: Token) | List(items: Docs) | Record(members: Fields)
  datatype Docs = NoDocs | MoreDocs(head: Doc, tail: Docs)
  datatype Fields = NoFields | MoreFields(key: string, value: Doc, tail: Fields)

  predicate IsScalar(t: Token) {
    t.Null? || t.Bool? || t.Number? || t.Text?
  }

  /** Atoms are scalars and no object repeats a key. */
  predicate WellFormed(doc: Doc) {
    match doc
    case Atom(token) => IsScalar(token)
    case List(items) => WellFormedDocs(items)
    case Record(members) => WellFormedFields(members)
  }

  predicate WellFormedDocs(items: Docs) {
    items.MoreDocs? ==> WellFormed(items.head) && WellFormedDocs(items.tail)
  }

  predicate WellFormedFields(members: Fields) {
    members.MoreFields? ==>
      && WellFormed(members.value)
      && members.key !in FieldMap(members.tail)
      && WellFormedFields(members.tail)
  }

  predicate AtomsAreScalars(doc: Doc) {
    match doc
    case Atom(token) => IsScalar(token)
    case List(items) => AtomsAreScalarsDocs(items)
    case Record(members) => AtomsAreScalarsFields(members)
  }

  predicate AtomsAreScalarsDocs(items: Docs) {
    items.MoreDocs? ==> AtomsAreScalars(items.head) && AtomsAreScalarsDocs(items.tail)
  }

  predicate AtomsAreScalarsFields(members: Fields) {
    members.MoreFields? ==> AtomsAreScalars(members.value) && AtomsAreScalarsFields(members.tail)
  }

  function Flatten(doc: Doc): seq<Token> {
    match doc
    case Atom(token) => [token]
    case List(items) => [BeginArray] + FlattenDocs(items) + [EndArray]
    case Record(members) => [BeginObject] + FlattenFields(members) + [EndObject]
  }

  function FlattenDocs(items: Docs): seq<Token> {
    if items.NoDocs? then [] else Flatten(items.head) + FlattenDocs(items.tail)
  }

  function FlattenFields(members: Fields): seq<Token> {
    if members.NoFields? then []
    else [Text(members.key)] + Flatten(members.value) + FlattenFields(members.tail)
  }

  function Value(doc: Doc): Json {
    match doc
    case Atom(Bool(value)) => JBool(value)
    case Atom(Number(lexeme)) => JNumber(lexeme)
    case Atom(Text(text)) => JString(text)
    case Atom(_) => JNull
    case List(items) => JArray(Values(items))
    case Record(members) => JObject(FieldMap(members))
  }

  function Values(items: Docs): seq<Json> {
    if items.NoDocs? then [] else [Value(items.head)] + Values(items.tail)
  }

  function FieldMap(members: Fields): map<string, Json> {
    if members.NoFields? then map[]
    else map[members.key := Value(members.value)] + FieldMap(members.tail)
  }

  /** Every value below, itself included, sits at most MAX_DEPTH containers deep. */
  predicate Fits(v: Json, depth: nat) {
    && depth <= MAX_DEPTH
    && (v.JArray? ==> forall i | 0 <= i < |v.items| :: Fits(v.items[i], depth + 1))
    && (v.JObject? ==> forall k | k in v.members :: Fits(v.members[k], depth + 1))
  }

  // ----- Every written document is accepted exactly when it should be -----

  lemma Inside(open: Token, body: seq<Token>, close: Token, rest: seq<Token>)
    ensures var input := [open] + body + [close] + rest;
            input[0] == open && input[1..] == body + ([close] + rest)
  {
  }

  lemma {:induction false} DecodeFlatten(doc: Doc, depth: nat, rest: seq<Token>)
    requires AtomsAreScalars(doc)
    ensures Decode(Flatten(doc) + rest, depth).Ok? ==
            (WellFormed(doc) && Fits(Value(doc), depth))
    ensures WellFormed(doc) && Fits(Value(doc), depth) ==>
            Decode(Flatten(doc) + rest, depth) == Ok(Value(doc), rest)
  {
    hide FlattenDocs, FlattenFields, Values, FieldMap, WellFormedDocs, WellFormedFields, AtomsAreScalarsDocs,
         AtomsAreScalarsFields, DecodeItems, DecodeMembers;
    var input := Flatten(doc) + rest;
    if depth <= MAX_DEPTH {
      match doc
      case Atom(token) =>
        assert input[1..] == rest;
      case List(items) =>
        Inside(BeginArray, FlattenDocs(items), EndArray, rest);
        DecodeDocs(items, [], depth, rest);
        assert [] + Values(items) == Values(items);
      case Record(members) =>
        Inside(BeginObject, FlattenFields(members), EndObject, rest);
        DecodeFields(members, map[], depth, rest);
        assert map[] + FieldMap(members) == FieldMap(members);
    }
  }

  predicate FitAll(values: seq<Json>, depth: nat) {
    forall i | 0 <= i < |values| :: Fits(values[i], depth)
  }

  predicate FitMembers(members: map<string, Json>, depth: nat) {
    forall k | k in members :: Fits(members[k], depth)
  }

  lemma FlattenStartsMore(doc: Doc, rest: seq<Token>)
    requires AtomsAreScalars(doc)
    ensures More(Flatten(doc) + rest)
  {
  }

  lemma {:induction false} DecodeDocs(items: Docs, soFar: seq<Json>, depth: nat, rest: seq<Token>)
    requires AtomsAreScalarsDocs(items)
    ensures var r := DecodeItems(FlattenDocs(items) + ([EndArray] + rest), soFar, depth);
            var accepted := WellFormedDocs(items) && FitAll(Values(items), depth + 1);
            r.Ok? == accepted && (accepted ==> r == Ok(JArray(soFar + Values(items)), rest))
  {
    hide Decode, Flatten, Value, WellFormed, AtomsAreScalars;
    var end := [EndArray] + rest;
    if items.MoreDocs? {
      var after := FlattenDocs(items.tail) + end;
      assert FlattenDocs(items) + end == Flatten(items.head) + after;
      FlattenStartsMore(items.head, after);
      DecodeFlatten(items.head, depth + 1, after);
      DecodeDocs(items.tail, soFar + [Value(items.head)], depth, rest);
      assert soFar + [Value(items.head)] + Values(items.tail) == soFar + Values(items);
      FitAllCons(Value(items.head), Values(items.tail), depth + 1);
    } else {
      assert FlattenDocs(items) + end == end;
      assert soFar + Values(items) == soFar;
    }
  }

  lemma FitAllCons(head: Json, tail: seq<Json>, depth: nat)
    ensures FitAll([head] + tail, depth) <==> Fits(head, depth) && FitAll(tail, depth)
  {
    var all := [head] + tail;
    assert all[0] == head;
    assert forall i | 0 <= i < |tail| :: tail[i] == all[i + 1];
  }

  lemma {:induction false} DecodeFields(members: Fields, soFar: map<string, Json>, depth: nat, rest: seq<Token>)
    requires AtomsAreScalarsFields(members)
    ensures var r := DecodeMembers(FlattenFields(members) + ([EndObject] + rest), soFar, depth);
            var accepted := WellFormedFields(members) && FieldMap(members).Keys !! soFar.Keys
                            && FitMembers(FieldMap(members), depth + 1);
            r.Ok? == accepted && (accepted ==> r == Ok(JObject(soFar + FieldMap(members)), rest))
  {
    hide Decode, Flatten, Value, WellFormed, AtomsAreScalars;
    var end := [EndObject] + rest;
    if members.MoreFields? {
      var after := FlattenFields(members.tail) + end;
      var input := FlattenFields(members) + end;
      assert input == [Text(members.key)] + (Flatten(members.value) + after);
      assert input[1..] == Flatten(members.value) + after;
      DecodeFlatten(members.value, depth + 1, after);
      var extended := soFar[members.key := Value(members.value)];
      DecodeFields(members.tail, extended, depth, rest);
      FieldsStep(members, soFar, depth + 1);
    } else {
      assert FlattenFields(members) + end == end;
      assert soFar + FieldMap(members) == soFar;
    }
  }

  /** Unfolds acceptance of a member list past its first member. */
  lemma FieldsStep(members: Fields, soFar: map<string, Json>, depth: nat)
    requires members.MoreFields?
    ensures var extended := soFar[members.key := Value(members.value)];
            var tail := FieldMap(members.tail);
            (members.key !in tail ==>
              && (FitMembers(FieldMap(members), depth)
                  <==> Fits(Value(members.value), depth) && FitMembers(tail, depth))
              && (FieldMap(members).Keys !! soFar.Keys <==> members.key !in soFar && tail.Keys !! soFar.Keys)
              && (tail.Keys !! extended.Keys <==> tail.Keys !! soFar.Keys)
              && soFar + FieldMap(members) == extended + tail)
            && (members.key in tail ==> !(tail.Keys !! extended.Keys))
  {
    var all := FieldMap(members);
    var tail := FieldMap(members.tail);
    if members.key !in tail {
      assert all[members.key] == Value(members.value);
      assert all.Keys == {members.key} + tail.Keys;
      assert forall k | k in tail :: all[k] == tail[k];
    }
  }

  // ----- Nothing else is accepted -----

  lemma Bracket(input: seq<Token>, open: Token, body: seq<Token>, close: Token, rest: seq<Token>)
    requires input != [] && input[0] == open && input[1..] == body + ([close] + rest)
    ensures input == [open] + body + [close] + rest
  {
    assert input == [input[0]] + input[1..];
  }

  lemma {:induction false} DecodeSound(input: seq<Token>, depth: nat) returns (doc: Doc)
    requires Decode(input, depth).Ok?
    ensures input == Flatten(doc) + Decode(input, depth).rest
    ensures AtomsAreScalars(doc) && WellFormed(doc) && Value(doc) == Decode(input, depth).value
    decreases |input|, 1
  {
    ghost var rest := Decode(input, depth).rest;
    if input[0] == BeginObject {
      var members := MembersSound(input[1..], map[], depth);
      doc := Record(members);
      assert map[] + FieldMap(members) == FieldMap(members);
      Bracket(input, BeginObject, FlattenFields(members), EndObject, rest);
    } else if input[0] == BeginArray {
      var items := ItemsSound(input[1..], [], depth);
      doc := List(items);
      assert [] + Values(items) == Values(items);
      Bracket(input, BeginArray, FlattenDocs(items), EndArray, rest);
    } else {
      doc := Atom(input[0]);
      assert input == [input[0]] + input[1..];
    }
  }

  lemma SpellField(input: seq<Token>, members: Fields, rest: seq<Token>, end: seq<Token>)
    requires members.MoreFields? && input != [] && input[0] == Text(members.key)
    requires input[1..] == Flatten(members.value) + rest && rest == FlattenFields(members.tail) + end
    ensures input == FlattenFields(members) + end
  {
    assert input == [input[0]] + input[1..];
  }

  lemma {:induction false} MembersSound(input: seq<Token>, soFar: map<string, Json>, depth: nat)
    returns (members: Fields)
    requires DecodeMembers(input, soFar, depth).Ok?
    ensures var r := DecodeMembers(input, soFar, depth);
            && input == FlattenFields(members) + ([EndObject] + r.rest)
            && AtomsAreScalarsFields(members) && WellFormedFields(members)
            && FieldMap(members).Keys !! soFar.Keys
            && r.value == JObject(soFar + FieldMap(members))
    decreases |input|, 0
  {
    var r := DecodeMembers(input, soFar, depth);
    if !More(input) {
      members := NoFields;
      assert soFar + FieldMap(members) == soFar;
      assert input == [EndObject] + r.rest;
    } else {
      var key := input[0].text;
      var member := Decode(input[1..], depth + 1);
      var value := DecodeSound(input[1..], depth + 1);
      var tail := MembersSound(member.rest, soFar[key := member.value], depth);
      members := MoreFields(key, value, tail);
      FieldsStep(members, soFar, depth + 1);
      SpellField(input, members, member.rest, [EndObject] + r.rest);
    }
  }

  lemma SpellItem(input: seq<Token>, items: Docs, soFar: seq<Json>, rest: seq<Token>, end: seq<Token>)
    requires items.MoreDocs? && input == Flatten(items.head) + rest && rest == FlattenDocs(items.tail) + end
    ensures input == FlattenDocs(items) + end
    ensures soFar + [Value(items.head)] + Values(items.tail) == soFar + Values(items)
  {
    hide Flatten, Value;
  }

  lemma {:induction false} ItemsSound(input: seq<Token>, soFar: seq<Json>, depth: nat)
    returns (items: Docs)
    requires DecodeItems(input, soFar, depth).Ok?
    ensures var r := DecodeItems(input, soFar, depth);
            && input == FlattenDocs(items) + ([EndArray] + r.rest)
            && AtomsAreScalarsDocs(items) && WellFormedDocs(items)
            && r.value == JArray(soFar + Values(items))
    decreases |input|, 2
  {
    hide Decode, Flatten, Value, AtomsAreScalars, WellFormed;
    var r := DecodeItems(input, soFar, depth);
    if !More(input) {
      items := NoDocs;
      assert soFar + Values(items) == soFar;
      assert input == [EndArray] + r.rest;
    } else {
      var item := Decode(input, depth + 1);
      var head := DecodeSound(input, depth + 1);
      var tail := ItemsSound(item.rest, soFar + [item.value], depth);
      items := MoreDocs(head, tail);
      SpellItem(input, items, soFar, item.rest, [EndArray] + r.rest);
    }
  }

  /** The reader accepts a token sequence as v exactly when it spells, in some member order, a
      document without repeated keys that denotes v, and v nests within 100 levels. */
  lemma DecodeExactly(input: seq<Token>, v: Json)
    ensures Decode(input, 0) == Ok(v, []) <==>
            exists doc :: AtomsAreScalars(doc) && WellFormed(doc) && input == Flatten(doc) && Value(doc) == v
                && Fits(v, 0)
  {
    if Decode(input, 0) == Ok(v, []) {
      var doc := DecodeSound(input, 0);
      assert input == Flatten(doc) + [];
      DecodeFlatten(doc, 0, []);
      assert AtomsAreScalars(doc) && WellFormed(doc) && input == Flatten(doc) && Value(doc) == v && Fits(v, 0);
    }
    forall doc | AtomsAreScalars(doc) && WellFormed(doc) && input == Flatten(doc) && Value(doc) == v && Fits(v, 0)
      ensures Decode(input, 0) == Ok(v, [])
    {
      DecodeFlatten(doc, 0, []);
      assert Flatten(doc) + [] == Flatten(doc);
    }
  }

  // ----- The canonical spelling -----

  /** The document the printer writes: members in byte order. */
  ghost function Ordered(v: Json): (doc: Doc)
    decreases v, 1, 0
  {
    match v
    case JNull => Atom(Null)
    case JBool(value) => Atom(Bool(value))
    case JNumber(lexeme) => Atom(Number(lexeme))
    case JString(text) => Atom(Text(text))
    case JArray(items) => List(OrderedItems(v, 0))
    case JObject(members) => Record(OrderedMembers(v, Sorted(members.Keys)))
  }

  ghost function OrderedItems(v: Json, from: nat): Docs
    requires v.JArray? && from <= |v.items|
    decreases v, 0, |v.items| - from
  {
    if from == |v.items| then NoDocs else MoreDocs(Ordered(v.items[from]), OrderedItems(v, from + 1))
  }

  ghost function OrderedMembers(v: Json, keys: seq<string>): Fields
    requires v.JObject? && forall k | k in keys :: k in v.members
    decreases v, 0, |keys|
  {
    if keys == [] then NoFields
    else MoreFields(keys[0], Ordered(v.members[keys[0]]), OrderedMembers(v, keys[1..]))
  }

  ghost function CanonicalTokens(v: Json): seq<Token> {
    Flatten(Ordered(v))
  }

  ghost function Restrict(members: map<string, Json>, keys: set<string>): map<string, Json> {
    map k | k in members && k in keys :: members[k]
  }

  lemma RestrictStep(members: map<string, Json>, keys: seq<string>)
    requires keys != [] && keys[0] in members && Ascending(keys)
    ensures keys[0] !in Restrict(members, Elements(keys[1..]))
    ensures map[keys[0] := members[keys[0]]] + Restrict(members, Elements(keys[1..]))
            == Restrict(members, Elements(keys))
  {
    AscendingTail(keys);
    var l := map[keys[0] := members[keys[0]]] + Restrict(members, Elements(keys[1..]));
    var r := Restrict(members, Elements(keys));
    assert l.Keys == r.Keys;
    assert l == r;
  }

  lemma RestrictAll(members: map<string, Json>)
    ensures Restrict(members, members.Keys) == members
  {
  }

  lemma {:induction false} OrderedDenotes(v: Json)
    ensures AtomsAreScalars(Ordered(v)) && WellFormed(Ordered(v)) && Value(Ordered(v)) == v
    decreases v, 1, 0
  {
    hide OrderedItems, OrderedMembers, Values, FieldMap, WellFormedDocs, WellFormedFields, AtomsAreScalarsDocs,
         AtomsAreScalarsFields, Restrict, Less, Ascending;
    match v
    case JArray(items) =>
      OrderedItemsDenote(v, 0);
    case JObject(members) =>
      OrderedMembersDenote(v, Sorted(members.Keys));
      RestrictAll(members);
    case _ =>
  }

  lemma {:induction false} OrderedItemsDenote(v: Json, from: nat)
    requires v.JArray? && from <= |v.items|
    ensures var items := OrderedItems(v, from);
            AtomsAreScalarsDocs(items) && WellFormedDocs(items) && Values(items) == v.items[from..]
    decreases v, 0, |v.items| - from
  {
    hide Ordered, Value, WellFormed, AtomsAreScalars;
    if from < |v.items| {
      OrderedDenotes(v.items[from]);
      OrderedItemsDenote(v, from + 1);
      assert v.items[from..] == [v.items[from]] + v.items[from + 1..];
    }
  }

  lemma {:induction false} OrderedMembersDenote(v: Json, keys: seq<string>)
    requires v.JObject? && (forall k | k in keys :: k in v.members) && Ascending(keys)
    ensures var members := OrderedMembers(v, keys);
            && AtomsAreScalarsFields(members) && WellFormedFields(members)
            && FieldMap(members) == Restrict(v.members, Elements(keys))
    decreases v, 0, |keys|
  {
    if keys != [] {
      AscendingTail(keys);
      OrderedDenotes(v.members[keys[0]]);
      OrderedMembersDenote(v, keys[1..]);
      RestrictStep(v.members, keys);
    }
  }

  /** Reading back the canonical spelling: the same value, for exactly the values within the
      nesting limit. */
  lemma CanonicalRoundTrip(v: Json, rest: seq<Token>)
    ensures Fits(v, 0) ==> Decode(CanonicalTokens(v) + rest, 0) == Ok(v, rest)
    ensures Decode(CanonicalTokens(v) + rest, 0).Ok? <==> Fits(v, 0)
  {
    OrderedDenotes(v);
    DecodeFlatten(Ordered(v), 0, rest);
  }

  /** Canonicalisation is idempotent and depends only on the value: any accepted spelling of v
      leads to the one canonical spelling, which is accepted and leads to itself. */
  lemma CanonicalIdempotent(input: seq<Token>)
    requires Decode(input, 0).Ok? && Decode(input, 0).rest == []
    ensures Decode(CanonicalTokens(Decode(input, 0).value), 0) == Decode(input, 0)
  {
    var v := Decode(input, 0).value;
    DecodeExactly(input, v);
    CanonicalRoundTrip(v, []);
    assert CanonicalTokens(v) + [] == CanonicalTokens(v);
  }
}
