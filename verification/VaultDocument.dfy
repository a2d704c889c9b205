/** Vault snapshots: what Encode accepts and writes, and what comes back from Decode. Models
    internal/vaultdoc/snapshot.go; what encoding/json writes is modelled to the byte, what it reads back
    is a law about it. */
module VaultDocument {
  import opened Ordering
  import opened References
  import opened JsonText
  import Json

  const MAX_TEXT_BYTES: nat := 512 * 1024
  const MAX_FILE_BYTES: nat := 5 * 1024 * 1024
  const MAX_SNAPSHOT_BYTES: nat := 10 * 1024 * 1024

  datatype Field = Field(key: string, name: string, fieldType: string)

  /** Lists of environments and file bytes are slices, which may be nil: then they are None. */
  datatype FileValue = FileValue(filename: string, contentType: string, bytes: Option<seq<Byte>>)

  datatype Value = Value(text: Option<string>, file: Option<FileValue>)

  datatype Variant = Variant(id: string, environments: Option<seq<string>>, values: map<string, Value>)

  datatype Snapshot = Snapshot(fields: seq<Field>, variants: seq<Variant>)

  type Payload = map<string, map<string, Value>>

  /** What the structure digest is taken of: fields by key, variants by ID, environments in order. */
  datatype Structure = Structure(fields: seq<Field>, variants: seq<Placement>)
  datatype Placement = Placement(id: string, environments: Option<seq<string>>)

  /** A nil slice has no elements. */
  function Items<T>(list: Option<seq<T>>): seq<T> {
    if list.Some? then list.value else []
  }

  /** The digest is the digested text. */
  datatype Encoded = Encoded(plaintext: string, structureDigest: string)

  // ----- What json.Marshal writes -----

  function FieldText(f: Field): string {
    "{\"key\":" + Json.Quote(f.key) + (",\"name\":" + Json.Quote(f.name)
                                       + (",\"type\":" + Json.Quote(f.fieldType) + "}"))
  }

  function EnvironmentsText(environments: Option<seq<string>>): string {
    if environments.None? then "null" else "[" + ListText(environments.value, Json.Quote, "]")
  }

  function PlacementText(p: Placement): string {
    "{\"id\":" + Json.Quote(p.id) + (",\"environments\":" + EnvironmentsText(p.environments) + "}")
  }

  function StructureText(st: Structure): string {
    "{\"fields\":[" + ListText(st.fields, FieldText, "],\"variants\":[") + ListText(st.variants, PlacementText, "]}")
  }

  function BytesText(bytes: Option<seq<Byte>>): string {
    if bytes.None? then "null" else "\"" + (Base64(bytes.value) + "\"")
  }

  function FileText(f: FileValue): string {
    "{\"filename\":" + Json.Quote(f.filename)
    + (",\"content_type\":" + Json.Quote(f.contentType) + (",\"bytes\":" + BytesText(f.bytes) + "}"))
  }

  function ValueText(v: Value): string {
    match v
    case Value(None, None) => "{}"
    case Value(Some(text), None) => "{\"text\":" + Json.Quote(text) + "}"
    case Value(None, Some(file)) => "{\"file\":" + FileText(file) + "}"
    case Value(Some(text), Some(file)) => "{\"text\":" + Json.Quote(text) + (",\"file\":" + FileText(file) + "}")
  }

  function EntryText(e: (string, Value)): string {
    Json.Quote(e.0) + (":" + ValueText(e.1))
  }

  /** The members of a map in key order, as json.Marshal writes them. */
  ghost function Members<V>(m: map<string, V>): (members: seq<(string, V)>)
    ensures |members| == |Sorted(m.Keys)|
    ensures forall i | 0 <= i < |members| ::
              members[i].0 == Sorted(m.Keys)[i] && members[i].0 in m
              && members[i].1 == m[members[i].0]
  {
    var keys := Sorted(m.Keys);
    assert forall i | 0 <= i < |keys| :: keys[i] in Elements(keys);
    seq(|keys|, i requires 0 <= i < |keys| => (keys[i], m[keys[i]]))
  }

  ghost function VariantText(e: (string, map<string, Value>)): string {
    Json.Quote(e.0) + (":{\"values\":{" + ListText(Members(e.1), EntryText, "}}"))
  }

  ghost function PayloadText(p: Payload): string {
    "{\"variants\":{" + ListText(Members(p), VariantText, "}}")
  }

  // ----- What comes back -----

  function CoerceValue(v: Value): Value {
    Value(match v.text case None => None case Some(text) => Some(Coerce(text)),
          match v.file
          case None => None
          case Some(file) => Some(FileValue(Coerce(file.filename), Coerce(file.contentType), file.bytes)))
  }

  function CoercePayload(p: Payload): Payload {
    map id | id in p :: map key | key in p[id] :: CoerceValue(p[id][key])
  }

  predicate WellFormedValue(v: Value) {
    && (v.text.Some? ==> WellFormedText(v.text.value))
    && (v.file.Some? ==> WellFormedText(v.file.value.filename) && WellFormedText(v.file.value.contentType))
  }

  datatype Coder = Coder(marshal: Payload -> string, unmarshal: string -> Option<Payload>)

  /** The keys that Encode admits. */
  predicate KeysWell(p: Payload) {
    forall id | id in p :: ValidVariantId(id) && forall key | key in p[id] :: ValidResourceKey(key)
  }

  /** A payload with such keys is written as its text, and read back with its stray bytes replaced. */
  ghost predicate CoderLaws(coder: Coder) {
    forall p | KeysWell(p) ::
      coder.marshal(p) == PayloadText(p) && coder.unmarshal(coder.marshal(p)) == Some(CoercePayload(p))
  }

  // ----- Validation -----

  predicate HexDigit(c: char) {
    '0' <= c <= '9' || 'a' <= c <= 'f'
  }

  predicate ValidVariantId(id: string) {
    |id| == 32 && forall i | 0 <= i < |id| :: HexDigit(id[i])
  }

  predicate ValidFile(file: FileValue) {
    |Items(file.bytes)| <= MAX_FILE_BYTES && file.filename != "" && |file.filename| <= 255 && |file.contentType| <= 255
  }

  /** validateValue: a text field has exactly a text, a file field exactly a file. */
  predicate ValidValue(fieldType: string, v: Value) {
    if fieldType == "file" then v.text.None? && v.file.Some? && ValidFile(v.file.value)
    else v.text.Some? && v.file.None? && |v.text.value| <= MAX_TEXT_BYTES
  }

  predicate ValidField(f: Field) {
    ValidResourceKey(f.key) && f.name != "" && |f.name| <= 255
    && (f.fieldType == "text" || f.fieldType == "secret" || f.fieldType == "file")
  }

  predicate FieldsWell(fields: seq<Field>) {
    && (forall i | 0 <= i < |fields| :: ValidField(fields[i]))
    && (forall i, j | 0 <= i < j < |fields| :: fields[i].key != fields[j].key)
  }

  predicate IsTypes(fields: seq<Field>, types: map<string, string>) {
    && (forall f | f in fields :: f.key in types && types[f.key] == f.fieldType)
    && (forall k | k in types :: exists f :: f in fields && f.key == k)
  }

  predicate ValuesWell(types: map<string, string>, values: map<string, Value>) {
    values.Keys == types.Keys && forall k | k in types :: ValidValue(types[k], values[k])
  }

  predicate NoRepeats(xs: seq<string>) {
    forall i, j | 0 <= i < j < |xs| :: xs[i] != xs[j]
  }

  predicate VariantWell(types: map<string, string>, v: Variant) {
    && ValidVariantId(v.id)
    && (forall e | e in Items(v.environments) :: ValidResourceKey(e)) && NoRepeats(Items(v.environments))
    && ValuesWell(types, v.values)
  }

  predicate VariantsWell(types: map<string, string>, variants: seq<Variant>) {
    && (forall i | 0 <= i < |variants| :: VariantWell(types, variants[i]))
    && (forall i, j | 0 <= i < j < |variants| :: variants[i].id != variants[j].id)
    && (forall i, j, e | 0 <= i < j < |variants| && e in Items(variants[i].environments) ::
          e !in Items(variants[j].environments))
  }

  /** One valid, well-typed value per field and variant, and at most one variant per environment. */
  ghost predicate Acceptable(s: Snapshot) {
    && s.fields != [] && s.variants != [] && FieldsWell(s.fields)
    && exists types :: IsTypes(s.fields, types) && VariantsWell(types, s.variants)
  }

  /** The values by variant ID. */
  ghost predicate IsPayload(s: Snapshot, p: Payload) {
    && (forall v | v in s.variants :: v.id in p && p[v.id] == v.values)
    && (forall id | id in p :: exists v :: v in s.variants && v.id == id)
  }

  lemma TypesUnique(fields: seq<Field>, a: map<string, string>, b: map<string, string>)
    requires IsTypes(fields, a) && IsTypes(fields, b)
    ensures a == b
  {
    assert a.Keys == b.Keys;
  }

  lemma PayloadUnique(s: Snapshot, a: Payload, b: Payload)
    requires IsPayload(s, a) && IsPayload(s, b)
    ensures a == b
  {
    assert a.Keys == b.Keys;
  }

  // ----- Sorting -----

  ghost predicate SortedBy<T(!new)>(xs: seq<T>, key: T -> string) {
    forall i, j | 0 <= i < j < |xs| :: !Less(key(xs[j]), key(xs[i]))
  }

  /** slices.SortFunc on a clone. */
  method SortBy<T(!new)>(xs: seq<T>, key: T -> string) returns (ys: seq<T>)
    ensures SortedBy(ys, key) && multiset(ys) == multiset(xs)
  {
    ys := [];
    for n := 0 to |xs|
      invariant SortedBy(ys, key) && multiset(ys) == multiset(xs[..n])
    {
      var x, at := xs[n], 0;
      while at < |ys| && !Less(key(x), key(ys[at]))
        invariant 0 <= at <= |ys|
        invariant forall i | 0 <= i < at :: !Less(key(x), key(ys[i]))
      {
        at := at + 1;
      }
      InsertSorted(ys, key, x, at);
      assert ys == ys[..at] + ys[at..];
      ys := ys[..at] + [x] + ys[at..];
      assert xs[..n + 1] == xs[..n] + [x];
    }
    assert xs[..|xs|] == xs;
  }

  lemma InsertSorted<T(!new)>(ys: seq<T>, key: T -> string, x: T, at: nat)
    requires SortedBy(ys, key) && at <= |ys|
    requires forall i | 0 <= i < at :: !Less(key(x), key(ys[i]))
    requires at < |ys| ==> Less(key(x), key(ys[at]))
    ensures SortedBy(ys[..at] + [x] + ys[at..], key)
  {
    var more := ys[..at] + [x] + ys[at..];
    forall i, j | 0 <= i < j < |more| ensures !Less(key(more[j]), key(more[i])) {
      if i == at {
        LessAsymmetric(key(x), key(ys[at]));
        assert more[j] == ys[j - 1];
        if j - 1 > at && Less(key(ys[j - 1]), key(x)) {
          LessTransitive(key(ys[j - 1]), key(x), key(ys[at]));
        }
      } else if j == at {
        assert more[i] == ys[i];
      } else {
        assert more[i] == ys[if i < at then i else i - 1] && more[j] == ys[if j < at then j else j - 1];
      }
    }
  }

  lemma SameElements<T>(xs: seq<T>, ys: seq<T>)
    requires multiset(xs) == multiset(ys)
    ensures Elements(xs) == Elements(ys) && |xs| == |ys|
  {
    assert |xs| == |multiset(xs)| && |ys| == |multiset(ys)|;
    forall x ensures x in xs <==> x in ys {
      assert x in xs <==> x in multiset(xs);
      assert x in ys <==> x in multiset(ys);
    }
  }

  // ----- Encode -----

  function KeyOf(f: Field): string {
    f.key
  }

  function IdOf(p: Placement): string {
    p.id
  }

  function Itself(s: string): string {
    s
  }

  ghost predicate Places(v: Variant, p: Placement) {
    && p.id == v.id && (p.environments.None? <==> v.environments.None?)
    && AscendingBy(Items(p.environments), Itself)
    && Elements(Items(p.environments)) == Elements(Items(v.environments))
  }

  ghost predicate HasPlacement(placements: seq<Placement>, v: Variant) {
    exists p :: p in placements && Places(v, p)
  }

  ghost predicate HasVariant(variants: seq<Variant>, p: Placement) {
    exists v :: v in variants && Places(v, p)
  }

  ghost predicate IsStructure(s: Snapshot, st: Structure) {
    && AscendingBy(st.fields, KeyOf) && Elements(st.fields) == Elements(s.fields)
    && AscendingBy(st.variants, IdOf)
    && (forall v | v in s.variants :: HasPlacement(st.variants, v))
    && (forall p | p in st.variants :: HasVariant(s.variants, p))
  }

  lemma StrictlySorted<T(!new)>(xs: seq<T>, key: T -> string)
    requires SortedBy(xs, key) && forall i, j | 0 <= i < j < |xs| :: key(xs[i]) != key(xs[j])
    ensures AscendingBy(xs, key)
  {
    forall i, j | 0 <= i < j < |xs| ensures Less(key(xs[i]), key(xs[j])) {
      LessTotal(key(xs[i]), key(xs[j]));
    }
  }

  /** Being free of repeated keys does not depend on the order. */
  lemma DistinctKeysPermute<T(!new)>(xs: seq<T>, ys: seq<T>, key: T -> string)
    requires multiset(xs) == multiset(ys) && forall i, j | 0 <= i < j < |xs| :: key(xs[i]) != key(xs[j])
    ensures forall i, j | 0 <= i < j < |ys| :: key(ys[i]) != key(ys[j])
  {
    SameElements(xs, ys);
    forall i, j | 0 <= i < j < |ys| ensures key(ys[i]) != key(ys[j]) {
      if key(ys[i]) == key(ys[j]) {
        assert ys[i] in Elements(xs) && ys[j] in Elements(xs);
        var m :| 0 <= m < |xs| && xs[m] == ys[i];
        var n :| 0 <= n < |xs| && xs[n] == ys[j];
        assert m == n;
        Occurrences(ys, i, j);
        OccursOnce(xs, m);
      }
    }
  }

  lemma Occurrences<T>(ys: seq<T>, i: nat, j: nat)
    requires i < j < |ys| && ys[i] == ys[j]
    ensures multiset(ys)[ys[i]] >= 2
  {
    assert ys == ys[..j] + [ys[j]] + ys[j + 1..];
    assert ys[i] in multiset(ys[..j]) by {
      assert ys[..j][i] == ys[i];
    }
  }

  lemma OccursOnce<T>(xs: seq<T>, m: nat)
    requires m < |xs| && forall i, j | 0 <= i < j < |xs| :: xs[i] != xs[j]
    ensures multiset(xs)[xs[m]] == 1
  {
    assert xs == xs[..m] + [xs[m]] + xs[m + 1..];
    assert xs[m] !in xs[..m] && xs[m] !in xs[m + 1..];
  }

  /** The checks on the fields, in key order; `types` is the map the loop fills. */
  method CheckFields(fields: seq<Field>) returns (ok: bool, types: map<string, string>)
    ensures ok <==> FieldsWell(fields)
    ensures ok ==> IsTypes(fields, types)
  {
    types := map[];
    for n := 0 to |fields|
      invariant FieldsWell(fields[..n]) && IsTypes(fields[..n], types)
    {
      var f := fields[n];
      assert fields[..n + 1] == fields[..n] + [f];
      if !ValidField(f) {
        return false, types;
      }
      if f.key in types {
        var g :| g in fields[..n] && g.key == f.key;
        return false, types;
      }
      OneMoreType(fields[..n], types, f);
      types := types[f.key := f.fieldType];
    }
    assert fields[..|fields|] == fields;
    ok := true;
  }

  lemma OneMoreType(fields: seq<Field>, types: map<string, string>, f: Field)
    requires IsTypes(fields, types) && f.key !in types && FieldsWell(fields) && ValidField(f)
    ensures IsTypes(fields + [f], types[f.key := f.fieldType]) && FieldsWell(fields + [f])
  {
    hide ValidField;
    var more := types[f.key := f.fieldType];
    forall k | k in more ensures exists g :: g in fields + [f] && g.key == k {
      if k == f.key {
        assert f in fields + [f];
      } else {
        var g :| g in fields && g.key == k;
        assert g in fields + [f];
      }
    }
  }

  /** The checks on a variant's values against the field types. */
  method CheckValues(types: map<string, string>, values: map<string, Value>) returns (ok: bool)
    ensures ok <==> ValuesWell(types, values)
  {
    hide ValidValue;
    if |values| != |types| {
      return false;
    }
    var left := values.Keys;
    while left != {}
      invariant left <= values.Keys && values.Keys - left <= types.Keys
      decreases |left|
    {
      var k :| k in left;
      if k !in types {
        return false;
      }
      left := left - {k};
    }
    SameSize(values.Keys, types.Keys);
    left := types.Keys;
    while left != {}
      invariant left <= types.Keys && values.Keys == types.Keys
      invariant forall k | k in types && k !in left :: ValidValue(types[k], values[k])
      decreases |left|
    {
      var k :| k in left;
      if !ValidValue(types[k], values[k]) {
        return false;
      }
      left := left - {k};
    }
    ok := true;
  }

  lemma SameSize<T>(a: set<T>, b: set<T>)
    requires a <= b && |a| == |b|
    ensures a == b
  {
    assert b == a + (b - a);
  }

  /** Adjacent comparison finds every repetition in a sorted list. */
  method CheckEnvironments(sorted: seq<string>, id: string, bound: map<string, string>)
    returns (ok: bool, now: map<string, string>)
    requires SortedBy(sorted, Itself)
    ensures ok <==> (forall e | e in sorted :: ValidResourceKey(e) && e !in bound) && NoRepeats(sorted)
    ensures ok ==> now.Keys == bound.Keys + Elements(sorted)
  {
    hide ValidResourceKey;
    now := bound;
    for n := 0 to |sorted|
      invariant forall e | e in sorted[..n] :: ValidResourceKey(e) && e !in bound
      invariant NoRepeats(sorted[..n]) && now.Keys == bound.Keys + Elements(sorted[..n])
    {
      var e := sorted[n];
      assert sorted[..n + 1] == sorted[..n] + [e];
      if !ValidResourceKey(e) {
        return false, now;
      }
      if n > 0 && e == sorted[n - 1] {
        return false, now;
      }
      if e in now {
        assert e in bound || e in sorted[..n];
        return false, now;
      }
      assert e !in sorted[..n];
      now := now[e := id];
      assert Elements(sorted[..n + 1]) == Elements(sorted[..n]) + {e};
    }
    assert sorted[..|sorted|] == sorted;
    ok := true;
  }

  lemma NoRepeatsSorted(xs: seq<string>, sorted: seq<string>)
    requires SortedBy(sorted, Itself) && multiset(sorted) == multiset(xs)
    ensures NoRepeats(xs) <==> NoRepeats(sorted)
    ensures NoRepeats(sorted) ==> AscendingBy(sorted, Itself)
    ensures Elements(sorted) == Elements(xs)
  {
    SameElements(xs, sorted);
    if NoRepeats(xs) {
      DistinctKeysPermute(xs, sorted, Itself);
    }
    if NoRepeats(sorted) {
      DistinctKeysPermute(sorted, xs, Itself);
      StrictlySorted(sorted, Itself);
    }
  }

  lemma FieldsSorted(fields: seq<Field>, sorted: seq<Field>)
    requires SortedBy(sorted, KeyOf) && multiset(sorted) == multiset(fields)
    ensures FieldsWell(fields) <==> FieldsWell(sorted)
    ensures FieldsWell(sorted) ==> AscendingBy(sorted, KeyOf)
    ensures Elements(sorted) == Elements(fields)
    ensures forall types :: IsTypes(fields, types) <==> IsTypes(sorted, types)
  {
    hide ValidField;
    SameElements(fields, sorted);
    assert forall f :: f in fields <==> f in Elements(fields);
    assert forall f :: f in sorted <==> f in Elements(sorted);
    assert forall i | 0 <= i < |fields| :: fields[i] in Elements(sorted);
    assert forall i | 0 <= i < |sorted| :: sorted[i] in Elements(fields);
    if FieldsWell(fields) {
      DistinctKeysPermute(fields, sorted, KeyOf);
    }
    if FieldsWell(sorted) {
      DistinctKeysPermute(sorted, fields, KeyOf);
      StrictlySorted(sorted, KeyOf);
    }
  }

  ghost predicate PayloadBuilt(variants: seq<Variant>, payload: Payload) {
    && (forall v | v in variants :: v.id in payload && payload[v.id] == v.values)
    && (forall id | id in payload :: exists v :: v in variants && v.id == id)
  }

  ghost predicate BoundBuilt(variants: seq<Variant>, bound: map<string, string>) {
    forall e :: e in bound <==> exists v :: v in variants && e in Items(v.environments)
  }

  ghost predicate PlacementsBuilt(variants: seq<Variant>, placements: seq<Placement>) {
    |placements| == |variants| && forall i | 0 <= i < |variants| :: Places(variants[i], placements[i])
  }

  /** What the loop over the variants has built after some of them. */
  ghost predicate Built(types: map<string, string>, variants: seq<Variant>, payload: Payload,
                        bound: map<string, string>, placements: seq<Placement>) {
    && VariantsWell(types, variants) && PayloadBuilt(variants, payload)
    && BoundBuilt(variants, bound) && PlacementsBuilt(variants, placements)
  }

  lemma BuiltStep(types: map<string, string>, variants: seq<Variant>, payload: Payload, bound: map<string, string>,
                  placements: seq<Placement>, v: Variant, p: Placement, now: map<string, string>)
    requires Built(types, variants, payload, bound, placements) && Places(v, p)
    requires VariantWell(types, v) && v.id !in payload && forall e | e in Items(v.environments) :: e !in bound
    requires now.Keys == bound.Keys + Elements(Items(v.environments))
    ensures Built(types, variants + [v], payload[v.id := v.values], now, placements + [p])
  {
    hide VariantWell, Places, VariantsWell, PayloadBuilt, BoundBuilt, Elements;
    OneMoreWell(types, variants, payload, bound, v);
    OneMoreInPayload(variants, payload, v);
    MoreBound(variants, bound, v, now);
  }

  lemma OneMoreWell(types: map<string, string>, variants: seq<Variant>, payload: Payload, bound: map<string, string>,
                    v: Variant)
    requires VariantsWell(types, variants) && PayloadBuilt(variants, payload) && BoundBuilt(variants, bound)
    requires VariantWell(types, v) && v.id !in payload && forall e | e in Items(v.environments) :: e !in bound
    ensures VariantsWell(types, variants + [v])
  {
    hide VariantWell, Items;
    var more := variants + [v];
    forall i | 0 <= i < |variants|
      ensures more[i].id != v.id && forall e | e in Items(more[i].environments) :: e !in Items(v.environments)
    {
      assert variants[i] in variants;
    }
  }

  lemma OneMoreInPayload(variants: seq<Variant>, payload: Payload, v: Variant)
    requires PayloadBuilt(variants, payload) && v.id !in payload
    ensures PayloadBuilt(variants + [v], payload[v.id := v.values])
  {
    var more, added := variants + [v], payload[v.id := v.values];
    assert v in more;
    forall id | id in added ensures exists w :: w in more && w.id == id {
      if id in payload {
        var w :| w in variants && w.id == id;
        assert w in more;
      }
    }
  }

  lemma MoreBound(variants: seq<Variant>, bound: map<string, string>, v: Variant, now: map<string, string>)
    requires BoundBuilt(variants, bound) && now.Keys == bound.Keys + Elements(Items(v.environments))
    ensures BoundBuilt(variants + [v], now)
  {
    hide Items;
    var more := variants + [v];
    assert v in more;
    forall e ensures e in now <==> exists w :: w in more && e in Items(w.environments) {
      if e in bound {
        var w :| w in variants && e in Items(w.environments);
        assert w in more;
      }
      if e in Items(v.environments) {
        assert e in Elements(Items(v.environments));
      }
    }
  }

  /** A variant that cannot be added rules out every longer list. */
  lemma NotBuilt(types: map<string, string>, all: seq<Variant>, n: nat, payload: Payload, bound: map<string, string>,
                 placements: seq<Placement>)
    requires n < |all| && Built(types, all[..n], payload, bound, placements)
    requires !VariantWell(types, all[n]) || all[n].id in payload || exists e ::
               e in Items(all[n].environments)
               && e in bound
    ensures !VariantsWell(types, all)
  {
    hide VariantWell, PlacementsBuilt, Items;
    if all[n].id in payload {
      var v :| v in all[..n] && v.id == all[n].id;
      var i :| 0 <= i < n && all[i] == v;
    } else if exists e :: e in Items(all[n].environments) && e in bound {
      var e :| e in Items(all[n].environments) && e in bound;
      var v :| v in all[..n] && e in Items(v.environments);
      var i :| 0 <= i < n && all[i] == v;
    }
  }

  /** The loop over the variants. */
  method CheckVariants(types: map<string, string>, variants: seq<Variant>)
    returns (ok: bool, payload: Payload, placements: seq<Placement>, ghost bound: map<string, string>)
    ensures ok <==> VariantsWell(types, variants)
    ensures ok ==> Built(types, variants, payload, bound, placements)
  {
    hide Built, VariantsWell, ValuesWell, ValidVariantId, ValidResourceKey, Places;
    payload, placements := map[], [];
    var boundEnvironments: map<string, string> := map[];
    bound := map[];
    NothingBuilt(types);
    for n := 0 to |variants|
      invariant Built(types, variants[..n], payload, boundEnvironments, placements)
    {
      var v := variants[n];
      assert variants[..n + 1] == variants[..n] + [v];
      if !ValidVariantId(v.id) || v.id in payload {
        NotBuilt(types, variants, n, payload, boundEnvironments, placements);
        return false, payload, placements, bound;
      }
      var environments := SortBy(Items(v.environments), Itself);
      NoRepeatsSorted(Items(v.environments), environments);
      var fine, now := CheckEnvironments(environments, v.id, boundEnvironments);
      SortedEnvironments(v, environments, boundEnvironments);
      if !fine {
        NotBuilt(types, variants, n, payload, boundEnvironments, placements);
        return false, payload, placements, bound;
      }
      fine := CheckValues(types, v.values);
      if !fine {
        NotBuilt(types, variants, n, payload, boundEnvironments, placements);
        return false, payload, placements, bound;
      }
      var placement := Placement(v.id, if v.environments.None? then None else Some(environments));
      PlacesSorted(v, environments, placement);
      BuiltStep(types, variants[..n], payload, boundEnvironments, placements, v, placement, now);
      payload := payload[v.id := v.values];
      placements := placements + [placement];
      boundEnvironments := now;
    }
    assert variants[..|variants|] == variants;
    bound := boundEnvironments;
    BuiltWell(types, variants, payload, bound, placements);
    ok := true;
  }

  lemma NothingBuilt(types: map<string, string>)
    ensures Built(types, [], map[], map[], [])
  {
  }

  lemma BuiltWell(types: map<string, string>, variants: seq<Variant>, payload: Payload, bound: map<string, string>,
                  placements: seq<Placement>)
    requires Built(types, variants, payload, bound, placements)
    ensures VariantsWell(types, variants)
  {
    hide VariantWell, Places;
  }

  lemma PlacesSorted(v: Variant, environments: seq<string>, p: Placement)
    requires AscendingBy(environments, Itself) && Elements(environments) == Elements(Items(v.environments))
    requires p == Placement(v.id, if v.environments.None? then None else Some(environments))
    ensures Places(v, p)
  {
    if v.environments.None? && environments != [] {
      assert environments[0] in Elements(environments);
    }
  }

  lemma SortedEnvironments(v: Variant, environments: seq<string>, bound: map<string, string>)
    requires Elements(environments) == Elements(Items(v.environments))
    ensures (forall e | e in environments :: ValidResourceKey(e) && e !in bound)
       <==> (forall e | e in Items(v.environments) :: ValidResourceKey(e))
            && forall e | e in Items(v.environments) :: e !in bound
  {
    hide ValidResourceKey;
    assert forall e :: e in environments <==> e in Elements(environments);
    assert forall e :: e in Items(v.environments) <==> e in Elements(Items(v.environments));
  }

  lemma PlacementsMatch(types: map<string, string>, variants: seq<Variant>, payload: Payload,
                        bound: map<string, string>,
                        placements: seq<Placement>, sorted: seq<Placement>)
    requires Built(types, variants, payload, bound, placements) && Elements(sorted) == Elements(placements)
    ensures forall v | v in variants :: HasPlacement(sorted, v)
    ensures forall p | p in sorted :: HasVariant(variants, p)
    ensures forall i, j | 0 <= i < j < |placements| :: IdOf(placements[i]) != IdOf(placements[j])
  {
    hide VariantWell, AscendingBy;
    forall v | v in variants ensures HasPlacement(sorted, v) {
      var i :| 0 <= i < |variants| && variants[i] == v;
      assert placements[i] in Elements(sorted) && Places(v, placements[i]);
    }
    forall p | p in sorted ensures HasVariant(variants, p) {
      assert p in Elements(placements);
      var i :| 0 <= i < |placements| && placements[i] == p;
      assert variants[i] in variants && Places(variants[i], p);
    }
    forall i, j | 0 <= i < j < |placements| ensures IdOf(placements[i]) != IdOf(placements[j]) {
      assert Places(variants[i], placements[i]) && Places(variants[j], placements[j]);
    }
  }

  lemma StructureBuilt(types: map<string, string>, s: Snapshot, fields: seq<Field>, payload: Payload,
                       bound: map<string, string>,
                       placements: seq<Placement>, sorted: seq<Placement>)
    requires Built(types, s.variants, payload, bound, placements)
    requires AscendingBy(fields, KeyOf) && Elements(fields) == Elements(s.fields)
    requires SortedBy(sorted, IdOf) && multiset(sorted) == multiset(placements)
    ensures IsStructure(s, Structure(fields, sorted)) && IsPayload(s, payload)
  {
    hide VariantsWell, HasPlacement, HasVariant, Places, SortedBy, AscendingBy;
    SameElements(placements, sorted);
    PlacementsMatch(types, s.variants, payload, bound, placements, sorted);
    DistinctKeysPermute(placements, sorted, IdOf);
    StrictlySorted(sorted, IdOf);
  }

  /** What Encode returns for a snapshot it accepts. */
  ghost predicate IsEncoding(coder: Coder, s: Snapshot, e: Encoded) {
    && Acceptable(s)
    && (exists p :: IsPayload(s, p) && e.plaintext == coder.marshal(p) && |e.plaintext| <= MAX_SNAPSHOT_BYTES)
    && exists st :: IsStructure(s, st) && e.structureDigest == StructureText(st)
  }

  /** Encode: accepts exactly the acceptable snapshots whose payload fits in 10 MiB. */
  method Encode(coder: Coder, s: Snapshot) returns (r: Option<Encoded>)
    ensures r.Some? <==> Acceptable(s) && exists p :: IsPayload(s, p) && |coder.marshal(p)| <= MAX_SNAPSHOT_BYTES
    ensures r.Some? ==> IsEncoding(coder, s, r.value)
  {
    hide Built, VariantsWell, FieldsWell, IsTypes, IsPayload, IsStructure, StructureText;
    if s.fields == [] || s.variants == [] {
      return None;
    }
    var fields := SortBy(s.fields, KeyOf);
    FieldsSorted(s.fields, fields);
    var fine, types := CheckFields(fields);
    if !fine {
      return None;
    }
    var payload, placements;
    ghost var bound;
    fine, payload, placements, bound := CheckVariants(types, s.variants);
    if !fine {
      OnlyTypes(s.fields, types);
      return None;
    }
    var sorted := SortBy(placements, IdOf);
    StructureBuilt(types, s, fields, payload, bound, placements, sorted);
    OnlyPayload(s, payload);
    var plaintext := coder.marshal(payload);
    if |plaintext| > MAX_SNAPSHOT_BYTES {
      return None;
    }
    r := Some(Encoded(plaintext, StructureText(Structure(fields, sorted))));
  }

  lemma OnlyTypes(fields: seq<Field>, types: map<string, string>)
    requires IsTypes(fields, types)
    ensures forall other :: IsTypes(fields, other) ==> other == types
  {
    forall other | IsTypes(fields, other) ensures other == types {
      TypesUnique(fields, other, types);
    }
  }

  lemma OnlyPayload(s: Snapshot, p: Payload)
    requires IsPayload(s, p)
    ensures forall q :: IsPayload(s, q) ==> q == p
  {
    forall q | IsPayload(s, q) ensures q == p {
      PayloadUnique(s, q, p);
    }
  }

  // ----- Decode -----

  predicate DecodableValue(v: Value) {
    && (v.text.None? != v.file.None?)
    && (v.text.Some? ==> |v.text.value| <= MAX_TEXT_BYTES)
    && (v.file.Some? ==> ValidFile(v.file.value))
  }

  predicate DecodableValues(values: map<string, Value>) {
    values != map[] && forall k | k in values :: ValidResourceKey(k) && DecodableValue(values[k])
  }

  predicate Decodable(p: Payload) {
    p != map[] && forall id | id in p :: ValidVariantId(id) && DecodableValues(p[id])
  }

  function Decoded(coder: Coder, plaintext: string): Option<Payload> {
    if |plaintext| <= MAX_SNAPSHOT_BYTES && coder.unmarshal(plaintext).Some?
        && Decodable(coder.unmarshal(plaintext).value)
    then coder.unmarshal(plaintext) else None
  }

  /** Decode, with its two loops in whatever order the maps yield. */
  method Decode(coder: Coder, plaintext: string) returns (r: Option<Payload>)
    ensures r == Decoded(coder, plaintext)
  {
    hide DecodableValue, ValidVariantId, ValidResourceKey;
    if |plaintext| > MAX_SNAPSHOT_BYTES {
      return None;
    }
    var decoded := coder.unmarshal(plaintext);
    if decoded.None? || |decoded.value| == 0 {
      return None;
    }
    var p := decoded.value;
    var left := p.Keys;
    while left != {}
      invariant left <= p.Keys
      invariant forall id | id in p && id !in left :: ValidVariantId(id) && DecodableValues(p[id])
      decreases |left|
    {
      var id :| id in left;
      if !ValidVariantId(id) || |p[id]| == 0 {
        return None;
      }
      var fields := p[id].Keys;
      while fields != {}
        invariant fields <= p[id].Keys
        invariant forall k | k in p[id] && k !in fields :: ValidResourceKey(k) && DecodableValue(p[id][k])
        decreases |fields|
      {
        var k :| k in fields;
        if !ValidResourceKey(k) || !DecodableValue(p[id][k]) {
          return None;
        }
        fields := fields - {k};
      }
      left := left - {id};
    }
    r := decoded;
  }

  // ----- What comes back -----

  ghost predicate AllValues(s: Snapshot, holds: Value -> bool) {
    forall v, k | v in s.variants && k in v.values :: holds(v.values[k])
  }

  lemma CoerceValueFixes(v: Value)
    ensures CoerceValue(v) == v <==> WellFormedValue(v)
  {
    hide Coerce, WellFormedText;
    if v.text.Some? {
      CoerceFixes(v.text.value);
    }
    if v.file.Some? {
      CoerceFixes(v.file.value.filename);
      CoerceFixes(v.file.value.contentType);
    }
  }

  lemma ValidIsDecodable(fieldType: string, v: Value)
    requires ValidValue(fieldType, v)
    ensures DecodableValue(v)
  {
  }

  /** What a caller can check before encoding: the text is short enough with two more bytes for each stray byte. */
  predicate StaysShort(v: Value) {
    && (v.text.Some? ==> |v.text.value| + 2 * StrayBytes(v.text.value) <= MAX_TEXT_BYTES)
    && (v.file.Some? ==> |v.file.value.filename| + 2 * StrayBytes(v.file.value.filename) <= 255
                         && |v.file.value.contentType| + 2 * StrayBytes(v.file.value.contentType) <= 255)
  }

  lemma CoercedDecodable(v: Value)
    requires DecodableValue(v)
    ensures DecodableValue(CoerceValue(v)) <==> StaysShort(v)
  {
    if v.text.Some? {
      CoerceLength(v.text.value);
    }
    if v.file.Some? {
      CoerceLength(v.file.value.filename);
      CoerceLength(v.file.value.contentType);
    }
  }

  /** What Encode returned can be decoded exactly when all texts and file names stay short enough. It then
      holds the payload with its stray bytes replaced, and the payload itself exactly when all texts and
      file names are well-formed UTF-8. */
  lemma EncodedDecodes(coder: Coder, s: Snapshot, e: Encoded, p: Payload)
    requires CoderLaws(coder) && IsEncoding(coder, s, e) && IsPayload(s, p)
    ensures Decoded(coder, e.plaintext) == if AllValues(s, StaysShort) then Some(CoercePayload(p)) else None
    ensures Decoded(coder, e.plaintext) == Some(p) <==> AllValues(s, WellFormedValue)
  {
    hide Acceptable, IsStructure, IsPayload, CoercePayload, Decodable, WellFormedValue, StaysShort, PayloadText,
         KeysWell, AllValues;
    OnlyPayload(s, p);
    PayloadDecodable(s, p);
    DecodableKeys(p);
    assert coder.unmarshal(e.plaintext) == Some(CoercePayload(p));
    CoercedPayload(s, p);
    CoercesToItself(s, p);
    WellFormedStaysShort(s);
  }

  lemma DecodableKeys(p: Payload)
    requires Decodable(p)
    ensures KeysWell(p)
  {
    hide ValidVariantId, ValidResourceKey, DecodableValue;
  }

  lemma CoercedValues(values: map<string, Value>)
    requires DecodableValues(values)
    ensures DecodableValues(map key | key in values :: CoerceValue(values[key]))
            <==> forall k | k in values :: StaysShort(values[k])
  {
    hide CoerceValue, DecodableValue, StaysShort, ValidResourceKey;
    var coerced := map key | key in values :: CoerceValue(values[key]);
    assert coerced.Keys == values.Keys;
    assert coerced != map[] by {
      var k :| k in values;
      assert k in coerced;
    }
    forall k | k in values ensures DecodableValue(coerced[k]) <==> StaysShort(values[k]) {
      CoercedDecodable(values[k]);
    }
  }

  lemma CoercedPayload(s: Snapshot, p: Payload)
    requires IsPayload(s, p) && Decodable(p)
    ensures Decodable(CoercePayload(p)) <==> AllValues(s, StaysShort)
  {
    hide CoerceValue, DecodableValues, StaysShort, ValidVariantId;
    var q := CoercePayload(p);
    assert q.Keys == p.Keys;
    forall id | id in p ensures DecodableValues(q[id]) <==> forall k | k in p[id] :: StaysShort(p[id][k]) {
      CoercedValues(p[id]);
    }
    if AllValues(s, StaysShort) {
      forall id | id in p ensures forall k | k in p[id] :: StaysShort(p[id][k]) {
        var v :| v in s.variants && v.id == id;
      }
    }
  }

  lemma CoercesToItself(s: Snapshot, p: Payload)
    requires IsPayload(s, p)
    ensures CoercePayload(p) == p <==> AllValues(s, WellFormedValue)
  {
    hide CoerceValue, WellFormedValue;
    if AllValues(s, WellFormedValue) {
      AllWellFormed(s, p);
    }
    if CoercePayload(p) == p {
      forall v, k | v in s.variants && k in v.values ensures WellFormedValue(v.values[k]) {
        assert CoercePayload(p)[v.id][k] == CoerceValue(p[v.id][k]);
        CoerceValueFixes(v.values[k]);
      }
    }
  }

  lemma AllWellFormed(s: Snapshot, p: Payload)
    requires IsPayload(s, p) && AllValues(s, WellFormedValue)
    ensures CoercePayload(p) == p
  {
    hide CoerceValue, WellFormedValue;
    forall id | id in p ensures CoercePayload(p)[id] == p[id] {
      var v :| v in s.variants && v.id == id;
      forall k | k in p[id] ensures CoerceValue(p[id][k]) == p[id][k] {
        CoerceValueFixes(v.values[k]);
      }
    }
  }

  /** Well-formed values of an accepted snapshot need no more room than they have. */
  lemma WellFormedStaysShort(s: Snapshot)
    requires Acceptable(s)
    ensures AllValues(s, WellFormedValue) ==> AllValues(s, StaysShort)
  {
    hide WellFormedValue, StaysShort, VariantWell, FieldsWell, IsTypes;
    var types :| IsTypes(s.fields, types) && VariantsWell(types, s.variants);
    if AllValues(s, WellFormedValue) {
      forall v, k | v in s.variants && k in v.values ensures StaysShort(v.values[k]) {
        var i :| 0 <= i < |s.variants| && s.variants[i] == v;
        VariantDecodable(s.fields, types, s.variants[i]);
        assert WellFormedValue(v.values[k]);
        ShortAsItIs(v.values[k]);
      }
    }
  }

  lemma ShortAsItIs(v: Value)
    requires DecodableValue(v) && WellFormedValue(v)
    ensures StaysShort(v)
  {
    CoerceValueFixes(v);
    CoercedDecodable(v);
  }

  lemma VariantDecodable(fields: seq<Field>, types: map<string, string>, v: Variant)
    requires fields != [] && FieldsWell(fields) && IsTypes(fields, types) && VariantWell(types, v)
    ensures ValidVariantId(v.id) && DecodableValues(v.values)
  {
    hide DecodableValue, ValidValue, ValidVariantId, ValidResourceKey;
    assert fields[0] in fields;
    assert fields[0].key in v.values;
    forall k | k in v.values ensures ValidResourceKey(k) && DecodableValue(v.values[k]) {
      var f :| f in fields && f.key == k;
      var j :| 0 <= j < |fields| && fields[j] == f;
      assert ValidField(fields[j]);
      ValidIsDecodable(types[k], v.values[k]);
    }
  }

  lemma PayloadDecodable(s: Snapshot, p: Payload)
    requires Acceptable(s) && IsPayload(s, p)
    ensures Decodable(p)
  {
    hide DecodableValues, VariantWell, ValidVariantId, FieldsWell, IsTypes;
    var types :| IsTypes(s.fields, types) && VariantsWell(types, s.variants);
    assert s.variants[0] in s.variants;
    forall id | id in p ensures ValidVariantId(id) && DecodableValues(p[id]) {
      var v :| v in s.variants && v.id == id;
      var i :| 0 <= i < |s.variants| && s.variants[i] == v;
      VariantDecodable(s.fields, types, s.variants[i]);
    }
  }

  // ----- Accepted, stored and unreadable -----

  lemma {:induction false} StrayText(n: nat)
    ensures var text := seq(n, _ => 0xff as char); StrayBytes(text) == n && |Json.Escape(text)| == 6 * n
  {
    var text := seq(n, _ => 0xff as char);
    if n > 0 {
      assert Json.RuneLength(text) == 0;
      assert text[1..] == seq((n - 1) as nat, _ => 0xff as char);
      StrayText(n - 1);
      EscapeStep(text);
    }
  }

  const VARIANT_ID := "00000000000000000000000000000000"

  /** One field with one value, for one variant. */
  function OneValue(f: Field, value: Value, environments: Option<seq<string>>): Snapshot {
    Snapshot([f], [Variant(VARIANT_ID, environments, map[f.key := value])])
  }

  /** One text, bound to no environment by an empty list unless given otherwise. */
  function OneText(name: string, text: string, environments: Option<seq<string>> := Some([])): Snapshot {
    OneValue(Field("a", name, "text"), Value(Some(text), None), environments)
  }

  function OnePayload(text: string): Payload {
    map[VARIANT_ID := map["a" := Value(Some(text), None)]]
  }

  function OneStructure(name: string, environments: Option<seq<string>> := Some([])): Structure {
    Structure([Field("a", name, "text")], [Placement(VARIANT_ID, environments)])
  }

  lemma OneValueAcceptable(f: Field, value: Value, environments: Option<seq<string>>)
    requires ValidField(f) && ValidValue(f.fieldType, value) && Items(environments) == []
    ensures var s := OneValue(f, value, environments);
            && Acceptable(s) && IsPayload(s, map[VARIANT_ID := map[f.key := value]])
            && IsStructure(s, Structure([f], [Placement(VARIANT_ID, environments)]))
  {
    hide VariantWell, ValidField, ValidValue;
    var s := OneValue(f, value, environments);
    var types, p := map[f.key := f.fieldType], Placement(VARIANT_ID, environments);
    assert s.fields[0] in s.fields && s.variants[0] in s.variants;
    assert IsTypes(s.fields, types);
    OneVariantWell(f, value, environments);
    assert VariantsWell(types, s.variants);
    assert Places(s.variants[0], p) && p in [p];
    assert HasPlacement([p], s.variants[0]) && HasVariant(s.variants, p);
  }

  lemma OneVariantWell(f: Field, value: Value, environments: Option<seq<string>>)
    requires ValidValue(f.fieldType, value) && Items(environments) == []
    ensures VariantWell(map[f.key := f.fieldType], OneValue(f, value, environments).variants[0])
  {
    hide ValidValue;
  }

  lemma OneTextAcceptable(name: string, text: string, environments: Option<seq<string>> := Some([]))
    requires 0 < |name| <= 255 && |text| <= MAX_TEXT_BYTES && Items(environments) == []
    ensures var s := OneText(name, text, environments);
            && Acceptable(s) && IsPayload(s, OnePayload(text)) && IsStructure(s, OneStructure(name, environments))
  {
    hide Acceptable, IsPayload, IsStructure;
    OneValueAcceptable(Field("a", name, "text"), Value(Some(text), None), environments);
  }

  lemma OneMember<V>(key: string, value: V)
    ensures Members(map[key := value]) == [(key, value)]
  {
    var keys := Sorted(map[key := value].Keys);
    assert |keys| == 1 && keys[0] in Elements(keys);
  }

  lemma OneListed<T>(item: T, spell: T -> string, close: string)
    ensures ListText([item], spell, close) == spell(item) + close
  {
    assert [item][1..] == [];
    assert ListText([], spell, close) == close;
    assert "" + close == close;
  }

  lemma OnePayloadLength(text: string)
    ensures |PayloadText(OnePayload(text))| <= |Json.Escape(text)| + 100
  {
    hide Json.Escape, ListText;
    var value := Value(Some(text), None);
    var entry, variant := ("a", value), (VARIANT_ID, map["a" := value]);
    OneMember(entry.0, entry.1);
    OneMember(variant.0, variant.1);
    OneListed(entry, EntryText, "}}");
    OneListed(variant, VariantText, "}}");
    ShortKeys();
    assert |ValueText(value)| <= |Json.Escape(text)| + 20;
    assert |EntryText(entry)| <= |Json.Escape(text)| + 30;
    assert |VariantText(variant)| <= |Json.Escape(text)| + 80;
  }

  lemma ShortKeys()
    ensures |Json.Escape("a")| == 1 && |Json.Escape(VARIANT_ID)| == 32
  {
    assert Json.Escape("a") == "a" + Json.Escape("");
    PlainDigits(VARIANT_ID);
  }

  lemma {:induction false} PlainDigits(s: string)
    requires forall i | 0 <= i < |s| :: s[i] == '0'
    ensures |Json.Escape(s)| == |s|
  {
    if s != "" {
      PlainDigits(s[1..]);
    }
  }

  /** Encoding a snapshot with one text. */
  lemma OneTextEncoded(coder: Coder, text: string) returns (e: Encoded)
    requires CoderLaws(coder) && |text| <= MAX_TEXT_BYTES && |Json.Escape(text)| + 100 <= MAX_SNAPSHOT_BYTES
    ensures IsEncoding(coder, OneText("a", text), e) && IsPayload(OneText("a", text), OnePayload(text))
  {
    hide PayloadText, Acceptable, IsPayload, IsStructure, StructureText, Json.Escape;
    OneTextAcceptable("a", text);
    PayloadDecodable(OneText("a", text), OnePayload(text));
    DecodableKeys(OnePayload(text));
    OnePayloadLength(text);
    e := Encoded(coder.marshal(OnePayload(text)), StructureText(OneStructure("a")));
  }

  /** A one-byte text that Encode accepts and that comes back as another text. */
  lemma IllFormedTextChanges(coder: Coder) returns (e: Encoded)
    requires CoderLaws(coder)
    ensures IsEncoding(coder, OneText("a", [0xff as char]), e)
    ensures Decoded(coder, e.plaintext) == Some(OnePayload(REPLACEMENT)) && REPLACEMENT != [0xff as char]
  {
    hide PayloadText, Acceptable, IsPayload, IsStructure, StructureText, Decoded, IsEncoding, Coerce, Json.RuneLength;
    var text := [0xff as char];
    StrayByte(text);
    e := OneTextEncoded(coder, text);
    EncodedDecodes(coder, OneText("a", text), e, OnePayload(text));
    assert AllValues(OneText("a", text), StaysShort);
    OneCoerced(text);
  }

  lemma OneCoerced(text: string)
    ensures CoercePayload(OnePayload(text)) == OnePayload(Coerce(text))
  {
    hide Coerce;
    var p, q := CoercePayload(OnePayload(text)), OnePayload(Coerce(text));
    assert p.Keys == q.Keys && p[VARIANT_ID].Keys == q[VARIANT_ID].Keys;
    assert p[VARIANT_ID]["a"] == q[VARIANT_ID]["a"];
    assert p[VARIANT_ID] == q[VARIANT_ID];
  }

  lemma StrayByte(text: string)
    requires text == [0xff as char]
    ensures StrayBytes(text) == 1 && Coerce(text) == REPLACEMENT && |Json.Escape(text)| == 6
  {
    assert Json.RuneLength(text) == 0 && text[1..] == "";
    assert Coerce("") == "" && StrayBytes("") == 0;
    EscapeStep(text);
  }

  /** A snapshot that Encode accepts and that can never be decoded again. */
  lemma AcceptedButUnreadable(coder: Coder) returns (s: Snapshot, e: Encoded)
    requires CoderLaws(coder)
    ensures IsEncoding(coder, s, e) && Decoded(coder, e.plaintext).None?
  {
    hide PayloadText, Acceptable, IsPayload, IsStructure, StructureText, Decoded, CoerceValue, Coerce;
    var text := seq(MAX_TEXT_BYTES, _ => 0xff as char);
    s := OneText("a", text);
    StrayText(MAX_TEXT_BYTES);
    e := OneTextEncoded(coder, text);
    EncodedDecodes(coder, s, e, OnePayload(text));
    assert !StaysShort(s.variants[0].values["a"]);
  }
}
