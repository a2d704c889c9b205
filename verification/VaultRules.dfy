/** The rules of Vault snapshots written out, without the functions that check them. */
module VaultRules {
  import opened Ordering
  import opened References
  import opened VaultDocument

  // ----- Values -----

  /** A text or a secret holds just a text of up to 512 KiB; a file holds just a file of up to 5 MiB that has a
      name. */
  ghost predicate WellTyped(fieldType: string, v: Value) {
    match fieldType
    case "text" => exists text :: v == Value(Some(text), None) && |text| <= 524288
    case "secret" => exists text :: v == Value(Some(text), None) && |text| <= 524288
    case "file" => exists file :: v == Value(None, Some(file)) && NamedFile(file)
    case _ => false
  }

  predicate NamedFile(file: FileValue) {
    && 1 <= |file.filename| <= 255 && |file.contentType| <= 255
    && (file.bytes.Some? ==> |file.bytes.value| <= 5242880)
  }

  predicate KnownType(fieldType: string) {
    fieldType == "text" || fieldType == "secret" || fieldType == "file"
  }

  lemma ValuesExactly(fieldType: string, v: Value)
    requires KnownType(fieldType)
    ensures ValidValue(fieldType, v) <==> WellTyped(fieldType, v)
  {
    if v.text.Some? {
      assert v.file.None? ==> v == Value(Some(v.text.value), None);
    }
    if v.file.Some? {
      assert v.text.None? ==> v == Value(None, Some(v.file.value));
    }
  }

  /** Decode takes what is well typed as a text or as a file. */
  lemma DecodableExactly(v: Value)
    ensures DecodableValue(v) <==> WellTyped("text", v) || WellTyped("file", v)
  {
    ValuesExactly("text", v);
    ValuesExactly("file", v);
  }

  /** A variant ID is 32 lower-case hexadecimal digits. */
  lemma VariantIdExactly(id: string)
    ensures ValidVariantId(id) <==> |id| == 32 && forall c | c in id :: c in "0123456789abcdef"
  {
    forall c ensures HexDigit(c) <==> c in "0123456789abcdef" {
      HexDigitExactly(c);
    }
  }

  lemma HexDigitExactly(c: char)
    ensures HexDigit(c) <==> c in "0123456789abcdef"
  {
    if '0' <= c <= '9' {
      assert "0123456789abcdef"[c as int - '0' as int] == c;
    } else if 'a' <= c <= 'f' {
      assert "0123456789abcdef"[c as int - 'a' as int + 10] == c;
    }
  }

  // ----- Snapshots -----

  /** Fields have resource keys, names and known types, and different keys. */
  predicate GoodFields(fields: seq<Field>) {
    && (forall f | f in fields :: ValidResourceKey(f.key) && 1 <= |f.name| <= 255 && KnownType(f.fieldType))
    && (forall i, j | 0 <= i < j < |fields| :: fields[i].key != fields[j].key)
  }

  /** The variant has a value for every field and for nothing else, each as its field asks. */
  ghost predicate GoodValues(fields: seq<Field>, values: map<string, Value>) {
    && (forall k | k in values :: exists f :: f in fields && f.key == k)
    && (forall f | f in fields :: f.key in values && WellTyped(f.fieldType, values[f.key]))
  }

  /** Variants have different IDs, and an environment is listed in one of them at most, and there once. */
  predicate GoodVariants(variants: seq<Variant>) {
    && (forall v | v in variants ::
          && ValidVariantId(v.id)
          && (v.environments.Some? ==>
                && (forall e | e in v.environments.value :: ValidResourceKey(e))
                && (forall m, n | 0 <= m < n < |v.environments.value| ::
                      v.environments.value[m] != v.environments.value[n])))
    && (forall i, j | 0 <= i < j < |variants| :: variants[i].id != variants[j].id)
    && (forall i, j, e | 0 <= i < j < |variants| && variants[i].environments.Some? && variants[j].environments.Some?
                         && e in variants[i].environments.value :: e !in variants[j].environments.value)
  }

  lemma FieldsExactly(fields: seq<Field>)
    ensures FieldsWell(fields) <==> GoodFields(fields)
  {
    hide ValidResourceKey;
    assert forall i | 0 <= i < |fields| :: fields[i] in fields;
  }

  lemma GoodValuesExactly(fields: seq<Field>, types: map<string, string>, values: map<string, Value>)
    requires GoodFields(fields) && IsTypes(fields, types)
    ensures ValuesWell(types, values) <==> GoodValues(fields, values)
  {
    hide ValidValue, WellTyped, ValidResourceKey;
    forall f | f in fields && f.key in values
      ensures ValidValue(f.fieldType, values[f.key]) <==> WellTyped(f.fieldType, values[f.key])
    {
      ValuesExactly(f.fieldType, values[f.key]);
    }
    if GoodValues(fields, values) {
      assert values.Keys == types.Keys;
    }
  }

  lemma VariantsExactly(fields: seq<Field>, types: map<string, string>, variants: seq<Variant>)
    requires GoodFields(fields) && IsTypes(fields, types)
    ensures VariantsWell(types, variants) <==>
            GoodVariants(variants) && forall v | v in variants :: GoodValues(fields, v.values)
  {
    hide ValuesWell, GoodValues, GoodFields, IsTypes, ValidVariantId, ValidResourceKey;
    forall v | v in variants ensures ValuesWell(types, v.values) <==> GoodValues(fields, v.values) {
      GoodValuesExactly(fields, types, v.values);
    }
    assert forall i | 0 <= i < |variants| :: variants[i] in variants;
  }

  ghost function TypesOf(fields: seq<Field>): (types: map<string, string>)
    requires GoodFields(fields)
    ensures IsTypes(fields, types)
  {
    map k | k in (set f | f in fields :: f.key) :: FieldOf(fields, k).fieldType
  }

  ghost function FieldOf(fields: seq<Field>, key: string): (f: Field)
    requires exists f :: f in fields && f.key == key
    ensures f in fields && f.key == key
  {
    var f :| f in fields && f.key == key;
    f
  }

  /** Encode accepts exactly the snapshots that keep these rules and whose payload fits. */
  lemma AcceptableExactly(s: Snapshot)
    ensures Acceptable(s) <==>
            && s.fields != [] && s.variants != [] && GoodFields(s.fields) && GoodVariants(s.variants)
            && forall v | v in s.variants :: GoodValues(s.fields, v.values)
  {
    hide FieldsWell, VariantsWell, GoodFields, GoodVariants, GoodValues, IsTypes;
    FieldsExactly(s.fields);
    if GoodFields(s.fields) {
      VariantsExactly(s.fields, TypesOf(s.fields), s.variants);
      OnlyTypes(s.fields, TypesOf(s.fields));
    }
  }
}
