/** Restoring a revision of a Vault item: what ReadVaultItem rebuilds (lines 290 to 412 of
    internal/storage/mysqlstore/vault_read.go) is committed again by RestoreVault (lines 267 to 300 of
    internal/storage/mysqlstore/vault_mutation.go). The rebuilt snapshot has the same fields, variants and
    bindings, but a variant without rows of bindings gets a nil list, whatever list it was committed with. */
module VaultRestores {
  import opened Ordering
  import opened References
  import opened JsonText
  import opened VaultDocument
  import opened VaultTexts

  // ----- What is rebuilt -----

  /** One variant: its environments come from rows, in some order, its values from the decoded payload. */
  ghost predicate VariantRebuilt(v: Variant, w: Variant) {
    && w.id == v.id
    && (w.environments.None? <==> Items(v.environments) == [])
    && Elements(Items(w.environments)) == Elements(Items(v.environments)) && NoRepeats(Items(w.environments))
    && w.values == map k | k in v.values :: CoerceValue(v.values[k])
  }

  /** The rows of fields come in some order, those of variants in the committed order. */
  ghost predicate Rebuilt(s: Snapshot, r: Snapshot) {
    && Elements(r.fields) == Elements(s.fields)
    && (forall i, j | 0 <= i < j < |r.fields| :: r.fields[i].key != r.fields[j].key)
    && |r.variants| == |s.variants|
    && forall i | 0 <= i < |s.variants| :: VariantRebuilt(s.variants[i], r.variants[i])
  }

  // ----- It is accepted again -----

  lemma CoercedValid(fieldType: string, v: Value)
    requires ValidValue(fieldType, v) && StaysShort(v)
    ensures ValidValue(fieldType, CoerceValue(v))
  {
    hide Coerce, StrayBytes;
    if v.text.Some? {
      CoerceLength(v.text.value);
    }
    if v.file.Some? {
      CoerceLength(v.file.value.filename);
      CoerceLength(v.file.value.contentType);
    }
  }

  lemma VariantAccepted(types: map<string, string>, v: Variant, w: Variant)
    requires VariantWell(types, v) && VariantRebuilt(v, w) && forall k | k in v.values :: StaysShort(v.values[k])
    ensures VariantWell(types, w)
  {
    hide ValidResourceKey, ValidVariantId, ValidValue, StaysShort, CoerceValue;
    forall e | e in Items(w.environments) ensures ValidResourceKey(e) {
      assert e in Elements(Items(v.environments));
    }
    assert w.values.Keys == v.values.Keys;
    forall k | k in types ensures ValidValue(types[k], w.values[k]) {
      CoercedValid(types[k], v.values[k]);
    }
  }

  lemma VariantsAccepted(types: map<string, string>, s: Snapshot, r: Snapshot)
    requires VariantsWell(types, s.variants) && Rebuilt(s, r) && AllValues(s, StaysShort)
    ensures VariantsWell(types, r.variants)
  {
    hide VariantWell, StaysShort;
    forall i | 0 <= i < |r.variants| ensures VariantWell(types, r.variants[i]) {
      var v := s.variants[i];
      assert v in s.variants;
      VariantAccepted(types, v, r.variants[i]);
    }
    forall i, j, e | 0 <= i < j < |r.variants| && e in Items(r.variants[i].environments)
      ensures e !in Items(r.variants[j].environments)
    {
      assert VariantRebuilt(s.variants[i], r.variants[i]) && VariantRebuilt(s.variants[j], r.variants[j]);
      assert e in Elements(Items(s.variants[i].environments));
      assert e !in Elements(Items(s.variants[j].environments));
    }
  }

  lemma FieldsAccepted(s: Snapshot, r: Snapshot, types: map<string, string>)
    requires FieldsWell(s.fields) && IsTypes(s.fields, types) && Rebuilt(s, r)
    ensures FieldsWell(r.fields) && IsTypes(r.fields, types)
  {
    hide ValidField, VariantRebuilt;
    assert forall f :: f in s.fields <==> f in Elements(s.fields);
    assert forall f :: f in r.fields <==> f in Elements(r.fields);
    forall i | 0 <= i < |r.fields| ensures ValidField(r.fields[i]) {
      assert r.fields[i] in Elements(s.fields);
    }
  }

  lemma RebuiltAccepted(s: Snapshot, r: Snapshot)
    requires Acceptable(s) && AllValues(s, StaysShort) && Rebuilt(s, r)
    ensures Acceptable(r)
  {
    hide VariantsWell, FieldsWell, IsTypes, VariantRebuilt, AllValues;
    var types :| IsTypes(s.fields, types) && VariantsWell(types, s.variants);
    FieldsAccepted(s, r, types);
    VariantsAccepted(types, s, r);
    assert s.fields[0] in Elements(r.fields);
  }

  // ----- It is the same structure -----

  lemma RebuiltSame(s: Snapshot, r: Snapshot)
    requires Rebuilt(s, r)
    ensures SameStructure(Blurred(s), Blurred(r))
  {
    RebuiltFields(s.fields, r.fields);
    forall v | v in s.variants ensures HasSame(r.variants, v) {
      var i :| 0 <= i < |s.variants| && s.variants[i] == v;
      assert VariantRebuilt(v, r.variants[i]) && r.variants[i] in r.variants && SamePlace(v, r.variants[i]);
    }
    forall w | w in r.variants ensures HasSame(s.variants, w) {
      var i :| 0 <= i < |r.variants| && r.variants[i] == w;
      assert VariantRebuilt(s.variants[i], w) && s.variants[i] in s.variants && SamePlace(w, s.variants[i]);
    }
  }

  lemma RebuiltFields(fs: seq<Field>, gs: seq<Field>)
    requires Elements(fs) == Elements(gs)
    ensures Elements(Kept(fs, BlurName)) == Elements(Kept(gs, BlurName))
  {
    hide BlurName;
    NameElements(fs);
    NameElements(gs);
    assert forall f :: f in fs <==> f in Elements(fs);
    assert forall f :: f in gs <==> f in Elements(gs);
  }

  /** No variant was committed with an empty list: one that is bound to nothing had none. */
  ghost predicate NoEmptyList(s: Snapshot) {
    forall v | v in s.variants :: v.environments != Some([])
  }

  lemma RebuiltLists(s: Snapshot, r: Snapshot)
    requires Rebuilt(s, r) && DistinctIds(s)
    ensures SameLists(s, r) <==> NoEmptyList(s)
  {
    forall i | 0 <= i < |s.variants|
      ensures SameList(s.variants[i], r.variants[i]) <==> s.variants[i].environments != Some([])
    {
      assert VariantRebuilt(s.variants[i], r.variants[i]);
    }
    if SameLists(s, r) {
      forall v | v in s.variants ensures v.environments != Some([]) {
        var i :| 0 <= i < |s.variants| && s.variants[i] == v;
        assert VariantRebuilt(v, r.variants[i]) && r.variants[i] in r.variants;
      }
    }
    if NoEmptyList(s) {
      forall v, w | v in s.variants && w in r.variants && v.id == w.id ensures SameList(v, w) {
        var j :| 0 <= j < |r.variants| && r.variants[j] == w;
        assert VariantRebuilt(s.variants[j], w) && s.variants[j] in s.variants;
      }
    }
  }

  // ----- It has the same payload, coerced -----

  lemma RebuiltPayload(s: Snapshot, p: Payload, r: Snapshot)
    requires IsPayload(s, p) && Rebuilt(s, r)
    ensures IsPayload(r, CoercePayload(p))
  {
    hide CoerceValue, Items, NoRepeats, Elements;
    var q := CoercePayload(p);
    assert q.Keys == p.Keys;
    forall w | w in r.variants ensures w.id in q && q[w.id] == w.values {
      var i :| 0 <= i < |r.variants| && r.variants[i] == w;
      assert VariantRebuilt(s.variants[i], w) && s.variants[i] in s.variants;
    }
    forall id | id in q ensures exists w :: w in r.variants && w.id == id {
      var v :| v in s.variants && v.id == id;
      var i :| 0 <= i < |s.variants| && s.variants[i] == v;
      assert VariantRebuilt(v, r.variants[i]) && r.variants[i] in r.variants;
    }
  }

  lemma {:induction false} CoercedWellFormed(t: string)
    ensures WellFormedText(Coerce(t))
  {
    hide Blur;
    BlurTwice(t);
    if t != "" {
      var rest := t[Step(t)..];
      CoercedWellFormed(rest);
      var head := if Stray(t) then REPLACEMENT else t[..Step(t)];
      assert Coerce(t) == head + Coerce(rest);
      if !Stray(t) {
        RuneStays(t, Coerce(rest));
      }
      assert Json.RuneLength(Coerce(t)) == |head|;
      assert Coerce(t)[|head|..] == Coerce(rest);
    }
  }

  lemma CoercedValueWellFormed(v: Value)
    ensures WellFormedValue(CoerceValue(v))
  {
    hide Coerce, WellFormedText;
    if v.text.Some? {
      CoercedWellFormed(v.text.value);
    }
    if v.file.Some? {
      CoercedWellFormed(v.file.value.filename);
      CoercedWellFormed(v.file.value.contentType);
    }
  }

  /** A payload is written like what is read back from it exactly when nothing was replaced. */
  lemma CoercedTellsPayload(p: Payload)
    ensures BlurPayload(p) == BlurPayload(CoercePayload(p)) <==> CoercePayload(p) == p
  {
    hide CoerceValue, WellFormedValue, BlurPayload;
    var q := CoercePayload(p);
    forall id, key | id in q && key in q[id] ensures WellFormedValue(q[id][key]) {
      CoercedValueWellFormed(p[id][key]);
    }
    BlurTellsPayload(p, q);
  }

  // ----- Restoring the current revision -----

  /** Restoring the current revision finds no change exactly when all its texts are well-formed UTF-8 and none
      of its variants was committed with an empty list of environments. Otherwise it adds a revision. */
  lemma RestoreFindsNoChange(s: Snapshot, p: Payload, x: Structure, r: Snapshot, y: Structure)
    requires Acceptable(s) && IsPayload(s, p) && IsStructure(s, x) && AllValues(s, StaysShort)
    requires Rebuilt(s, r) && IsStructure(r, y)
    ensures Acceptable(r) && IsPayload(r, CoercePayload(p))
    ensures StructureText(y) == StructureText(x) && PayloadText(CoercePayload(p)) == PayloadText(p)
       <==> NoEmptyList(s) && AllValues(s, WellFormedValue)
  {
    hide Acceptable, IsPayload, IsStructure, StructureText, PayloadText, Rebuilt, SameStructure, SameLists, BlurPayload,
         DistinctIds, NoEmptyList, CoercePayload, AllValues;
    RebuiltAccepted(s, r);
    RebuiltPayload(s, p, r);
    WrittenAlike(s, p, x, r, CoercePayload(p), y);
    RebuiltSame(s, r);
    IdsDistinct(s);
    RebuiltLists(s, r);
    CoercedTellsPayload(p);
    CoercesToItself(s, p);
  }

  /** Restoring once more finds no change, whatever the first restore found. */
  lemma SecondRestoreFindsNoChange(s: Snapshot, p: Payload, r: Snapshot, x: Structure, again: Snapshot, y: Structure)
    requires Acceptable(s) && IsPayload(s, p) && AllValues(s, StaysShort) && Rebuilt(s, r) && IsStructure(r, x)
    requires Rebuilt(r, again) && IsStructure(again, y)
    ensures StructureText(y) == StructureText(x)
         && PayloadText(CoercePayload(CoercePayload(p))) == PayloadText(CoercePayload(p))
  {
    hide Acceptable, IsPayload, IsStructure, StructureText, PayloadText, Rebuilt, CoercePayload;
    RebuiltAccepted(s, r);
    RebuiltPayload(s, p, r);
    RebuiltWell(s, r);
    WellFormedStaysShort(r);
    RestoreFindsNoChange(r, CoercePayload(p), x, again, y);
  }

  lemma RebuiltWell(s: Snapshot, r: Snapshot)
    requires Rebuilt(s, r)
    ensures NoEmptyList(r) && AllValues(r, WellFormedValue)
  {
    hide WellFormedValue, CoerceValue;
    forall w | w in r.variants
      ensures w.environments != Some([]) && forall k | k in w.values :: WellFormedValue(w.values[k])
    {
      var i :| 0 <= i < |r.variants| && r.variants[i] == w;
      var v := s.variants[i];
      assert VariantRebuilt(v, w);
      if w.environments.Some? {
        assert Items(v.environments)[0] in Elements(Items(w.environments));
      }
      forall k | k in w.values ensures WellFormedValue(w.values[k]) {
        CoercedValueWellFormed(v.values[k]);
      }
    }
  }

  /** An item whose only variant is bound to nothing, created with an empty list: restoring it finds a change. */
  lemma UnboundRestoreChanges(name: string, text: string) returns (r: Snapshot)
    requires 0 < |name| <= 255 && |text| <= MAX_TEXT_BYTES && WellFormedText(text)
    ensures var s := OneText(name, text, Some([]));
            && Acceptable(s) && IsPayload(s, OnePayload(text)) && IsStructure(s, OneStructure(name, Some([])))
            && AllValues(s, WellFormedValue) && Rebuilt(s, r) && IsStructure(r, OneStructure(name, None))
            && IsPayload(r, OnePayload(text))
            && StructureText(OneStructure(name, None)) != StructureText(OneStructure(name, Some([])))
  {
    hide Acceptable, IsPayload, IsStructure, StructureText, WellFormedText, Coerce;
    EmptyListToldApart(name, text);
    CoerceFixes(text);
    var s := OneText(name, text, Some([]));
    r := OneText(name, text, None);
    var values := s.variants[0].values;
    assert values["a"] == CoerceValue(values["a"]);
    assert values == map k | k in values :: CoerceValue(values[k]);
    assert VariantRebuilt(s.variants[0], r.variants[0]);
  }
}
