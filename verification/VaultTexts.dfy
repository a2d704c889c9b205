/** What the two texts that Encode writes tell about a snapshot. A Vault commit compares them, besides the
    item's name, with those of the current revision to find that nothing has changed (lines 181 to 193 of
    internal/storage/mysqlstore/vault_mutation.go). */
module VaultTexts {
  import opened Ordering
  import opened References
  import opened JsonText
  import opened VaultDocument
  import Json

  // ----- What each text keeps -----

  function BlurField(f: Field): Field {
    Field(Blur(f.key), Blur(f.name), Blur(f.fieldType))
  }

  function BlurList(environments: Option<seq<string>>): Option<seq<string>> {
    if environments.None? then None else Some(Kept(environments.value, Blur))
  }

  function BlurPlacement(p: Placement): Placement {
    Placement(Blur(p.id), BlurList(p.environments))
  }

  function BlurStructure(st: Structure): Structure {
    Structure(Kept(st.fields, BlurField), Kept(st.variants, BlurPlacement))
  }

  function BlurFile(f: FileValue): FileValue {
    FileValue(Blur(f.filename), Blur(f.contentType), f.bytes)
  }

  function BlurValue(v: Value): Value {
    Value(match v.text case None => None case Some(text) => Some(Blur(text)),
          match v.file case None => None case Some(file) => Some(BlurFile(file)))
  }

  function BlurEntry(e: (string, Value)): (string, Value) {
    (Blur(e.0), BlurValue(e.1))
  }

  ghost function ListValues(values: map<string, Value>): seq<(string, Value)> {
    Kept(Members(values), BlurEntry)
  }

  ghost function BlurVariant(e: (string, map<string, Value>)): (string, seq<(string, Value)>) {
    (Blur(e.0), ListValues(e.1))
  }

  function BlurValues(values: map<string, Value>): map<string, Value> {
    map key | key in values :: BlurValue(values[key])
  }

  function BlurPayload(p: Payload): Payload {
    map id | id in p :: BlurValues(p[id])
  }

  // ----- Fields, variants and the structure -----

  lemma QuotesTell()
    ensures Tells(Json.Quote, Blur) && Opens(Json.Quote, "]")
    ensures forall a, b :: Blur(a) == Blur(b) ==> Json.Quote(a) == Json.Quote(b)
  {
    forall a: string, x: string, b: string, y: string ensures TellsHere(Json.Quote, Blur, a, x, b, y) {
      QuoteTells(a, x, b, y);
    }
    forall a: string, b: string ensures Blur(a) == Blur(b) ==> Json.Quote(a) == Json.Quote(b) {
      QuoteTells(a, "", b, "");
      assert Json.Quote(a) + "" == Json.Quote(a) && Json.Quote(b) + "" == Json.Quote(b);
    }
  }

  /** A quoted text, fixed punctuation and a rest. */
  lemma QuotedTells(a: string, mark: string, u: string, x: string, b: string, v: string, y: string)
    requires Json.Quote(a) + (mark + u) + x == Json.Quote(b) + (mark + v) + y
    ensures Blur(a) == Blur(b) && u + x == v + y
  {
    hide Json.Quote, Blur;
    assert Json.Quote(a) + (mark + u) + x == Json.Quote(a) + (mark + (u + x));
    assert Json.Quote(b) + (mark + v) + y == Json.Quote(b) + (mark + (v + y));
    QuoteTells(a, mark + (u + x), b, mark + (v + y));
    SplitSame(mark, u + x, mark, v + y);
  }

  lemma FieldTells(f: Field, x: string, g: Field, y: string)
    ensures TellsHere(FieldText, BlurField, f, x, g, y)
  {
    hide Json.Quote, Blur;
    if FieldText(f) + x == FieldText(g) + y {
      var q, t := ",\"type\":" + (Json.Quote(f.fieldType) + ("}" + x)),
          ",\"type\":" + (Json.Quote(g.fieldType) + ("}" + y));
      var n, m := ",\"name\":" + (Json.Quote(f.name) + q), ",\"name\":" + (Json.Quote(g.name) + t);
      Flat7("{\"key\":", Json.Quote(f.key), ",\"name\":", Json.Quote(f.name), ",\"type\":", Json.Quote(f.fieldType),
            "}", x);
      Flat7("{\"key\":", Json.Quote(g.key), ",\"name\":", Json.Quote(g.name), ",\"type\":", Json.Quote(g.fieldType),
            "}", y);
      SplitSame("{\"key\":", Json.Quote(f.key) + n, "{\"key\":", Json.Quote(g.key) + m);
      QuoteTells(f.key, n, g.key, m);
      SplitSame(",\"name\":", Json.Quote(f.name) + q, ",\"name\":", Json.Quote(g.name) + t);
      QuoteTells(f.name, q, g.name, t);
      SplitSame(",\"type\":", Json.Quote(f.fieldType) + ("}" + x), ",\"type\":", Json.Quote(g.fieldType) + ("}" + y));
      QuoteTells(f.fieldType, "}" + x, g.fieldType, "}" + y);
      SplitSame("}", x, "}", y);
    }
  }

  lemma FieldsTell()
    ensures Tells(FieldText, BlurField) && Opens(FieldText, "],\"variants\":[")
    ensures forall f, g :: BlurField(f) == BlurField(g) ==> FieldText(f) == FieldText(g)
  {
    hide Json.Quote, Blur;
    QuotesTell();
    forall f: Field, x: string, g: Field, y: string ensures TellsHere(FieldText, BlurField, f, x, g, y) {
      FieldTells(f, x, g, y);
    }
  }

  /** A nil list is told from an empty one. */
  lemma EnvironmentsTell(l: Option<seq<string>>, x: string, m: Option<seq<string>>, y: string)
    requires EnvironmentsText(l) + x == EnvironmentsText(m) + y
    ensures BlurList(l) == BlurList(m) && x == y
  {
    hide Json.Quote, Blur, ListText, Tells, Opens;
    assert EnvironmentsText(l)[0] == (if l.None? then 'n' else '[');
    assert EnvironmentsText(m)[0] == (if m.None? then 'n' else '[');
    assert (EnvironmentsText(l) + x)[0] == EnvironmentsText(l)[0];
    assert (EnvironmentsText(m) + y)[0] == EnvironmentsText(m)[0];
    if l.None? {
      SplitSame("null", x, "null", y);
    } else {
      QuotesTell();
      var t, u := ListText(l.value, Json.Quote, "]"), ListText(m.value, Json.Quote, "]");
      assert EnvironmentsText(l) + x == "[" + (t + x) && EnvironmentsText(m) + y == "[" + (u + y);
      SplitSame("[", t + x, "[", u + y);
      ListTells(l.value, x, m.value, y, Json.Quote, Blur, "]");
    }
  }

  lemma PlacementTells(p: Placement, x: string, q: Placement, y: string)
    ensures TellsHere(PlacementText, BlurPlacement, p, x, q, y)
  {
    hide Json.Quote, Blur, EnvironmentsText, BlurList;
    if PlacementText(p) + x == PlacementText(q) + y {
      var l, m := EnvironmentsText(p.environments), EnvironmentsText(q.environments);
      var u, v := ",\"environments\":" + (l + ("}" + x)), ",\"environments\":" + (m + ("}" + y));
      Flat5("{\"id\":", Json.Quote(p.id), ",\"environments\":", l, "}", x);
      Flat5("{\"id\":", Json.Quote(q.id), ",\"environments\":", m, "}", y);
      SplitSame("{\"id\":", Json.Quote(p.id) + u, "{\"id\":", Json.Quote(q.id) + v);
      QuoteTells(p.id, u, q.id, v);
      SplitSame(",\"environments\":", l + ("}" + x), ",\"environments\":", m + ("}" + y));
      EnvironmentsTell(p.environments, "}" + x, q.environments, "}" + y);
      SplitSame("}", x, "}", y);
    }
  }

  lemma PlacementsTell()
    ensures Tells(PlacementText, BlurPlacement) && Opens(PlacementText, "]}")
    ensures forall p, q :: BlurPlacement(p) == BlurPlacement(q) ==> PlacementText(p) == PlacementText(q)
  {
    hide Json.Quote, Blur, ListText;
    QuotesTell();
    forall p: Placement, x: string, q: Placement, y: string
      ensures TellsHere(PlacementText, BlurPlacement, p, x, q, y)
    {
      PlacementTells(p, x, q, y);
    }
    forall p, q | BlurPlacement(p) == BlurPlacement(q) ensures PlacementText(p) == PlacementText(q) {
      if p.environments.Some? {
        ListSame(p.environments.value, q.environments.value, Json.Quote, Blur, "]");
      }
    }
  }

  /** The digested text tells the structure up to stray bytes, and no more. */
  lemma StructureTells(x: Structure, y: Structure)
    ensures StructureText(x) == StructureText(y) <==> BlurStructure(x) == BlurStructure(y)
  {
    hide ListText, FieldText, PlacementText, BlurField, BlurPlacement;
    FieldsTell();
    PlacementsTell();
    var m := "],\"variants\":[";
    var a, b := ListText(x.variants, PlacementText, "]}"), ListText(y.variants, PlacementText, "]}");
    if StructureText(x) == StructureText(y) {
      assert StructureText(x) == "{\"fields\":[" + (ListText(x.fields, FieldText, m) + a);
      assert StructureText(y) == "{\"fields\":[" + (ListText(y.fields, FieldText, m) + b);
      SplitSame("{\"fields\":[", ListText(x.fields, FieldText, m) + a, "{\"fields\":[",
                ListText(y.fields, FieldText, m) + b);
      ListTells(x.fields, a, y.fields, b, FieldText, BlurField, m);
      assert a + "" == b + "";
      ListTells(x.variants, "", y.variants, "", PlacementText, BlurPlacement, "]}");
    }
    if BlurStructure(x) == BlurStructure(y) {
      ListSame(x.fields, y.fields, FieldText, BlurField, m);
      ListSame(x.variants, y.variants, PlacementText, BlurPlacement, "]}");
    }
  }

  // ----- The same structure in any order -----

  /** The same variant, bound to the same environments. */
  ghost predicate SamePlace(v: Variant, w: Variant) {
    v.id == w.id && Elements(Items(v.environments)) == Elements(Items(w.environments))
  }

  /** Both lists of environments are nil, or neither is. */
  predicate SameList(v: Variant, w: Variant) {
    v.environments.None? <==> w.environments.None?
  }

  ghost predicate HasSame(variants: seq<Variant>, v: Variant) {
    exists w :: w in variants && SamePlace(v, w)
  }

  /** The same fields and the same bindings, in any order. */
  ghost predicate SameStructure(a: Snapshot, b: Snapshot) {
    && Elements(a.fields) == Elements(b.fields)
    && (forall v | v in a.variants :: HasSame(b.variants, v))
    && (forall w | w in b.variants :: HasSame(a.variants, w))
  }

  /** The same variants have nil lists. Given the same bindings, only unbound variants can differ in that. */
  ghost predicate SameLists(a: Snapshot, b: Snapshot) {
    forall v, w | v in a.variants && w in b.variants && v.id == w.id :: SameList(v, w)
  }

  ghost predicate HasAlike(variants: seq<Variant>, v: Variant) {
    exists w :: w in variants && SamePlace(v, w) && SameList(v, w)
  }

  lemma PlacesAlike(v: Variant, p: Placement, w: Variant, q: Placement)
    requires Places(v, p) && Places(w, q)
    ensures SamePlace(v, w) && SameList(v, w) <==> p == q
  {
    if SamePlace(v, w) && SameList(v, w) {
      AscendingByUnique(Items(p.environments), Items(q.environments), Itself);
    }
  }

  lemma PlacementCarriesOver(a: seq<Variant>, b: seq<Variant>, ys: seq<Placement>, p: Placement)
    requires HasVariant(a, p) && (forall v | v in a :: HasAlike(b, v)) && forall w | w in b :: HasPlacement(ys, w)
    ensures p in ys
  {
    hide Places, SamePlace, SameList, HasAlike, HasPlacement;
    var v :| v in a && Places(v, p);
    var w, q := AlikeAndPlaced(b, ys, v);
    PlacesAlike(v, p, w, q);
  }

  lemma AlikeAndPlaced(b: seq<Variant>, ys: seq<Placement>, v: Variant) returns (w: Variant, q: Placement)
    requires HasAlike(b, v) && forall w | w in b :: HasPlacement(ys, w)
    ensures w in b && SamePlace(v, w) && SameList(v, w) && q in ys && Places(w, q)
  {
    hide Places, SamePlace, SameList, HasPlacement;
    w :| w in b && SamePlace(v, w) && SameList(v, w);
    q := PlacementOf(ys, w);
  }

  lemma PlacementOf(ys: seq<Placement>, w: Variant) returns (q: Placement)
    requires HasPlacement(ys, w)
    ensures q in ys && Places(w, q)
  {
    hide Places;
    q :| q in ys && Places(w, q);
  }

  lemma VariantCarriesOver(b: seq<Variant>, xs: seq<Placement>, v: Variant)
    requires HasPlacement(xs, v) && forall p | p in xs :: HasVariant(b, p)
    ensures HasAlike(b, v)
  {
    hide Places, SamePlace, SameList, HasVariant;
    var p := PlacementOf(xs, v);
    var w := VariantOf(b, p);
    PlacesAlike(v, p, w, p);
  }

  lemma VariantOf(b: seq<Variant>, p: Placement) returns (w: Variant)
    requires HasVariant(b, p)
    ensures w in b && Places(w, p)
  {
    hide Places;
    w :| w in b && Places(w, p);
  }

  /** Two snapshots have one structure exactly when they have the same fields, variants and bindings, in
      whatever order each lists its fields, variants and environments, and the same nil lists. */
  lemma OneStructureExactly(a: Snapshot, x: Structure, b: Snapshot, y: Structure)
    requires IsStructure(a, x) && IsStructure(b, y) && DistinctIds(a) && DistinctIds(b)
    ensures x == y <==> SameStructure(a, b) && SameLists(a, b)
  {
    hide SamePlace, SameList, SameLists, HasSame, HasAlike, HasPlacement, HasVariant, AscendingBy, DistinctIds;
    AlikeExactly(a, b);
    if AlikeStructure(a, b) {
      AscendingByUnique(x.fields, y.fields, KeyOf);
      forall p | p in x.variants ensures p in y.variants {
        PlacementCarriesOver(a.variants, b.variants, y.variants, p);
      }
      forall p | p in y.variants ensures p in x.variants {
        PlacementCarriesOver(b.variants, a.variants, x.variants, p);
      }
      assert Elements(x.variants) == Elements(y.variants);
      AscendingByUnique(x.variants, y.variants, IdOf);
    }
    if x == y {
      forall v | v in a.variants ensures HasAlike(b.variants, v) {
        VariantCarriesOver(b.variants, x.variants, v);
      }
      forall w | w in b.variants ensures HasAlike(a.variants, w) {
        VariantCarriesOver(a.variants, y.variants, w);
      }
    }
  }

  predicate DistinctIds(s: Snapshot) {
    forall v, w | v in s.variants && w in s.variants && v.id == w.id :: v == w
  }

  ghost predicate AlikeStructure(a: Snapshot, b: Snapshot) {
    && Elements(a.fields) == Elements(b.fields)
    && (forall v | v in a.variants :: HasAlike(b.variants, v))
    && (forall w | w in b.variants :: HasAlike(a.variants, w))
  }

  lemma AlikeExactly(a: Snapshot, b: Snapshot)
    requires DistinctIds(a) && DistinctIds(b)
    ensures AlikeStructure(a, b) <==> SameStructure(a, b) && SameLists(a, b)
  {
    if SameStructure(a, b) && SameLists(a, b) {
      forall v | v in a.variants ensures HasAlike(b.variants, v) {
        var w :| w in b.variants && SamePlace(v, w);
      }
      forall w | w in b.variants ensures HasAlike(a.variants, w) {
        var v :| v in a.variants && SamePlace(w, v);
      }
    }
    if AlikeStructure(a, b) {
      forall v | v in a.variants ensures HasSame(b.variants, v) {
        var w :| w in b.variants && SamePlace(v, w) && SameList(v, w);
      }
      forall w | w in b.variants ensures HasSame(a.variants, w) {
        var v :| v in a.variants && SamePlace(w, v) && SameList(w, v);
      }
      forall v, w | v in a.variants && w in b.variants && v.id == w.id ensures SameList(v, w) {
        var u :| u in b.variants && SamePlace(v, u) && SameList(v, u);
        assert u == w;
      }
    }
  }

  lemma IdsDistinct(s: Snapshot)
    requires Acceptable(s)
    ensures DistinctIds(s) && DistinctIds(Blurred(s))
  {
    hide VariantWell, FieldsWell, IsTypes;
    var types :| IsTypes(s.fields, types) && VariantsWell(types, s.variants);
    forall v, w | v in s.variants && w in s.variants && v.id == w.id ensures v == w {
      var i :| 0 <= i < |s.variants| && s.variants[i] == v;
      var j :| 0 <= j < |s.variants| && s.variants[j] == w;
    }
  }

  /** The snapshot with blurred field names; the other texts of its structure are plain ASCII. */
  function Blurred(s: Snapshot): Snapshot {
    s.(fields := Kept(s.fields, BlurName))
  }

  function BlurName(f: Field): Field {
    f.(name := Blur(f.name))
  }

  lemma {:induction false} AsciiWellFormed(s: string)
    requires forall i | 0 <= i < |s| :: s[i] as int < 0x80
    ensures WellFormedText(s) && Blur(s) == s
  {
    if s != "" {
      AsciiWellFormed(s[1..]);
      BlurFixes(s);
    }
  }

  lemma FieldIsPlain(f: Field)
    requires ValidField(f)
    ensures BlurField(f) == BlurName(f)
  {
    AsciiWellFormed(f.key);
    AsciiWellFormed(f.fieldType);
  }

  lemma BlursAlone(environments: seq<string>)
    requires forall e | e in environments :: ValidResourceKey(e)
    ensures Kept(environments, Blur) == environments
  {
    forall i | 0 <= i < |environments| ensures Blur(environments[i]) == environments[i] {
      assert environments[i] in environments;
      AsciiWellFormed(environments[i]);
    }
  }

  lemma PlacementIsPlain(types: map<string, string>, v: Variant, p: Placement)
    requires VariantWell(types, v) && Places(v, p)
    ensures BlurPlacement(p) == p
  {
    hide ValidResourceKey, ValuesWell;
    AsciiWellFormed(p.id);
    forall e | e in Items(p.environments) ensures ValidResourceKey(e) {
      assert e in Elements(Items(p.environments));
    }
    BlursAlone(Items(p.environments));
  }

  /** Blurring a snapshot blurs its structure. */
  lemma BlurredStructure(s: Snapshot, st: Structure)
    requires Acceptable(s) && IsStructure(s, st)
    ensures IsStructure(Blurred(s), BlurStructure(st))
  {
    hide VariantWell, FieldsWell, BlurField, BlurName, BlurPlacement, IsTypes, AscendingBy, VariantsWell, HasPlacement,
         HasVariant, Kept;
    var types :| IsTypes(s.fields, types) && VariantsWell(types, s.variants);
    BlurredFields(s.fields, st.fields);
    PlacementsPlain(types, s.variants, st.variants);
  }

  lemma PlacementsPlain(types: map<string, string>, variants: seq<Variant>, placements: seq<Placement>)
    requires VariantsWell(types, variants) && forall p | p in placements :: HasVariant(variants, p)
    ensures Kept(placements, BlurPlacement) == placements
  {
    hide VariantWell, Places, BlurPlacement;
    forall i | 0 <= i < |placements| ensures BlurPlacement(placements[i]) == placements[i] {
      assert HasVariant(variants, placements[i]);
      var v :| v in variants && Places(v, placements[i]);
      var j :| 0 <= j < |variants| && variants[j] == v;
      PlacementIsPlain(types, variants[j], placements[i]);
    }
    assert Kept(placements, BlurPlacement) == placements;
  }

  lemma BlurredFields(fields: seq<Field>, sorted: seq<Field>)
    requires FieldsWell(fields) && AscendingBy(sorted, KeyOf) && Elements(sorted) == Elements(fields)
    ensures AscendingBy(Kept(sorted, BlurField), KeyOf)
    ensures Elements(Kept(sorted, BlurField)) == Elements(Kept(fields, BlurName))
  {
    hide ValidField, Blur;
    var blurred, named := Kept(sorted, BlurField), Kept(fields, BlurName);
    forall i | 0 <= i < |sorted| ensures blurred[i] == BlurName(sorted[i]) && blurred[i] in named {
      assert sorted[i] in Elements(fields);
      var j :| 0 <= j < |fields| && fields[j] == sorted[i];
      FieldIsPlain(fields[j]);
      assert named[j] == blurred[i];
    }
    forall j | 0 <= j < |fields| ensures named[j] in blurred {
      assert fields[j] in Elements(sorted);
      var i :| 0 <= i < |sorted| && sorted[i] == fields[j];
      assert blurred[i] == named[j];
    }
  }

  /** The structure digests of two accepted snapshots are the same exactly when they have the same fields,
      variants and bindings, in any order, up to the stray bytes in field names, and nil lists of
      environments in the same variants. */
  lemma StructureExactly(a: Snapshot, x: Structure, b: Snapshot, y: Structure)
    requires Acceptable(a) && IsStructure(a, x) && Acceptable(b) && IsStructure(b, y)
    ensures StructureText(x) == StructureText(y) <==> SameStructure(Blurred(a), Blurred(b)) && SameLists(a, b)
  {
    hide Acceptable, IsStructure, SameStructure, DistinctIds, StructureText, BlurStructure, Blurred;
    BlurredStructure(a, x);
    BlurredStructure(b, y);
    StructureTells(x, y);
    IdsDistinct(a);
    IdsDistinct(b);
    BlurredLists(a, b);
    OneStructureExactly(Blurred(a), BlurStructure(x), Blurred(b), BlurStructure(y));
  }

  lemma BlurredLists(a: Snapshot, b: Snapshot)
    ensures SameLists(Blurred(a), Blurred(b)) <==> SameLists(a, b)
  {
  }

  predicate NamesWellFormed(s: Snapshot) {
    forall f | f in s.fields :: WellFormedText(f.name)
  }

  /** For names that are well-formed UTF-8 that is the same structure, no less: a name that is well formed is
      told from every other name. */
  lemma StructureOfNames(a: Snapshot, x: Structure, b: Snapshot, y: Structure)
    requires Acceptable(a) && IsStructure(a, x) && Acceptable(b) && IsStructure(b, y) && NamesWellFormed(b)
    ensures StructureText(x) == StructureText(y) <==> SameStructure(a, b) && SameLists(a, b)
  {
    hide Acceptable, IsStructure, StructureText, HasSame, SameLists;
    StructureExactly(a, x, b, y);
    BlurredElements(a.fields, b.fields);
  }

  lemma BlurredElements(fs: seq<Field>, gs: seq<Field>)
    requires forall g | g in gs :: WellFormedText(g.name)
    ensures Elements(Kept(fs, BlurName)) == Elements(Kept(gs, BlurName)) <==> Elements(fs) == Elements(gs)
  {
    hide Blur, WellFormedText;
    var ps, qs := Kept(fs, BlurName), Kept(gs, BlurName);
    forall f, g | g in gs ensures BlurName(f) == BlurName(g) <==> f == g {
      BlurTells(f.name, g.name);
    }
    NameElements(fs);
    NameElements(gs);
    if Elements(ps) == Elements(qs) {
      forall f | f in Elements(fs) ensures f in Elements(gs) {
        assert BlurName(f) in Elements(qs);
        var g :| g in gs && BlurName(g) == BlurName(f);
      }
      forall g | g in Elements(gs) ensures g in Elements(fs) {
        assert BlurName(g) in Elements(ps);
        var f :| f in fs && BlurName(f) == BlurName(g);
      }
    }
    if Elements(fs) == Elements(gs) {
      forall f ensures f in fs <==> f in gs {
        assert f in fs <==> f in Elements(fs);
      }
    }
  }

  lemma NameElements(fs: seq<Field>)
    ensures forall n :: n in Elements(Kept(fs, BlurName)) <==> exists f :: f in fs && BlurName(f) == n
  {
    hide Blur;
    var ps := Kept(fs, BlurName);
    forall n ensures n in Elements(ps) <==> exists f :: f in fs && BlurName(f) == n {
      if n in Elements(ps) {
        var i :| 0 <= i < |ps| && ps[i] == n;
        assert fs[i] in fs && BlurName(fs[i]) == n;
      }
      if exists f :: f in fs && BlurName(f) == n {
        var f :| f in fs && BlurName(f) == n;
        var i :| 0 <= i < |fs| && fs[i] == f;
        assert ps[i] == n;
      }
    }
  }

  lemma BlurStray(m: string)
    requires |m| == 1 && m[0] as int >= 0x80
    ensures Blur(m) == ANY_STRAY
  {
    assert Json.RuneLength(m) == 0 && m[1..] == "";
  }

  /** Two names that no digest tells apart. */
  lemma NamesCollide()
    ensures var a, b := OneText([0xff as char], "text"), OneText([0xfe as char], "text");
            && Acceptable(a) && Acceptable(b) && !SameStructure(a, b)
            && IsStructure(a, OneStructure([0xff as char])) && IsStructure(b, OneStructure([0xfe as char]))
            && StructureText(OneStructure([0xff as char])) == StructureText(OneStructure([0xfe as char]))
  {
    hide Acceptable, IsStructure, StructureText, Blur, Json.RuneLength;
    var m, n := [0xff as char], [0xfe as char];
    BlurStray(m);
    BlurStray(n);
    OneTextAcceptable(m, "text");
    OneTextAcceptable(n, "text");
    assert OneText(m, "text").fields[0] in Elements(OneText(m, "text").fields);
    assert BlurField(Field("a", m, "text")) == BlurField(Field("a", n, "text"));
    StructureTells(OneStructure(m), OneStructure(n));
  }

  // ----- The payload -----

  /** Nil bytes are told from none. */
  lemma BytesTell(a: Option<seq<Byte>>, x: string, b: Option<seq<Byte>>, y: string)
    requires BytesText(a) + x == BytesText(b) + y
    ensures a == b && x == y
  {
    hide Base64;
    assert (BytesText(a) + x)[0] == (if a.None? then 'n' else '"');
    assert (BytesText(b) + y)[0] == (if b.None? then 'n' else '"');
    if a.None? {
      SplitSame("null", x, "null", y);
    } else {
      var t, u := Base64(a.value) + ("\"" + x), Base64(b.value) + ("\"" + y);
      Flat3("\"", Base64(a.value), "\"", x);
      Flat3("\"", Base64(b.value), "\"", y);
      SplitSame("\"", t, "\"", u);
      Base64Tells(a.value, x, b.value, y);
    }
  }

  lemma FileTells(f: FileValue, x: string, g: FileValue, y: string)
    requires FileText(f) + x == FileText(g) + y
    ensures BlurFile(f) == BlurFile(g) && x == y
  {
    hide Json.Quote, Blur, BytesText;
    var q, t := ",\"bytes\":" + (BytesText(f.bytes) + ("}" + x)), ",\"bytes\":" + (BytesText(g.bytes) + ("}" + y));
    var n, m := ",\"content_type\":" + (Json.Quote(f.contentType) + q),
        ",\"content_type\":" + (Json.Quote(g.contentType) + t);
    Flat7("{\"filename\":", Json.Quote(f.filename), ",\"content_type\":", Json.Quote(f.contentType), ",\"bytes\":",
          BytesText(f.bytes), "}", x);
    Flat7("{\"filename\":", Json.Quote(g.filename), ",\"content_type\":", Json.Quote(g.contentType), ",\"bytes\":",
          BytesText(g.bytes), "}", y);
    SplitSame("{\"filename\":", Json.Quote(f.filename) + n, "{\"filename\":", Json.Quote(g.filename) + m);
    QuoteTells(f.filename, n, g.filename, m);
    SplitSame(",\"content_type\":", Json.Quote(f.contentType) + q, ",\"content_type\":", Json.Quote(g.contentType) + t);
    QuoteTells(f.contentType, q, g.contentType, t);
    SplitSame(",\"bytes\":", BytesText(f.bytes) + ("}" + x), ",\"bytes\":", BytesText(g.bytes) + ("}" + y));
    BytesTell(f.bytes, "}" + x, g.bytes, "}" + y);
    SplitSame("}", x, "}", y);
  }

  /** What follows a value's text member, if it has one. */
  function AfterText(file: Option<FileValue>, x: string): string {
    (if file.Some? then ",\"file\":" + FileText(file.value) else "") + ("}" + x)
  }

  lemma AfterTextTells(f: Option<FileValue>, x: string, g: Option<FileValue>, y: string)
    requires AfterText(f, x) == AfterText(g, y)
    ensures (f.Some? <==> g.Some?) && (f.Some? ==> BlurFile(f.value) == BlurFile(g.value)) && x == y
  {
    hide FileText, BlurFile;
    assert AfterText(f, x)[0] == (if f.Some? then ',' else '}');
    assert AfterText(g, y)[0] == (if g.Some? then ',' else '}');
    if f.Some? {
      assert AfterText(f, x) == ",\"file\":" + (FileText(f.value) + ("}" + x));
      assert AfterText(g, y) == ",\"file\":" + (FileText(g.value) + ("}" + y));
      SplitSame(",\"file\":", FileText(f.value) + ("}" + x), ",\"file\":", FileText(g.value) + ("}" + y));
      FileTells(f.value, "}" + x, g.value, "}" + y);
    } else {
      assert AfterText(f, x) == "}" + x && AfterText(g, y) == "}" + y;
    }
    SplitSame("}", x, "}", y);
  }

  /** How a value's text begins. */
  function ValueTag(v: Value): string {
    if v.text.Some? then "{\"text\":" else if v.file.Some? then "{\"file\":" else "{}"
  }

  function AfterTag(v: Value, x: string): string {
    if v.text.Some? then Json.Quote(v.text.value) + AfterText(v.file, x)
    else if v.file.Some? then FileText(v.file.value) + ("}" + x)
    else x
  }

  lemma ValueParts(v: Value, x: string)
    ensures ValueText(v) + x == ValueTag(v) + AfterTag(v, x)
  {
    hide Json.Quote, FileText;
  }

  lemma ValueTagTells(v: Value, x: string, w: Value, y: string)
    requires ValueTag(v) + x == ValueTag(w) + y
    ensures (v.text.Some? <==> w.text.Some?) && (v.text.None? ==> (v.file.Some? <==> w.file.Some?)) && x == y
  {
    var t, u := ValueTag(v) + x, ValueTag(w) + y;
    assert t[1] == ValueTag(v)[1] && u[1] == ValueTag(w)[1];
    if |ValueTag(v)| > 2 && |ValueTag(w)| > 2 {
      assert t[2] == ValueTag(v)[2] && u[2] == ValueTag(w)[2];
    }
    SplitSame(ValueTag(v), x, ValueTag(w), y);
  }

  lemma ValueTells(v: Value, x: string, w: Value, y: string)
    requires ValueText(v) + x == ValueText(w) + y
    ensures BlurValue(v) == BlurValue(w) && x == y
  {
    hide ValueText, ValueTag, FileText, BlurFile, Json.Quote, Blur, AfterText;
    ValueParts(v, x);
    ValueParts(w, y);
    ValueTagTells(v, AfterTag(v, x), w, AfterTag(w, y));
    if v.text.Some? {
      QuoteTells(v.text.value, AfterText(v.file, x), w.text.value, AfterText(w.file, y));
      AfterTextTells(v.file, x, w.file, y);
    } else if v.file.Some? {
      FileTells(v.file.value, "}" + x, w.file.value, "}" + y);
      SplitSame("}", x, "}", y);
    }
  }

  lemma FileSame(f: FileValue, g: FileValue)
    requires BlurFile(f) == BlurFile(g)
    ensures FileText(f) == FileText(g)
  {
    hide Json.Quote, Blur, BytesText, Tells, Opens;
    QuotesTell();
  }

  lemma ValueSame(v: Value, w: Value)
    requires BlurValue(v) == BlurValue(w)
    ensures ValueText(v) == ValueText(w)
  {
    hide Json.Quote, Blur, FileText, BlurFile, Tells, Opens;
    QuotesTell();
    if v.file.Some? {
      FileSame(v.file.value, w.file.value);
    }
  }

  lemma EntriesTell()
    ensures Tells(EntryText, BlurEntry) && Opens(EntryText, "}}")
    ensures forall e, f :: BlurEntry(e) == BlurEntry(f) ==> EntryText(e) == EntryText(f)
  {
    hide ValueText, BlurValue, Blur, Json.Escape;
    forall e: (string, Value), x: string, f: (string, Value), y: string
      ensures TellsHere(EntryText, BlurEntry, e, x, f, y)
    {
      if EntryText(e) + x == EntryText(f) + y {
        var u, v := ":" + (ValueText(e.1) + x), ":" + (ValueText(f.1) + y);
        assert EntryText(e) + x == Json.Quote(e.0) + u && EntryText(f) + y == Json.Quote(f.0) + v;
        QuoteTells(e.0, u, f.0, v);
        SplitSame(":", ValueText(e.1) + x, ":", ValueText(f.1) + y);
        ValueTells(e.1, x, f.1, y);
      }
    }
    QuotesTell();
    forall e: (string, Value), f: (string, Value) | BlurEntry(e) == BlurEntry(f) ensures EntryText(e) == EntryText(f) {
      ValueSame(e.1, f.1);
    }
  }

  lemma ValuesTell(v: map<string, Value>, x: string, w: map<string, Value>, y: string)
    requires ListText(Members(v), EntryText, "}}") + x == ListText(Members(w), EntryText, "}}") + y
    ensures ListValues(v) == ListValues(w) && x == y
  {
    hide EntryText, BlurEntry, Members, ListText, Tells, Opens;
    EntriesTell();
    ListTells(Members(v), x, Members(w), y, EntryText, BlurEntry, "}}");
  }

  lemma VariantTells(e: (string, map<string, Value>), x: string, f: (string, map<string, Value>), y: string)
    ensures TellsHere(VariantText, BlurVariant, e, x, f, y)
  {
    hide EntryText, ListValues, Blur, Json.Quote, Members, ListText;
    if VariantText(e) + x == VariantText(f) + y {
      var l, m := ListText(Members(e.1), EntryText, "}}"), ListText(Members(f.1), EntryText, "}}");
      QuotedTells(e.0, ":{\"values\":{", l, x, f.0, m, y);
      ValuesTell(e.1, x, f.1, y);
    }
  }

  lemma VariantSame(e: (string, map<string, Value>), f: (string, map<string, Value>))
    requires BlurVariant(e) == BlurVariant(f)
    ensures VariantText(e) == VariantText(f)
  {
    hide EntryText, BlurEntry, Blur, Json.Quote, Members, ListText;
    QuotesTell();
    EntriesTell();
    ListSame(Members(e.1), Members(f.1), EntryText, BlurEntry, "}}");
  }

  lemma VariantsTell()
    ensures Tells(VariantText, BlurVariant) && Opens(VariantText, "}}")
    ensures forall e, f :: BlurVariant(e) == BlurVariant(f) ==> VariantText(e) == VariantText(f)
  {
    hide BlurVariant, VariantText;
    forall e: (string, map<string, Value>), x: string, f: (string, map<string, Value>), y: string
      ensures TellsHere(VariantText, BlurVariant, e, x, f, y)
    {
      VariantTells(e, x, f, y);
    }
    forall e: (string, map<string, Value>), f: (string, map<string, Value>) | BlurVariant(e) == BlurVariant(f)
      ensures VariantText(e) == VariantText(f)
    {
      VariantSame(e, f);
    }
    forall e: (string, map<string, Value>) ensures VariantText(e) != "" && VariantText(e)[0] == '"' {
      VariantOpens(e);
    }
  }

  lemma VariantOpens(e: (string, map<string, Value>))
    ensures VariantText(e) != "" && VariantText(e)[0] == '"'
  {
    hide Json.Escape, ListText, Members;
  }

  lemma PayloadTells(p: Payload, q: Payload)
    ensures PayloadText(p) == PayloadText(q) <==> Kept(Members(p), BlurVariant) == Kept(Members(q), BlurVariant)
  {
    hide VariantText, BlurVariant, Members, ListText;
    VariantsTell();
    if PayloadText(p) == PayloadText(q) {
      var a, b := ListText(Members(p), VariantText, "}}"), ListText(Members(q), VariantText, "}}");
      SplitSame("{\"variants\":{", a, "{\"variants\":{", b);
      assert a + "" == b + "";
      ListTells(Members(p), "", Members(q), "", VariantText, BlurVariant, "}}");
    }
    if Kept(Members(p), BlurVariant) == Kept(Members(q), BlurVariant) {
      ListSame(Members(p), Members(q), VariantText, BlurVariant, "}}");
    }
  }

  predicate PlainKeys<V>(m: map<string, V>) {
    forall k | k in m :: Blur(k) == k
  }

  /** What is kept of a member is its blurred key and what is kept of its value. */
  ghost predicate KeepsBoth<V(!new), K(!new)>(kept: ((string, V)) -> (string, K), alike: V -> K) {
    forall k, v :: kept((k, v)) == (Blur(k), alike(v))
  }

  lemma KeptMember<V(!new), K(!new)>(m: map<string, V>, kept: ((string, V)) -> (string, K), alike: V -> K, i: nat)
    requires KeepsBoth(kept, alike) && i < |Sorted(m.Keys)|
    ensures |Kept(Members(m), kept)| == |Sorted(m.Keys)| && Sorted(m.Keys)[i] in m
    ensures var k := Sorted(m.Keys)[i];
            Kept(Members(m), kept)[i] == (Blur(k), alike(m[k]))
  {
    hide Blur, Members;
    var k := Sorted(m.Keys)[i];
    assert Members(m)[i] == (k, m[k]);
  }

  lemma SortedKey(keys: set<string>, k: string) returns (i: nat)
    requires k in keys
    ensures i < |Sorted(keys)| && Sorted(keys)[i] == k
  {
    assert k in Elements(Sorted(keys));
    i :| 0 <= i < |Sorted(keys)| && Sorted(keys)[i] == k;
  }

  lemma KeptKeys<V(!new), K(!new)>(a: map<string, V>, b: map<string, V>, kept: ((string, V)) -> (string, K),
                                   alike: V -> K)
    requires PlainKeys(a) && PlainKeys(b) && KeepsBoth(kept, alike)
    requires Kept(Members(a), kept) == Kept(Members(b), kept)
    ensures Sorted(a.Keys) == Sorted(b.Keys) && a.Keys == b.Keys
  {
    hide Blur, Members, KeepsBoth, Kept, Ascending, Elements, Less, Sorted;
    var ks, ls := Sorted(a.Keys), Sorted(b.Keys);
    var m, n := Kept(Members(a), kept), Kept(Members(b), kept);
    assert |ks| == |m| && |ls| == |n|;
    forall i | 0 <= i < |ks| ensures ks[i] == ls[i] {
      KeptMember(a, kept, alike, i);
      KeptMember(b, kept, alike, i);
      assert Blur(ks[i]) == m[i].0 == n[i].0 == Blur(ls[i]);
    }
    assert ks == ls;
    assert a.Keys == Elements(ks) == b.Keys;
  }

  /** Two maps with plain keys list alike exactly when they have the same keys with alike values. */
  lemma ListedAlike<V(!new), K(!new)>(a: map<string, V>, b: map<string, V>, kept: ((string, V)) -> (string, K),
                                      alike: V -> K)
    requires PlainKeys(a) && PlainKeys(b) && KeepsBoth(kept, alike)
    ensures Kept(Members(a), kept) == Kept(Members(b), kept)
       <==> a.Keys == b.Keys && forall k | k in a :: alike(a[k]) == alike(b[k])
  {
    hide Blur, Members, KeepsBoth, Kept, PlainKeys, Ascending, Elements, Less, Sorted;
    if Kept(Members(a), kept) == Kept(Members(b), kept) {
      KeptKeys(a, b, kept, alike);
      forall k | k in a ensures alike(a[k]) == alike(b[k]) {
        var i := SortedKey(a.Keys, k);
        KeptMember(a, kept, alike, i);
        KeptMember(b, kept, alike, i);
      }
    }
    if a.Keys == b.Keys && forall k | k in a :: alike(a[k]) == alike(b[k]) {
      SameMembersKept(a, b, kept, alike);
    }
  }

  lemma SameMembersKept<V(!new), K(!new)>(a: map<string, V>, b: map<string, V>, kept: ((string, V)) -> (string, K),
                                          alike: V -> K)
    requires KeepsBoth(kept, alike) && a.Keys == b.Keys && forall k | k in a :: alike(a[k]) == alike(b[k])
    ensures Kept(Members(a), kept) == Kept(Members(b), kept)
  {
    hide Blur, Members, KeepsBoth, Kept, Ascending, Elements, Less, Sorted;
    var ks, m, n := Sorted(a.Keys), Kept(Members(a), kept), Kept(Members(b), kept);
    assert |m| == |ks| == |n|;
    forall i | 0 <= i < |ks| ensures m[i] == n[i] {
      KeptMember(a, kept, alike, i);
      KeptMember(b, kept, alike, i);
    }
  }

  predicate KeysOf(values: map<string, Value>) {
    forall key | key in values :: ValidResourceKey(key)
  }

  lemma BlurEntryParts()
    ensures KeepsBoth(BlurEntry, BlurValue) && KeepsBoth(BlurVariant, ListValues)
  {
    hide Blur, BlurValue, ListValues;
  }

  lemma PlainValues(v: map<string, Value>)
    requires KeysOf(v)
    ensures PlainKeys(v)
  {
    hide Blur;
    forall key | key in v ensures Blur(key) == key {
      AsciiWellFormed(key);
    }
  }

  lemma PlainPayload(p: Payload)
    requires KeysWell(p)
    ensures PlainKeys(p) && forall id | id in p :: KeysOf(p[id])
  {
    hide Blur, ValidResourceKey;
    forall id | id in p ensures Blur(id) == id {
      AsciiWellFormed(id);
    }
  }

  lemma BlurredValues(v: map<string, Value>, w: map<string, Value>)
    ensures BlurValues(v) == BlurValues(w) <==> v.Keys == w.Keys && forall k | k in v ::
            BlurValue(v[k]) == BlurValue(w[k])
  {
    hide BlurValue;
    assert BlurValues(v).Keys == v.Keys && BlurValues(w).Keys == w.Keys;
    if BlurValues(v) == BlurValues(w) {
      forall k | k in v ensures BlurValue(v[k]) == BlurValue(w[k]) {
        assert BlurValues(v)[k] == BlurValues(w)[k];
      }
    }
  }

  lemma BlurredPayloads(p: Payload, q: Payload)
    ensures BlurPayload(p) == BlurPayload(q) <==> p.Keys == q.Keys && forall id | id in p ::
            BlurValues(p[id]) == BlurValues(q[id])
  {
    hide BlurValues;
    assert BlurPayload(p).Keys == p.Keys && BlurPayload(q).Keys == q.Keys;
    if BlurPayload(p) == BlurPayload(q) {
      forall id | id in p ensures BlurValues(p[id]) == BlurValues(q[id]) {
        assert BlurPayload(p)[id] == BlurPayload(q)[id];
      }
    }
  }

  lemma ValuesExactly(v: map<string, Value>, w: map<string, Value>)
    requires KeysOf(v) && KeysOf(w)
    ensures ListValues(v) == ListValues(w) <==> BlurValues(v) == BlurValues(w)
  {
    hide Blur, BlurValue, BlurValues, BlurEntry, Members, Kept, KeysOf, PlainKeys, KeepsBoth;
    PlainValues(v);
    PlainValues(w);
    BlurEntryParts();
    BlurredValues(v, w);
    ListedAlike(v, w, BlurEntry, BlurValue);
  }

  /** The payload's text tells the payload, nil bytes included, up to stray bytes, and no more. */
  lemma PayloadExactly(p: Payload, q: Payload)
    requires KeysWell(p) && KeysWell(q)
    ensures PayloadText(p) == PayloadText(q) <==> BlurPayload(p) == BlurPayload(q)
  {
    hide Blur, BlurValues, BlurPayload, BlurVariant, ListValues, Members, Kept, PayloadText, KeysWell, KeysOf,
         PlainKeys, KeepsBoth;
    PlainPayload(p);
    PlainPayload(q);
    BlurEntryParts();
    PayloadTells(p, q);
    BlurredPayloads(p, q);
    forall id | id in p && id in q ensures ListValues(p[id]) == ListValues(q[id])
        <==> BlurValues(p[id]) == BlurValues(q[id]) {
      ValuesExactly(p[id], q[id]);
    }
    ListedAlike(p, q, BlurVariant, ListValues);
  }

  // ----- What the two texts tell together -----

  lemma EncodedKeys(s: Snapshot, p: Payload)
    requires Acceptable(s) && IsPayload(s, p)
    ensures KeysWell(p)
  {
    hide Acceptable, IsPayload, KeysWell, Decodable;
    PayloadDecodable(s, p);
    DecodableKeys(p);
  }

  /** Two accepted snapshots are written alike exactly when they have the same fields, variants, bindings and
      values, in any order, up to stray bytes, and nil lists and bytes in the same places. */
  lemma WrittenAlike(a: Snapshot, p: Payload, x: Structure, b: Snapshot, q: Payload, y: Structure)
    requires Acceptable(a) && IsPayload(a, p) && IsStructure(a, x)
    requires Acceptable(b) && IsPayload(b, q) && IsStructure(b, y)
    ensures StructureText(x) == StructureText(y) && PayloadText(p) == PayloadText(q)
       <==> SameStructure(Blurred(a), Blurred(b)) && SameLists(a, b) && BlurPayload(p) == BlurPayload(q)
  {
    hide Acceptable, IsPayload, IsStructure, StructureText, PayloadText, SameStructure, SameLists, BlurPayload,
         KeysWell;
    StructureExactly(a, x, b, y);
    EncodedKeys(a, p);
    EncodedKeys(b, q);
    PayloadExactly(p, q);
  }

  lemma BlurTellsValue(v: Value, w: Value)
    requires WellFormedValue(w)
    ensures BlurValue(v) == BlurValue(w) <==> v == w
  {
    hide Blur, WellFormedText;
    if v.text.Some? && w.text.Some? {
      BlurTells(v.text.value, w.text.value);
    }
    if v.file.Some? && w.file.Some? {
      BlurTells(v.file.value.filename, w.file.value.filename);
      BlurTells(v.file.value.contentType, w.file.value.contentType);
    }
  }

  lemma BlurTellsPayload(p: Payload, q: Payload)
    requires forall id, key | id in q && key in q[id] :: WellFormedValue(q[id][key])
    ensures BlurPayload(p) == BlurPayload(q) <==> p == q
  {
    hide BlurValue, WellFormedValue, BlurPayload, BlurValues;
    BlurredPayloads(p, q);
    if BlurPayload(p) == BlurPayload(q) {
      forall id | id in p ensures p[id] == q[id] {
        BlurredValues(p[id], q[id]);
        forall key | key in p[id] ensures p[id][key] == q[id][key] {
          BlurTellsValue(p[id][key], q[id][key]);
        }
      }
    }
  }

  /** When the texts of one of them are well-formed UTF-8, a commit finds no change exactly when there is none,
      neither in content nor in which lists and bytes are nil. */
  lemma NoChangeExactly(a: Snapshot, p: Payload, x: Structure, b: Snapshot, q: Payload, y: Structure)
    requires Acceptable(a) && IsPayload(a, p) && IsStructure(a, x)
    requires Acceptable(b) && IsPayload(b, q) && IsStructure(b, y)
    requires NamesWellFormed(b) && AllValues(b, WellFormedValue)
    ensures StructureText(x) == StructureText(y) && PayloadText(p) == PayloadText(q)
       <==> SameStructure(a, b) && SameLists(a, b) && p == q
  {
    hide Acceptable, IsStructure, StructureText, PayloadText, SameStructure, SameLists, BlurPayload, KeysWell,
         WellFormedValue,
         NamesWellFormed;
    StructureOfNames(a, x, b, y);
    EncodedKeys(a, p);
    EncodedKeys(b, q);
    PayloadExactly(p, q);
    forall id, key | id in q && key in q[id] ensures WellFormedValue(q[id][key]) {
      var v :| v in b.variants && v.id == id;
      assert WellFormedValue(v.values[key]);
    }
    BlurTellsPayload(p, q);
  }

  /** Bound to the same environments, only unbound variants can differ in having a nil list. */
  lemma BoundListsSame(v: Variant, w: Variant)
    requires SamePlace(v, w) && Items(v.environments) != []
    ensures SameList(v, w)
  {
    assert Items(v.environments)[0] in Elements(Items(w.environments));
  }

  /** A nil list of environments and an empty one: the same snapshot for every reader, and two digests. */
  lemma EmptyListToldApart(name: string, text: string)
    requires 0 < |name| <= 255 && |text| <= MAX_TEXT_BYTES
    ensures var a, b := OneText(name, text, None), OneText(name, text, Some([]));
            && Acceptable(a) && Acceptable(b) && SameStructure(a, b)
            && IsPayload(a, OnePayload(text)) && IsPayload(b, OnePayload(text))
            && IsStructure(a, OneStructure(name, None)) && IsStructure(b, OneStructure(name, Some([])))
            && StructureText(OneStructure(name, None)) != StructureText(OneStructure(name, Some([])))
  {
    hide Acceptable, IsPayload, IsStructure, StructureText, SameStructure;
    OneTextAcceptable(name, text, None);
    OneTextAcceptable(name, text, Some([]));
    OneTextSame(name, text);
    EmptyListDigest(name);
  }

  lemma OneTextSame(name: string, text: string)
    ensures SameStructure(OneText(name, text, None), OneText(name, text, Some([])))
  {
    var a, b := OneText(name, text, None), OneText(name, text, Some([]));
    var v, w := a.variants[0], b.variants[0];
    assert v in a.variants && w in b.variants && SamePlace(v, w) && SamePlace(w, v);
  }

  lemma EmptyListDigest(name: string)
    ensures StructureText(OneStructure(name, None)) != StructureText(OneStructure(name, Some([])))
  {
    hide StructureText, Blur;
    var x, y := OneStructure(name, None), OneStructure(name, Some([]));
    assert BlurPlacement(x.variants[0]) != BlurPlacement(y.variants[0]);
    assert BlurStructure(x).variants[0] != BlurStructure(y).variants[0];
    StructureTells(x, y);
  }

  function OneFile(bytes: Option<seq<Byte>>): Value {
    Value(None, Some(FileValue("f", "", bytes)))
  }

  /** Nil bytes and empty ones: the same file for every reader, and two payload texts. */
  lemma EmptyBytesToldApart()
    ensures var f := Field("a", "f", "file");
            var a, b := OneValue(f, OneFile(None), Some([])), OneValue(f, OneFile(Some([])), Some([]));
            var p, q := map[VARIANT_ID := map["a" := OneFile(None)]], map[VARIANT_ID := map["a" := OneFile(Some([]))]];
            && Acceptable(a) && Acceptable(b) && IsPayload(a, p) && IsPayload(b, q)
            && PayloadText(p) != PayloadText(q)
  {
    hide Acceptable, IsPayload, IsStructure, PayloadText, BlurPayload;
    var f := Field("a", "f", "file");
    OneValueAcceptable(f, OneFile(None), Some([]));
    OneValueAcceptable(f, OneFile(Some([])), Some([]));
    var v, w := map["a" := OneFile(None)], map["a" := OneFile(Some([]))];
    var p, q := map[VARIANT_ID := v], map[VARIANT_ID := w];
    EncodedKeys(OneValue(f, OneFile(None), Some([])), p);
    EncodedKeys(OneValue(f, OneFile(Some([])), Some([])), q);
    PayloadExactly(p, q);
    BlurredPayloads(p, q);
    BlurredValues(v, w);
    assert BlurValue(v["a"]) != BlurValue(w["a"]);
    assert BlurValues(p[VARIANT_ID]) != BlurValues(q[VARIANT_ID]);
  }

  // ----- The laws of the coder can be kept -----

  lemma CoerceBlurred(p: Payload, q: Payload)
    requires BlurPayload(p) == BlurPayload(q)
    ensures CoercePayload(p) == CoercePayload(q)
  {
    hide BlurValue, CoerceValue, BlurPayload, BlurValues;
    BlurredPayloads(p, q);
    forall id | id in p ensures CoercePayload(p)[id] == CoercePayload(q)[id] {
      BlurredValues(p[id], q[id]);
      forall key | key in p[id] ensures CoerceValue(p[id][key]) == CoerceValue(q[id][key]) {
        CoerceBlurredValue(p[id][key]);
        CoerceBlurredValue(q[id][key]);
      }
    }
  }

  lemma CoerceBlurredValue(v: Value)
    ensures CoerceValue(BlurValue(v)) == CoerceValue(v)
  {
    hide Blur, Coerce;
    if v.text.Some? {
      BlurTwice(v.text.value);
    }
    if v.file.Some? {
      BlurTwice(v.file.value.filename);
      BlurTwice(v.file.value.contentType);
    }
  }

  /** Reading what was written: any payload with this text, its stray bytes replaced. */
  ghost function ReadBack(text: string): Option<Payload> {
    if exists p :: KeysWell(p) && PayloadText(p) == text then
      var p :| KeysWell(p) && PayloadText(p) == text;
      Some(CoercePayload(p))
    else None
  }

  /** The text of a payload determines what is read back from it, so a coder with these laws exists. */
  lemma LawfulCoder() returns (coder: Coder)
    ensures CoderLaws(coder)
  {
    hide KeysWell, PayloadText, CoercePayload;
    coder := Coder(PayloadText, ReadBack);
    forall p | KeysWell(p) ensures coder.unmarshal(coder.marshal(p)) == Some(CoercePayload(p)) {
      var q :| KeysWell(q) && PayloadText(q) == PayloadText(p) && ReadBack(PayloadText(p)) == Some(CoercePayload(q));
      PayloadExactly(p, q);
      CoerceBlurred(p, q);
    }
  }
}
