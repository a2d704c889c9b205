/** The JSON document engine on texts, over a lexer that is a parameter, keeps the laws that stored documents
    rely on. Models Canonicalize of internal/configdoc/canonical.go and Merge of internal/configdoc/merge.go
    for JSON, as the store calls them. */
module JsonCodec {
  import opened Ordering
  import opened References
  import opened Json
  import opened JsonDecoder
  import opened JsonPrinted
  import opened JsonText
  import opened Merge
  import D = JsonDocument
  import JsonMerge
  import ConfigStore
  import opened StoredContents

  /** The token stream of a text. */
  datatype Lexer = Lexer(tokens: string -> seq<Token>)

  predicate GoodToken(t: Token) {
    match t
    case Number(lexeme) => NumberLexeme(lexeme)
    case Text(text) => WellFormedText(text)
    case _ => true
  }

  predicate GoodTokens(tokens: seq<Token>) {
    forall i | 0 <= i < |tokens| :: GoodToken(tokens[i])
  }

  /** A lexer yields numbers of the grammar and well-formed texts, and reads a printed value, nested no deeper
      than the decoder admits, as the value's own tokens. */
  ghost predicate LexerLaws(lexer: Lexer) {
    && (forall text :: GoodTokens(lexer.tokens(text)))
    && (forall v | Decodable(v) && Fits(v, 0) :: lexer.tokens(CanonicalText(v)) == CanonicalTokens(v))
  }

  // ----- What is read from good tokens is good -----

  lemma GoodTail(input: seq<Token>, n: nat)
    requires GoodTokens(input) && n <= |input|
    ensures GoodTokens(input[n..])
  {
  }

  lemma {:induction false} DecodeGood(input: seq<Token>, depth: nat)
    requires GoodTokens(input)
    ensures var r := Decode(input, depth);
            r.Ok? ==> Decodable(r.value) && GoodTokens(r.rest)
    decreases |input|, 1
  {
    if depth <= MAX_DEPTH && input != [] {
      assert GoodToken(input[0]);
      GoodTail(input, 1);
      if input[0] == BeginObject {
        MembersGood(input[1..], map[], depth);
      } else if input[0] == BeginArray {
        ItemsGood(input[1..], [], depth);
      }
    }
  }

  lemma {:induction false} MembersGood(input: seq<Token>, soFar: map<string, Json>, depth: nat)
    requires GoodTokens(input) && Decodable(JObject(soFar))
    ensures var r := DecodeMembers(input, soFar, depth);
            r.Ok? ==> Decodable(r.value) && GoodTokens(r.rest)
    decreases |input|, 0
  {
    if input != [] {
      GoodTail(input, 1);
      assert GoodToken(input[0]);
      if More(input) && input[0].Text? && input[0].text !in soFar {
        DecodeGood(input[1..], depth + 1);
        var member := Decode(input[1..], depth + 1);
        if member.Ok? {
          MembersGood(member.rest, soFar[input[0].text := member.value], depth);
        }
      }
    }
  }

  lemma {:induction false} ItemsGood(input: seq<Token>, soFar: seq<Json>, depth: nat)
    requires GoodTokens(input) && Decodable(JArray(soFar))
    ensures var r := DecodeItems(input, soFar, depth);
            r.Ok? ==> Decodable(r.value) && GoodTokens(r.rest)
    decreases |input|, 2
  {
    if !More(input) {
      if input != [] {
        GoodTail(input, 1);
      }
    } else {
      DecodeGood(input, depth + 1);
      var item := Decode(input, depth + 1);
      if item.Ok? {
        ItemsGood(item.rest, soFar + [item.value], depth);
      }
    }
  }

  lemma {:induction false} MergeGood(source: Json, target: Json)
    requires Decodable(source) && Decodable(target)
    ensures Decodable(MergeJson(source, target))
    decreases source
  {
    if source.JObject? && target.JObject? {
      forall k | k in source.members && k in target.members
        ensures Decodable(MergeJson(source.members[k], target.members[k]))
      {
        MergeGood(source.members[k], target.members[k]);
      }
    }
  }

  // ----- The list of references -----

  lemma BeforeTotal(a: Reference, b: Reference)
    ensures a == b || D.BeforeReference(a, b) || D.BeforeReference(b, a)
  {
    LessTotal(a.namespaceKey, b.namespaceKey);
    LessTotal(a.itemKey, b.itemKey);
    LessTotal(a.fieldKey, b.fieldKey);
  }

  lemma BeforeTransitive(a: Reference, b: Reference, c: Reference)
    requires D.BeforeReference(a, b) && D.BeforeReference(b, c)
    ensures D.BeforeReference(a, c)
  {
    if a.namespaceKey != b.namespaceKey && b.namespaceKey != c.namespaceKey {
      LessTransitive(a.namespaceKey, b.namespaceKey, c.namespaceKey);
      LessAsymmetric(a.namespaceKey, b.namespaceKey);
    } else if a.namespaceKey == b.namespaceKey == c.namespaceKey {
      if a.itemKey != b.itemKey && b.itemKey != c.itemKey {
        LessTransitive(a.itemKey, b.itemKey, c.itemKey);
        LessAsymmetric(a.itemKey, b.itemKey);
      } else if a.itemKey == b.itemKey == c.itemKey {
        LessTransitive(a.fieldKey, b.fieldKey, c.fieldKey);
      }
    }
  }

  ghost predicate InOrder(list: seq<Reference>) {
    forall i, j | 0 <= i < j < |list| :: D.BeforeReference(list[i], list[j])
  }

  function Insert(list: seq<Reference>, r: Reference): seq<Reference> {
    if list == [] || D.BeforeReference(r, list[0]) then [r] + list
    else [list[0]] + Insert(list[1..], r)
  }

  lemma {:induction false} InsertInOrder(list: seq<Reference>, r: Reference)
    requires InOrder(list) && r !in list
    ensures InOrder(Insert(list, r)) && Elements(Insert(list, r)) == Elements(list) + {r}
  {
    hide D.BeforeReference;
    if list != [] {
      BeforeTotal(r, list[0]);
      if D.BeforeReference(r, list[0]) {
        forall i | 1 <= i < |list| ensures D.BeforeReference(r, list[i]) {
          BeforeTransitive(r, list[0], list[i]);
        }
      } else {
        InsertInOrder(list[1..], r);
        var rest := Insert(list[1..], r);
        forall i | 0 <= i < |rest| ensures D.BeforeReference(list[0], rest[i]) {
          assert rest[i] in Elements(rest);
        }
        assert list == [list[0]] + list[1..];
        assert Elements([list[0]] + rest) == {list[0]} + Elements(rest);
        assert Elements(list) == {list[0]} + Elements(list[1..]);
      }
    }
  }

  /** sortedReferences. */
  ghost function SortedList(unique: set<Reference>): seq<Reference>
    decreases |unique|
  {
    if unique == {} then []
    else
      var r := Pick(unique);
      Insert(SortedList(unique - {r}), r)
  }

  lemma {:induction false} SortedListIs(unique: set<Reference>)
    ensures D.SortedReferences(unique, SortedList(unique))
    decreases |unique|
  {
    if unique != {} {
      var r := Pick(unique);
      SortedListIs(unique - {r});
      InsertInOrder(SortedList(unique - {r}), r);
    }
  }

  // ----- Texts -----

  /** Canonicalize for JSON. */
  ghost function Canonicalize(lexer: Lexer, content: string): Option<ConfigStore.Document> {
    if |content| > MAX_CONFIG_BYTES then None
    else
      var r := Decode(lexer.tokens(content), 0);
      if r.Ok? && D.Canonicalizes(lexer.tokens(content), r.value)
      then Some(ConfigStore.Document(CanonicalText(r.value), SortedList(D.ReferencesIn(r.value)))) else None
  }

  /** Merge for JSON: both sides are canonicalised and read back, the merge is printed and canonicalised. */
  ghost function MergeTexts(lexer: Lexer, source: string, target: string): Option<ConfigStore.Document> {
    var s, t := Canonicalize(lexer, source), Canonicalize(lexer, target);
    if s.None? || t.None? then None
    else
      var a, b := Decode(lexer.tokens(s.value.content), 0), Decode(lexer.tokens(t.value.content), 0);
      if a.Err? || b.Err? || |CanonicalText(MergeJson(a.value, b.value))| > MAX_CONFIG_BYTES then None
      else Canonicalize(lexer, CanonicalText(MergeJson(a.value, b.value)))
  }

  /** The engine as the store sees it; of the two formats only JSON is given here. */
  ghost function JsonEngine(lexer: Lexer): ConfigStore.Codec {
    ConfigStore.Codec((format: string, content: string) => if format == "json" then Canonicalize(lexer, content)
                      else None,
                      (format: string, source: string, target: string) =>
                        if format == "json" then MergeTexts(lexer, source, target) else None)
  }

  /** A good value within the limits is its own canonical document. */
  lemma CanonicalOfPrinted(lexer: Lexer, v: Json)
    requires LexerLaws(lexer) && Decodable(v)
    requires Fits(v, 0) && D.Readable(v) && |CanonicalText(v)| <= MAX_CONFIG_BYTES
    ensures Canonicalize(lexer, CanonicalText(v))
            == Some(ConfigStore.Document(CanonicalText(v), SortedList(D.ReferencesIn(v))))
    ensures Decode(lexer.tokens(CanonicalText(v)), 0) == Ok(v, [])
  {
    hide CanonicalText, D.Readable, Fits, D.ReferencesIn, SortedList, Decodable;
    CanonicalRoundTrip(v, []);
    assert CanonicalTokens(v) + [] == CanonicalTokens(v);
  }

  /** What canonicalisation accepts is good and within the limits. */
  lemma Canonicalized(lexer: Lexer, content: string) returns (v: Json)
    requires LexerLaws(lexer) && Canonicalize(lexer, content).Some?
    ensures Decode(lexer.tokens(content), 0) == Ok(v, [])
    ensures Decodable(v) && Fits(v, 0) && D.Readable(v) && |CanonicalText(v)| <= MAX_CONFIG_BYTES
    ensures Canonicalize(lexer, content) == Some(ConfigStore.Document(CanonicalText(v), SortedList(D.ReferencesIn(v))))
  {
    hide CanonicalText, D.Readable, Fits, D.ReferencesIn, SortedList, Decodable;
    var input := lexer.tokens(content);
    v := Decode(input, 0).value;
    DecodeGood(input, 0);
    DecodeExactly(input, v);
  }

  lemma CanonicalizeTwice(lexer: Lexer, content: string)
    requires LexerLaws(lexer) && Canonicalize(lexer, content).Some?
    ensures Canonicalize(lexer, Canonicalize(lexer, content).value.content) == Canonicalize(lexer, content)
  {
    hide CanonicalText, D.Readable, Fits, D.ReferencesIn, SortedList, Decodable, LexerLaws, Canonicalize;
    var v := Canonicalized(lexer, content);
    CanonicalOfPrinted(lexer, v);
  }

  /** The JSON engine keeps the laws: what is proved of stored JSON documents holds of it. */
  lemma JsonIsLawful(lexer: Lexer)
    requires LexerLaws(lexer)
    ensures FormatLaws(JsonEngine(lexer), "json")
  {
    hide LexerLaws, Canonicalize, CanonicalText;
    forall content ensures CanonicalFixed(JsonEngine(lexer), "json", content) {
      if Canonicalize(lexer, content).Some? {
        CanonicalizeTwice(lexer, content);
      }
    }
    forall source, target ensures MergeLaw(JsonEngine(lexer), "json", source, target) {
      if MergeTexts(lexer, source, target).Some? {
        var s, t := Canonicalize(lexer, source), Canonicalize(lexer, target);
        var a, b := Decode(lexer.tokens(s.value.content), 0), Decode(lexer.tokens(t.value.content), 0);
        CanonicalizeTwice(lexer, CanonicalText(MergeJson(a.value, b.value)));
      }
    }
  }

  /** On texts too, two accepted Configs merge exactly when the merge of their values fits, to its canonical text. */
  lemma MergesExactly(lexer: Lexer, source: string, target: string)
    requires LexerLaws(lexer)
    ensures MergeTexts(lexer, source, target).Some? <==>
            && Canonicalize(lexer, source).Some? && Canonicalize(lexer, target).Some?
            && var s, t := Decode(lexer.tokens(source), 0), Decode(lexer.tokens(target), 0);
               s.Ok? && t.Ok? && |CanonicalText(MergeJson(s.value, t.value))| <= MAX_CONFIG_BYTES
    ensures MergeTexts(lexer, source, target).Some? ==>
              var s, t := Decode(lexer.tokens(source), 0), Decode(lexer.tokens(target), 0);
              s.Ok? && t.Ok? && MergeTexts(lexer, source, target).value.content
                  == CanonicalText(MergeJson(s.value, t.value))
  {
    hide CanonicalText, D.Readable, Fits, D.ReferencesIn, SortedList, Decodable, LexerLaws, Decode, Canonicalize,
         MergeJson;
    if Canonicalize(lexer, source).Some? && Canonicalize(lexer, target).Some? {
      var s := Canonicalized(lexer, source);
      var t := Canonicalized(lexer, target);
      CanonicalOfPrinted(lexer, s);
      CanonicalOfPrinted(lexer, t);
      JsonMerge.MergeFits(s, t, 0);
      JsonMerge.MergeReadable(s, t);
      MergeGood(s, t);
      if |CanonicalText(MergeJson(s, t))| <= MAX_CONFIG_BYTES {
        CanonicalOfPrinted(lexer, MergeJson(s, t));
      }
    }
  }

  // ----- The laws of the lexer can be kept -----

  lemma {:induction false} OrderedGood(v: Json)
    requires Decodable(v)
    ensures GoodTokens(CanonicalTokens(v))
    decreases v, 1, 0
  {
    hide FlattenDocs, FlattenFields, OrderedItems, OrderedMembers, NumberLexeme, WellFormedText, Sorted;
    match v
    case JArray(_) =>
      OrderedItemsGood(v, 0);
      GoodBetween([BeginArray], FlattenDocs(OrderedItems(v, 0)), [EndArray]);
    case JObject(members) =>
      OrderedMembersGood(v, Sorted(members.Keys));
      GoodBetween([BeginObject], FlattenFields(OrderedMembers(v, Sorted(members.Keys))), [EndObject]);
    case _ =>
  }

  lemma GoodBetween(a: seq<Token>, b: seq<Token>, c: seq<Token>)
    requires GoodTokens(a) && GoodTokens(b) && GoodTokens(c)
    ensures GoodTokens(a + b + c)
  {
    hide GoodToken;
  }

  lemma {:induction false} OrderedItemsGood(v: Json, from: nat)
    requires v.JArray? && from <= |v.items| && Decodable(v)
    ensures GoodTokens(FlattenDocs(OrderedItems(v, from)))
    decreases v, 0, |v.items| - from
  {
    hide GoodToken;
    if from < |v.items| {
      OrderedGood(v.items[from]);
      OrderedItemsGood(v, from + 1);
    }
  }

  lemma {:induction false} OrderedMembersGood(v: Json, keys: seq<string>)
    requires v.JObject? && (forall k | k in keys :: k in v.members) && Decodable(v)
    ensures GoodTokens(FlattenFields(OrderedMembers(v, keys)))
    decreases v, 0, |keys|
  {
    hide NumberLexeme;
    if keys != [] {
      OrderedGood(v.members[keys[0]]);
      OrderedMembersGood(v, keys[1..]);
    }
  }

  ghost predicate PrintsTo(v: Json, text: string) {
    Decodable(v) && Fits(v, 0) && CanonicalText(v) == text
  }

  ghost function ReadPrinted(text: string): seq<Token> {
    if exists v :: PrintsTo(v, text) then
      var v :| PrintsTo(v, text);
      CanonicalTokens(v)
    else [Invalid]
  }

  /** A canonical text determines its value, so a lexer with these laws exists. */
  lemma LawfulLexer() returns (lexer: Lexer)
    ensures LexerLaws(lexer)
  {
    hide Decodable, Fits, CanonicalText, CanonicalTokens, GoodToken;
    lexer := Lexer(ReadPrinted);
    forall text ensures GoodTokens(lexer.tokens(text)) {
      if exists v :: PrintsTo(v, text) {
        var v :| PrintsTo(v, text) && ReadPrinted(text) == CanonicalTokens(v);
        OrderedGood(v);
      } else {
        InvalidIsGood();
      }
    }
    forall v | Decodable(v) && Fits(v, 0) ensures lexer.tokens(CanonicalText(v)) == CanonicalTokens(v) {
      assert PrintsTo(v, CanonicalText(v));
      var w :| PrintsTo(w, CanonicalText(v)) && ReadPrinted(CanonicalText(v)) == CanonicalTokens(w);
      CanonicalTextTells(v, w);
    }
  }

  lemma InvalidIsGood()
    ensures GoodTokens([Invalid])
  {
  }
}
