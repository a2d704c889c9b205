/** Merging two JSON Configs end to end, and the laws the mutation protocol relies on. Models Merge of
    internal/configdoc/merge.go for JSON. */
module JsonMerge {
  import opened References
  import opened Json
  import opened JsonDocument
  import opened Merge
  import JsonDecoder

  lemma {:induction false} MergeFits(source: Json, target: Json, depth: nat)
    requires JsonDecoder.Fits(source, depth) && JsonDecoder.Fits(target, depth)
    ensures JsonDecoder.Fits(MergeJson(source, target), depth)
    decreases source
  {
    if source.JObject? && target.JObject? {
      forall k | k in source.members && k in target.members
        ensures JsonDecoder.Fits(MergeJson(source.members[k], target.members[k]), depth + 1)
      {
        MergeFits(source.members[k], target.members[k], depth + 1);
      }
    }
  }

  lemma {:induction false} MergeReadable(source: Json, target: Json)
    requires Readable(source) && Readable(target)
    ensures Readable(MergeJson(source, target))
    decreases source
  {
    if source.JObject? && target.JObject? {
      forall k | k in source.members && k in target.members
        ensures Readable(MergeJson(source.members[k], target.members[k]))
      {
        MergeReadable(source.members[k], target.members[k]);
      }
    }
  }

  /** A merge introduces no reference that neither side had. */
  lemma {:induction false} MergeReferences(source: Json, target: Json)
    ensures ReferencesIn(MergeJson(source, target)) <= ReferencesIn(source) + ReferencesIn(target)
    decreases source
  {
    if source.JObject? && target.JObject? {
      var merged := MergeJson(source, target);
      forall r | r in ReferencesIn(merged) ensures r in ReferencesIn(source) + ReferencesIn(target) {
        var k :| k in merged.members && r in ReferencesIn(merged.members[k]);
        if k in source.members && k in target.members {
          MergeReferences(source.members[k], target.members[k]);
        }
      }
    }
  }

  /** A document that canonicalises has a canonical spelling that does too. */
  lemma CanonicalSpelling(v: Json)
    requires JsonDecoder.Fits(v, 0) && Readable(v) && |CanonicalText(v)| <= MAX_CONFIG_BYTES
    ensures forall w :: Canonicalizes(JsonDecoder.CanonicalTokens(v), w) <==> w == v
  {
    JsonDecoder.CanonicalRoundTrip(v, []);
    assert JsonDecoder.CanonicalTokens(v) + [] == JsonDecoder.CanonicalTokens(v);
  }

  lemma CanonicalValue(input: seq<JsonDecoder.Token>, v: Json)
    requires Canonicalizes(input, v)
    ensures JsonDecoder.Fits(v, 0) && Readable(v) && forall w :: Canonicalizes(input, w) <==> w == v
  {
    JsonDecoder.DecodeExactly(input, v);
  }

  ghost predicate Merges(source: seq<JsonDecoder.Token>, target: seq<JsonDecoder.Token>, s: Json, t: Json) {
    Canonicalizes(source, s) && Canonicalizes(target, t) && |CanonicalText(MergeJson(s, t))| <= MAX_CONFIG_BYTES
  }

  /** Merge: two accepted Configs merge exactly when the result fits in 5 MiB, and the result is again an
      accepted Config whose recorded references come from the two sides. Reading back a canonical
      document is the identity (CanonicalRoundTrip), so the values are merged directly. */
  method MergeDocuments(source: seq<JsonDecoder.Token>, target: seq<JsonDecoder.Token>)
    returns (ok: bool, merged: Json, references: set<Reference>)
    ensures ok <==> exists s, t :: Merges(source, target, s, t)
    ensures ok ==> exists s, t :: Merges(source, target, s, t) && merged == MergeJson(s, t)
                                 && references <= ReferencesIn(s) + ReferencesIn(t)
    ensures ok ==> Canonicalizes(JsonDecoder.CanonicalTokens(merged), merged) && references == ReferencesIn(merged)
  {
    hide Canonicalizes, CanonicalText, Readable, ReferencesIn, JsonDecoder.Fits;
    merged, references := JNull, {};
    var fine, s, _ := CanonicalizeJson(source);
    if !fine {
      return false, merged, references;
    }
    CanonicalValue(source, s);
    var sound, t, _ := CanonicalizeJson(target);
    if !sound {
      return false, merged, references;
    }
    CanonicalValue(target, t);
    merged := MergeJsonValue(s, t);
    MergeFits(s, t, 0);
    MergeReadable(s, t);
    MergeReferences(s, t);
    ghost var content;
    ok, content := EncodeJson(merged);
    if !ok {
      assert forall x, y | Merges(source, target, x, y) :: x == s && y == t;
      return;
    }
    assert Merges(source, target, s, t);
    CanonicalSpelling(merged);
    ok, references := FindJsonReferences(merged, {});
  }

  /** Merging from the canonical source is merging from any of its spellings, as a preview does. */
  lemma MergeOfCanonicalSource(source: seq<JsonDecoder.Token>, target: seq<JsonDecoder.Token>, s: Json, t: Json)
    requires Canonicalizes(source, s)
    ensures Merges(source, target, s, t) <==> Merges(JsonDecoder.CanonicalTokens(s), target, s, t)
  {
    hide CanonicalText, Readable;
    CanonicalizeIdempotent(source, s);
  }
}
