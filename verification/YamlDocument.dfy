/** Validating and resolving a whole YAML document. Models parseYAML of internal/configdoc/canonical.go and
    resolveYAML of internal/configdoc/resolve.go around the decoder and the encoder. */
module YamlDocument {
  import opened Ordering
  import opened References
  import opened YamlGraph
  import opened YamlOrder
  import opened YamlWalk

  // ----- The whole walk -----

  /** The documents a walk accepts: no reachable node lies on a cycle, all of them are sound, and
      the values looked up fit the budget, each reachable node charged once. In document order being sound
      means that mapping keys differ in their own texts. */
  ghost predicate Resolvable<N>(g: Graph<N>, root: N, plan: Plan, ordered: bool, budget: nat)
    requires Closed(g)
  {
    && (forall n | n in ReachableNodes(g, root) :: !OnCycle(g, n) && Sound(g, root, plan, ordered, n))
    && Sum(Charges(g, plan), ReachableNodes(g, root)) <= budget
  }

  /** No mapping key is rewritten through an alias that leads to it. */
  ghost predicate FixedKeys<N>(g: Graph<N>, root: N, plan: Plan) {
    forall n, k | n in g && ReachableMapping(g, root, n) && k in g[n].content && k in g && Reachable(g, root, k) ::
      FinalText(g[k], plan) == g[k].text
  }

  lemma AllReached<N>(g: Graph<N>, root: N, finished: seq<N>)
    requires Closed(g) && ChildrenFirst(g, finished) && root in finished
    requires forall n | n in finished :: n in g && Reachable(g, root, n)
    ensures Elements(finished) == ReachableNodes(g, root)
  {
    hide Follow, Children;
    forall n, c | n in Elements(finished) && n in g && c in Children(g[n]) ensures c in Elements(finished) {
      var i :| 0 <= i < |finished| && finished[i] == n;
      assert c in finished[..i];
    }
    forall n | n in ReachableNodes(g, root) ensures n in Elements(finished) {
      var steps :| Follow(g, root, steps) == Some(n);
      ClosedSetHolds(g, Elements(finished), root, steps);
    }
  }

  lemma Complete<N>(g: Graph<N>, root: N, plan: Plan, ordered: bool, budget: nat, p: Progress<N>)
    requires Consistent(g, root, plan, ordered, budget, p) && p.stack == [] && root in p.finished
    ensures Elements(p.finished) == ReachableNodes(g, root) && Resolvable(g, root, plan, ordered, budget)
  {
    hide Reachable, Sound, OnCycle, ChildrenFirst, Children;
    InElements(p.finished);
    AllReached(g, root, p.finished);
    forall n | n in ReachableNodes(g, root) ensures !OnCycle(g, n) {
      OrderedNodesAcyclic(g, p.finished, n);
    }
  }

  /** A key that no alias rewrites shows its own text only. */
  lemma FixedKeysShow<N>(g: Graph<N>, root: N, plan: Plan, ordered: bool, n: N, i: nat)
    requires (ordered || FixedKeys(g, root, plan)) && ReachableMapping(g, root, n) && IsKeyIndex(g[n], i)
    requires g[n].content[i] in g
    ensures forall text :: MayShow(g, root, plan, ordered, g[n].content[i], text) ==> text == g[g[n].content[i]].text
  {
    hide Reachable, FinalText;
  }

  lemma ClashRefutes<N>(g: Graph<N>, root: N, plan: Plan, ordered: bool, n: N, i: nat, j: nat)
    requires Closed(g) && (ordered || FixedKeys(g, root, plan)) && n in g
    requires ClashingKeys(g, root, plan, ordered, n, i, j)
    ensures !Sound(g, root, plan, ordered, n)
  {
    hide Reachable, FixedKeys, MayShow, Closed;
    KeysInGraph(g, n);
    FixedKeysShow(g, root, plan, ordered, n, i);
    FixedKeysShow(g, root, plan, ordered, n, j);
    assert !MayDiffer(g, root, plan, ordered, g[n].content[i], g[n].content[j]);
  }

  /** Every cause is one for which no walk could have succeeded. */
  lemma CauseRefutes<N>(g: Graph<N>, root: N, plan: Plan, ordered: bool, budget: nat, error: Error)
    requires Closed(g) && (ordered || FixedKeys(g, root, plan)) && Cause(g, root, plan, ordered, budget, error)
    ensures !Resolvable(g, root, plan, ordered, budget)
  {
    hide Reachable, OnCycle, RewriteText, FixedKeys, MayShow, Closed;
    match error
    case TooLarge =>
    case AliasCycle =>
      var n :| n in g && Reachable(g, root, n) && OnCycle(g, n);
      assert n in ReachableNodes(g, root);
    case OddMapping =>
      var n :| n in g && ReachableMapping(g, root, n) && |g[n].content| % 2 != 0;
      assert n in ReachableNodes(g, root) && !Sound(g, root, plan, ordered, n);
    case NonScalarKey =>
      var n: N, i: nat :| n in g && BadKey(g, root, n, i);
      assert n in ReachableNodes(g, root) && !Sound(g, root, plan, ordered, n);
    case DuplicateKey =>
      var n: N, i: nat, j: nat :| n in g && ClashingKeys(g, root, plan, ordered, n, i, j);
      ClashRefutes(g, root, plan, ordered, n, i, j);
      assert n in ReachableNodes(g, root);
    case _ =>
      var n :| n in g && Reachable(g, root, n) && IsText(g[n]) && RewriteText(g[n].text, plan) == Refused(error);
      assert n in ReachableNodes(g, root) && !Sound(g, root, plan, ordered, n);
  }

  lemma KeysInGraph<N>(g: Graph<N>, n: N)
    requires Closed(g) && n in g
    ensures forall k | k in g[n].content :: k in g
  {
  }

  /** In document order, keys clash exactly when their own texts are equal. */
  lemma OwnTextsCompared<N>(g: Graph<N>, root: N, plan: Plan, k: N, l: N)
    requires k in g && l in g
    ensures MayClash(g, root, plan, true, k, l) <==> g[k].text == g[l].text
    ensures MayDiffer(g, root, plan, true, k, l) <==> g[k].text != g[l].text
  {
    hide Reachable, FinalText;
    assert MayShow(g, root, plan, true, k, g[k].text) && MayShow(g, root, plan, true, l, g[l].text);
  }

  // ----- The same by how texts are spelled -----

  /** Keys and values in turn, the keys scalars with different texts. */
  ghost predicate DistinctKeys<N>(g: Graph<N>, s: Shape<N>) {
    && |s.content| % 2 == 0
    && (forall i | IsKeyIndex(s, i) :: s.content[i] in g && g[s.content[i]].kind == ScalarKind)
    && (forall i, j | IsKeyIndex(s, i) && IsKeyIndex(s, j) && i < j ::
          g[s.content[i]].text != g[s.content[j]].text)
  }

  /** Wherever a walk comes there is no cycle, no misspelt reference and no mapping with a repeated key. */
  ghost predicate WellFormed<N>(g: Graph<N>, root: N) {
    forall n | n in g && Reachable(g, root, n) ::
      !OnCycle(g, n) && !Misspelt(g[n]) && (g[n].kind == MappingKind ==> DistinctKeys(g, g[n]))
  }

  /** Every reference that a reachable string prints has a value. */
  ghost predicate AllValued<N>(g: Graph<N>, root: N, values: Values) {
    forall n, r | n in g && Reachable(g, root, n) && Spells(g[n], r) :: r in values
  }

  /** The length of the value that a node asks for. */
  ghost function ValueLength<N>(s: Shape<N>, values: Values): nat {
    if exists r :: Spells(s, r) && r in values then
      var r :| Spells(s, r) && r in values;
      |values[r]|
    else 0
  }

  ghost function ValueLengths<N>(g: Graph<N>, values: Values): map<N, nat> {
    map n | n in g :: ValueLength(g[n], values)
  }

  lemma KeysCompared<N>(g: Graph<N>, root: N, plan: Plan, n: N)
    requires Closed(g) && n in g
    ensures Sound(g, root, plan, true, n) <==>
            && (g[n].kind == MappingKind ==> DistinctKeys(g, g[n]))
            && (IsText(g[n]) ==> RewriteText(g[n].text, plan).Rewritten?)
  {
    hide MayDiffer, MayClash, RewriteText, Closed, IsText;
    KeysInGraph(g, n);
    forall k, l | k in g[n].content && l in g[n].content
      ensures MayDiffer(g, root, plan, true, k, l) <==> g[k].text != g[l].text
    {
      OwnTextsCompared(g, root, plan, k, l);
    }
  }

  lemma LengthsAreCharges<N>(g: Graph<N>, values: Values)
    ensures ValueLengths(g, values) == Charges(g, Resolving(values))
  {
    hide Charge, Spells;
    forall n | n in g ensures ValueLength(g[n], values) == Charge(g[n], Resolving(values)) {
      ChargedForValue(g[n], values);
    }
  }

  /** The documents a validation accepts are the well-formed ones. */
  lemma ValidExactly<N>(g: Graph<N>, root: N)
    requires Closed(g)
    ensures Resolvable(g, root, Validating, true, 0) <==> WellFormed(g, root)
  {
    hide Reachable, OnCycle, Sound, Closed, Misspelt, DistinctKeys, Charges, RewriteText, IsText;
    NoCharges(g, ReachableNodes(g, root));
    forall n | n in ReachableNodes(g, root)
      ensures Sound(g, root, Validating, true, n) <==>
              !Misspelt(g[n]) && (g[n].kind == MappingKind ==> DistinctKeys(g, g[n]))
    {
      KeysCompared(g, root, Validating, n);
      NotText(g[n]);
      if IsText(g[n]) {
        RefusedExactly(g[n], map[]);
      }
    }
  }

  lemma NotText<N>(s: Shape<N>)
    ensures !IsText(s) ==> !Misspelt(s) && forall r :: !Spells(s, r) && !SpellsEscape(s, r)
  {
  }

  /** In document order a document resolves exactly when it is well formed, every reference in it has a value
      and the values it asks for fit, those of a shared node counted once. */
  lemma ResolvableExactly<N>(g: Graph<N>, root: N, values: Values, budget: nat)
    requires Closed(g)
    ensures Resolvable(g, root, Resolving(values), true, budget) <==>
            && WellFormed(g, root) && AllValued(g, root, values)
            && Sum(ValueLengths(g, values), ReachableNodes(g, root)) <= budget
  {
    hide Reachable, OnCycle, Closed, Spells, Charges, ValueLengths, Resolvable, WellFormed, ReferencesOf;
    ValidatedResolves(g, root, values, budget);
    ValidExactly(g, root);
    LengthsAreCharges(g, values);
    forall r: Reference | true
      ensures r in YamlReferences(g, root) <==> exists n :: n in g && Reachable(g, root, n) && Spells(g[n], r)
    {
      ReferencesSpelled(g, root, r);
    }
  }

  /** Of a text that is refused: it is misspelt, or prints a reference without a value. */
  lemma TextCauses<N>(g: Graph<N>, root: N, values: Values, ordered: bool, budget: nat)
    ensures Cause(g, root, Resolving(values), ordered, budget, BadReference) <==>
            exists n :: n in g && Reachable(g, root, n) && Misspelt(g[n])
    ensures Cause(g, root, Resolving(values), ordered, budget, Unresolved) <==> !AllValued(g, root, values)
  {
    hide Reachable, RewriteText, IsText, Misspelt, Spells;
    forall n | n in g
      ensures IsText(g[n]) && RewriteText(g[n].text, Resolving(values)) == Refused(BadReference) <==> Misspelt(g[n])
      ensures IsText(g[n]) && RewriteText(g[n].text, Resolving(values)) == Refused(Unresolved) <==>
              exists r :: Spells(g[n], r) && r !in values
    {
      NotText(g[n]);
      if IsText(g[n]) {
        RefusedExactly(g[n], values);
      }
    }
  }

  // ----- Validation -----

  lemma ValidatingShows<N>(g: Graph<N>, root: N, ordered: bool, key: N, text: string)
    ensures MayShow(g, root, Validating, ordered, key, text) <==> MayShow(g, root, Validating, true, key, text)
  {
    hide Reachable, ParseReference;
  }

  lemma ValidatingDiffers<N>(g: Graph<N>, root: N, ordered: bool, k: N, l: N)
    ensures MayDiffer(g, root, Validating, ordered, k, l) <==> MayDiffer(g, root, Validating, true, k, l)
    ensures MayClash(g, root, Validating, ordered, k, l) <==> MayClash(g, root, Validating, true, k, l)
  {
    hide MayShow;
    forall key, text | key == k || key == l
      ensures MayShow(g, root, Validating, ordered, key, text) <==> MayShow(g, root, Validating, true, key, text)
    {
      ValidatingShows(g, root, ordered, key, text);
    }
  }

  lemma ValidatingSound<N>(g: Graph<N>, root: N, ordered: bool, n: N)
    requires Closed(g) && n in g
    ensures Sound(g, root, Validating, ordered, n) <==> Sound(g, root, Validating, true, n)
  {
    hide MayDiffer, MayClash, ParseReference, Closed;
    KeysInGraph(g, n);
    forall k, l | k in g[n].content && l in g[n].content
      ensures MayDiffer(g, root, Validating, ordered, k, l) <==> MayDiffer(g, root, Validating, true, k, l)
    {
      ValidatingDiffers(g, root, ordered, k, l);
    }
  }

  /** A validation writes nothing, so keys always show their own texts. */
  lemma ValidatingKeepsTexts<N>(g: Graph<N>, root: N, ordered: bool)
    requires Closed(g)
    ensures FixedKeys(g, root, Validating)
    ensures Resolvable(g, root, Validating, ordered, 0) <==> Resolvable(g, root, Validating, true, 0)
  {
    hide Reachable, OnCycle, Sound, ParseReference, Closed;
    forall n | n in g ensures Sound(g, root, Validating, ordered, n) <==> Sound(g, root, Validating, true, n) {
      ValidatingSound(g, root, ordered, n);
    }
  }

  lemma ValidatingCause<N>(g: Graph<N>, root: N, ordered: bool, error: Error)
    requires Cause(g, root, Validating, ordered, 0, error)
    ensures Cause(g, root, Validating, true, 0, error)
  {
    hide MayClash, Reachable, OnCycle, ParseReference, Charges;
    if error == DuplicateKey {
      var n: N, i: nat, j: nat :| n in g && ClashingKeys(g, root, Validating, ordered, n, i, j);
      ValidatingDiffers(g, root, ordered, g[n].content[i], g[n].content[j]);
      assert ClashingKeys(g, root, Validating, true, n, i, j);
    }
  }

  // ----- References decide the result -----

  ghost predicate AgreeOn(references: set<Reference>, v: Values, w: Values) {
    forall r | r in references :: (r in v <==> r in w) && (r in v ==> v[r] == w[r])
  }

  lemma AgreeingText<N>(g: Graph<N>, nodes: set<N>, v: Values, w: Values, n: N)
    requires n in nodes && n in g && AgreeOn(ReferencesOf(g, nodes), v, w)
    ensures IsText(g[n]) ==> RewriteText(g[n].text, Resolving(v)) == RewriteText(g[n].text, Resolving(w))
    ensures FinalText(g[n], Resolving(v)) == FinalText(g[n], Resolving(w))
    ensures Charge(g[n], Resolving(v)) == Charge(g[n], Resolving(w))
  {
    hide ParseReference;
    assert LookupOf(g[n]).Some? ==> LookupOf(g[n]).value in ReferencesOf(g, nodes);
  }

  lemma AgreeingKeys<N>(g: Graph<N>, root: N, ordered: bool, v: Values, w: Values, k: N, l: N)
    requires AgreeOn(YamlReferences(g, root), v, w)
    requires MayDiffer(g, root, Resolving(v), ordered, k, l)
    ensures MayDiffer(g, root, Resolving(w), ordered, k, l)
  {
    hide FinalText, Reachable, ReferencesOf;
    forall key, text | MayShow(g, root, Resolving(v), ordered, key, text)
      ensures MayShow(g, root, Resolving(w), ordered, key, text)
    {
      if Reachable(g, root, key) {
        AgreeingText(g, ReachableNodes(g, root), v, w, key);
      }
    }
  }

  lemma AgreeingSound<N>(g: Graph<N>, root: N, ordered: bool, v: Values, w: Values, n: N)
    requires Closed(g) && n in ReachableNodes(g, root) && AgreeOn(YamlReferences(g, root), v, w)
    requires Sound(g, root, Resolving(v), ordered, n)
    ensures Sound(g, root, Resolving(w), ordered, n)
  {
    hide MayDiffer, Reachable, ReferencesOf, RewriteText, Closed, AgreeOn;
    KeysInGraph(g, n);
    AgreeingText(g, ReachableNodes(g, root), v, w, n);
    forall i, j | IsKeyIndex(g[n], i) && IsKeyIndex(g[n], j) && i < j && g[n].kind == MappingKind
      ensures MayDiffer(g, root, Resolving(w), ordered, g[n].content[i], g[n].content[j])
    {
      AgreeingKeys(g, root, ordered, v, w, g[n].content[i], g[n].content[j]);
    }
  }

  lemma {:induction false} SameSum<K>(a: map<K, nat>, b: map<K, nat>, keys: set<K>)
    requires keys <= a.Keys && keys <= b.Keys && forall k | k in keys :: a[k] == b[k]
    ensures Sum(a, keys) == Sum(b, keys)
    decreases |keys|
  {
    if keys != {} {
      SameSum(a, b, keys - {Pick(keys)});
    }
  }

  /** Only the values of the document's references matter: lookups that agree on them resolve the same
      documents, to the same texts, at the same charge. */
  lemma AgreeingLookups<N>(g: Graph<N>, root: N, ordered: bool, v: Values, w: Values, budget: nat)
    requires Closed(g) && AgreeOn(YamlReferences(g, root), v, w)
    ensures forall n | n in g ::
              Shown(g[n], Resolving(v), n in ReachableNodes(g, root))
              == Shown(g[n], Resolving(w), n in ReachableNodes(g, root))
    ensures Sum(Charges(g, Resolving(v)), ReachableNodes(g, root))
            == Sum(Charges(g, Resolving(w)), ReachableNodes(g, root))
    ensures Resolvable(g, root, Resolving(v), ordered, budget) <==> Resolvable(g, root, Resolving(w), ordered, budget)
  {
    hide Reachable, Sound, FinalText, Charge, OnCycle, ReferencesOf;
    forall n | n in ReachableNodes(g, root)
      ensures FinalText(g[n], Resolving(v)) == FinalText(g[n], Resolving(w))
      ensures Charge(g[n], Resolving(v)) == Charge(g[n], Resolving(w))
      ensures Sound(g, root, Resolving(v), ordered, n) <==> Sound(g, root, Resolving(w), ordered, n)
    {
      AgreeingText(g, ReachableNodes(g, root), v, w, n);
      if Sound(g, root, Resolving(v), ordered, n) {
        AgreeingSound(g, root, ordered, v, w, n);
      }
      if Sound(g, root, Resolving(w), ordered, n) {
        AgreeingSound(g, root, ordered, w, v, n);
      }
    }
    SameSum(Charges(g, Resolving(v)), Charges(g, Resolving(w)), ReachableNodes(g, root));
  }

  lemma SoundParts<N>(g: Graph<N>, root: N, values: Values, n: N)
    requires Closed(g) && n in g
    ensures Sound(g, root, Resolving(values), true, n) <==>
            Sound(g, root, Validating, true, n) && (LookupOf(g[n]).Some? ==> LookupOf(g[n]).value in values)
  {
    hide Reachable, Closed, ParseReference;
    KeysInGraph(g, n);
    assert forall k, t :: MayShow(g, root, Resolving(values), true, k, t) <==> MayShow(g, root, Validating, true, k, t);
  }

  /** A validated document resolves exactly when every reference recorded for it has a value and all values
      together fit. */
  lemma ValidatedResolves<N>(g: Graph<N>, root: N, values: Values, budget: nat)
    requires Closed(g)
    ensures Resolvable(g, root, Resolving(values), true, budget) <==>
            && Resolvable(g, root, Validating, true, 0)
            && YamlReferences(g, root) <= values.Keys
            && Sum(Charges(g, Resolving(values)), ReachableNodes(g, root)) <= budget
  {
    hide Reachable, OnCycle, Sound, Closed, Charge, LookupOf;
    forall n | n in ReachableNodes(g, root)
      ensures Sound(g, root, Resolving(values), true, n) <==>
              Sound(g, root, Validating, true, n) && (LookupOf(g[n]).Some? ==> LookupOf(g[n]).value in values)
    {
      SoundParts(g, root, values, n);
    }
    NoCharges(g, ReachableNodes(g, root));
    forall n | n in ReachableNodes(g, root) && LookupOf(g[n]).Some?
      ensures LookupOf(g[n]).value in YamlReferences(g, root)
    {
    }
  }

  lemma {:induction false} NoCharges<N>(g: Graph<N>, nodes: set<N>)
    requires nodes <= g.Keys
    ensures Sum(Charges(g, Validating), nodes) == 0
    decreases |nodes|
  {
    hide ParseReference;
    if nodes != {} {
      NoCharges(g, nodes - {Pick(nodes)});
    }
  }

  /** What a finished walk leaves behind. */
  lemma WalkDone(walk: Walk)
    requires walk.Valid() && walk.stack == [] && walk.root in walk.finished
    ensures Closed(walk.g) && Resolvable(walk.g, walk.root, walk.plan, walk.ordered, walk.budget)
    ensures forall n | n in walk.g :: n.ShapeOf() == Shown(walk.g[n], walk.plan, n in ReachableNodes(walk.g, walk.root))
    ensures walk.plan.Validating? ==> walk.references == YamlReferences(walk.g, walk.root)
  {
    hide Consistent, Resolvable, ReferencesOf, Shown, Reachable;
    WalkClosed(walk.g, walk.root, walk.plan, walk.ordered, walk.budget, walk.Now());
    Complete(walk.g, walk.root, walk.plan, walk.ordered, walk.budget, walk.Now());
    InElements(walk.finished);
    assert forall n :: n in walk.finished <==> n in ReachableNodes(walk.g, walk.root);
  }

  lemma WalkClosed<N>(g: Graph<N>, root: N, plan: Plan, ordered: bool, budget: nat, p: Progress<N>)
    requires Consistent(g, root, plan, ordered, budget, p)
    ensures Closed(g)
  {
    hide Coloured, OnPath, Sound, Closed;
  }

  /** The node is as it was, except that a reachable string that prints a reference holds the value of it, and
      one that prints an escaped reference holds the reference. */
  ghost predicate NodeResolved(s: Shape<YamlNode>, n: YamlNode, values: Values, reachable: bool)
    reads n
  {
    && n.ShapeOf() == s.(text := n.value)
    && if reachable then Substituted(s, values, n.value) else n.value == s.text
  }

  lemma ShownResolved(g: Graph<YamlNode>, root: YamlNode, values: Values, ordered: bool, budget: nat, n: YamlNode)
    requires Closed(g) && Resolvable(g, root, Resolving(values), ordered, budget) && n in g
    requires n.ShapeOf() == Shown(g[n], Resolving(values), n in ReachableNodes(g, root))
    ensures NodeResolved(g[n], n, values, Reachable(g, root, n))
  {
    hide Reachable, Closed, OnCycle, Substituted, MayDiffer, FinalText, RewriteText;
    if Reachable(g, root, n) {
      SubstitutedOnce(g[n], values);
    }
  }

  /** Resolve on a YAML document whose nodes are among `nodes`: it terminates on every graph, and on success
      every reachable string that prints a reference holds its value, every reachable escaped reference is
      unescaped, and nothing else has changed. When `at` is their document order, which every parser produces,
      it succeeds exactly on the well-formed documents whose references have values that fit; on any other graph
      at least when no key is rewritten. */
  method ResolveYaml(root: YamlNode, values: Values, budget: nat, ghost nodes: set<YamlNode>,
                     ghost at: map<YamlNode, Place>)
    returns (r: Option<Error>)
    requires root in nodes && Closed(Shapes(nodes))
    modifies nodes`value
    ensures var g, plan := old(Shapes(nodes)), Resolving(values);
            var ordered := DocumentOrder(g, root, at);
            && (r.None? ==> Resolvable(g, root, plan, ordered, budget))
            && (r.None? ==> forall n | n in nodes :: n.ShapeOf() == Shown(g[n], plan, n in ReachableNodes(g, root)))
            && (r.Some? ==> Cause(g, root, plan, ordered, budget, r.value))
            && (ordered || FixedKeys(g, root, plan) ==> (r.None? <==> Resolvable(g, root, plan, ordered, budget)))
    ensures var g := old(Shapes(nodes));
            && (r.None? ==> forall n | n in nodes :: NodeResolved(g[n], n, values, Reachable(g, root, n)))
            && (DocumentOrder(g, root, at) ==>
                  (r.None? <==>
                   && WellFormed(g, root) && AllValued(g, root, values)
                   && Sum(ValueLengths(g, values), ReachableNodes(g, root)) <= budget))
  {
    hide Resolvable, Cause, FixedKeys, Closed, Reachable, Shown, DocumentOrder, Walk.Valid, Walk.InPlace,
         NodeResolved, WellFormed, AllValued, ValueLengths, ReachableNodes;
    var walk := new Walk(root, Resolving(values), budget, nodes, at);
    r := walk.ResolveNode(root, true);
    ResolvableExactly(walk.g, root, values, budget);
    if r.None? {
      WalkDone(walk);
      forall n | n in nodes ensures NodeResolved(walk.g[n], n, values, Reachable(walk.g, root, n)) {
        ShownResolved(walk.g, root, values, walk.ordered, budget, n);
      }
    } else if walk.ordered || FixedKeys(walk.g, root, walk.plan) {
      CauseRefutes(walk.g, root, walk.plan, walk.ordered, budget, r.value);
    }
  }

  lemma SameShapes(nodes: set<YamlNode>, g: Graph<YamlNode>)
    requires g.Keys == nodes && forall n | n in g :: n.ShapeOf() == g[n]
    ensures Shapes(nodes) == g
  {
  }

  lemma NothingWritten<N>(g: Graph<N>, nodes: set<N>)
    ensures forall n | n in g :: Shown(g[n], Validating, n in nodes) == g[n]
  {
    hide ParseReference;
  }

  /** validateYAMLNode on a whole document: it succeeds exactly when no reachable node lies on a cycle, all
      mappings have distinct scalar keys and no string is a malformed reference; it writes nothing, and
      collects exactly the references of the document. */
  method ValidateYaml(root: YamlNode, ghost nodes: set<YamlNode>) returns (r: Option<Error>, references: set<Reference>)
    requires root in nodes && Closed(Shapes(nodes))
    modifies nodes`value
    ensures var g := old(Shapes(nodes));
            && (r.None? <==> Resolvable(g, root, Validating, true, 0))
            && (r.None? <==> WellFormed(g, root))
            && (r.None? ==> references == YamlReferences(g, root) && Shapes(nodes) == g)
            && (r.Some? ==> Cause(g, root, Validating, true, 0, r.value))
  {
    hide Resolvable, Cause, FixedKeys, Closed, Reachable, ReferencesOf, Shown, Walk.Valid, Walk.InPlace, DocumentOrder,
         WellFormed;
    var walk := new Walk(root, Validating, 0, nodes, map[]);
    r := walk.ResolveNode(root, true);
    references := walk.references;
    ValidExactly(walk.g, root);
    ValidatingKeepsTexts(walk.g, root, walk.ordered);
    if r.None? {
      WalkDone(walk);
      NothingWritten(walk.g, ReachableNodes(walk.g, root));
      SameShapes(nodes, walk.g);
    } else {
      CauseRefutes(walk.g, root, Validating, walk.ordered, 0, r.value);
      ValidatingCause(walk.g, root, walk.ordered, r.value);
    }
  }
}
