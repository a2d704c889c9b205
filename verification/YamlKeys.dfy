/** What resolution does to mapping keys. Keys are compared as they are written, but an alias that leads to
    a key makes the walk rewrite it, and the output shows the rewritten key. */
module YamlKeys {
  import opened Ordering
  import opened References
  import opened YamlGraph
  import opened YamlOrder
  import opened YamlWalk
  import opened YamlDocument

  /** The text a node shows after a successful resolution. */
  ghost function OutputText<N>(g: Graph<N>, root: N, plan: Plan, n: N): string
    requires n in g
  {
    Shown(g[n], plan, n in ReachableNodes(g, root)).text
  }

  ghost predicate IsKey<N>(g: Graph<N>, root: N, m: N, i: int, k: N) {
    m in g && ReachableMapping(g, root, m) && IsKeyIndex(g[m], i) && g[m].content[i] == k && k in g
  }

  /** Every key of every mapping that was walked shows the text it was written with. */
  ghost predicate KeysKept<N>(g: Graph<N>, root: N, plan: Plan) {
    forall m, i | m in g && 0 <= i < |g[m].content| && IsKey(g, root, m, i, g[m].content[i]) ::
      OutputText(g, root, plan, g[m].content[i]) == g[g[m].content[i]].text
  }

  /** An alias that is walked and leads to a mapping key. */
  ghost predicate AliasToKey<N>(g: Graph<N>, root: N, a: N, m: N, i: int) {
    a in g && Reachable(g, root, a) && g[a].kind == AliasKind && g[a].target.Some?
        && IsKey(g, root, m, i, g[a].target.value)
  }

  /** No alias leads to a key that resolution would rewrite. */
  ghost predicate AliasedKeysPlain<N>(g: Graph<N>, root: N, plan: Plan) {
    forall a, m, i | a in g && m in g && 0 <= i < |g[m].content| && AliasToKey(g, root, a, m, i) ::
      FinalText(g[g[m].content[i]], plan) == g[g[m].content[i]].text
  }

  // ----- The last step of a path -----

  ghost predicate Precedes<N>(g: Graph<N>, from: N, m: N, n: N) {
    m in g && Reachable(g, from, m) && n in Children(g[m])
  }

  lemma {:induction false} LastStep<N>(g: Graph<N>, from: N, steps: seq<nat>) returns (m: N)
    requires steps != [] && Follow(g, from, steps).Some?
    ensures Precedes(g, from, m, Follow(g, from, steps).value)
    decreases |steps|
  {
    var next := Children(g[from])[steps[0]];
    if |steps| == 1 {
      m := from;
      ReachableRoot(g, from);
    } else {
      m := LastStep(g, next, steps[1..]);
      var before :| Follow(g, next, before) == Some(m);
      assert ([steps[0]] + before)[1..] == before;
      assert Follow(g, from, [steps[0]] + before) == Some(m);
    }
  }

  /** In document order a key is walked only because an alias leads to it. */
  lemma KeyWalkedThroughAlias<N>(g: Graph<N>, root: N, at: map<N, Place>, m: N, i: nat) returns (a: N)
    requires DocumentOrder(g, root, at) && m in g && i < |g[m].content| && IsKey(g, root, m, i, g[m].content[i])
    requires Reachable(g, root, g[m].content[i])
    ensures AliasToKey(g, root, a, m, i)
  {
    var key := g[m].content[i];
    PartAt(g, root, at, m, i);
    var steps :| Follow(g, root, steps) == Some(key);
    assert steps != [];
    a := LastStep(g, root, steps);
    if g[a].kind != AliasKind {
      NotAChild(g, root, at, m, i, a);
    }
  }

  /** A key is no item and no value of any node. */
  lemma NotAChild<N>(g: Graph<N>, root: N, at: map<N, Place>, m: N, i: nat, p: N)
    requires DocumentOrder(g, root, at) && m in g && g[m].kind == MappingKind && IsKeyIndex(g[m], i)
    requires p in g && g[p].kind != AliasKind
    ensures g[m].content[i] !in Children(g[p])
  {
    hide DocumentOrder, Closed;
    if g[m].content[i] in Children(g[p]) {
      var c :| 0 <= c < |Children(g[p])| && Children(g[p])[c] == g[m].content[i];
      OnePlace(g, root, at, m, i, p, if g[p].kind == MappingKind then 2 * c + 1 else c);
      assert false;
    }
  }

  /** A node is part of one node only, once. */
  lemma OnePlace<N>(g: Graph<N>, root: N, at: map<N, Place>, m: N, i: nat, p: N, j: nat)
    requires DocumentOrder(g, root, at) && m in g && i < |g[m].content| && p in g && j < |g[p].content|
    requires g[m].content[i] == g[p].content[j]
    ensures m == p && i == j
  {
    PartAt(g, root, at, m, i);
    PartAt(g, root, at, p, j);
    LastSame(at[m], i, at[p], j);
  }

  /** Keys are kept exactly when no alias leads to one that resolution would rewrite, which can be seen before
      resolving. */
  lemma KeysKeptExactly<N>(g: Graph<N>, root: N, at: map<N, Place>, plan: Plan)
    requires Closed(g) && DocumentOrder(g, root, at)
    ensures KeysKept(g, root, plan) <==> AliasedKeysPlain(g, root, plan)
  {
    hide FinalText, DocumentOrder, Reachable, Closed;
    if AliasedKeysPlain(g, root, plan) {
      forall m, i | m in g && 0 <= i < |g[m].content| && IsKey(g, root, m, i, g[m].content[i])
        ensures OutputText(g, root, plan, g[m].content[i]) == g[g[m].content[i]].text
      {
        if Reachable(g, root, g[m].content[i]) {
          var a := KeyWalkedThroughAlias(g, root, at, m, i);
        }
      }
    }
    if KeysKept(g, root, plan) {
      forall a, m, i | a in g && m in g && 0 <= i < |g[m].content| && AliasToKey(g, root, a, m, i)
        ensures FinalText(g[g[m].content[i]], plan) == g[g[m].content[i]].text
      {
        TargetReachable(g, root, a);
        assert OutputText(g, root, plan, g[m].content[i]) == g[g[m].content[i]].text;
      }
    }
  }

  lemma TargetReachable<N>(g: Graph<N>, root: N, a: N)
    requires Closed(g) && a in g && Reachable(g, root, a) && g[a].kind == AliasKind && g[a].target.Some?
    ensures Reachable(g, root, g[a].target.value)
  {
    hide Follow;
    assert g[a].target.value in Children(g[a]);
    ReachableStep(g, root, a, g[a].target.value);
  }

  // ----- A key that becomes a duplicate -----

  /** The document
      ? &k "{{vault.a.b.c}}"
      : *k
      ? "{vault.a.b.c}"
      : 1
      for any reference in place of a.b.c. */
  function TwinKeys(r: Reference): Graph<nat> {
    map[0 := Shape(DocumentKind, "", "", [1], None),
        1 := Shape(MappingKind, "!!map", "", [2, 3, 4, 5], None),
        2 := Shape(ScalarKind, "!!str", EscapedText(r), [], None),
        3 := Shape(AliasKind, "", "k", [], Some(2)),
        4 := Shape(ScalarKind, "!!str", r.ToText(), [], None),
        5 := Shape(ScalarKind, "!!int", "1", [], None)]
  }

  function TwinPlaces(): map<nat, Place> {
    map[0 := [], 1 := [0], 2 := [0, 0], 3 := [0, 1], 4 := [0, 2], 5 := [0, 3]]
  }

  lemma TwinParts(r: Reference)
    ensures var g, at := TwinKeys(r), TwinPlaces();
            && at.Keys == g.Keys
            && (forall m, i: nat | m in g && i < |g[m].content| :: PartPlaced(g, at, m, i))
  {
    hide EscapedText, Reference.ToText;
    var g, at := TwinKeys(r), TwinPlaces();
    forall m, i: nat | m in g && i < |g[m].content| ensures PartPlaced(g, at, m, i) {
      if m == 0 {
        assert [] + [0] == [0];
      } else {
        assert m == 1 && [0] + [i] == [0, i];
      }
    }
  }

  lemma TwinClosed(r: Reference)
    ensures Closed(TwinKeys(r))
  {
    hide EscapedText, Reference.ToText;
  }

  lemma TwinParents(r: Reference)
    ensures forall n | n in TwinKeys(r) && n != 0 :: HasParent(TwinKeys(r), n)
  {
    hide EscapedText, Reference.ToText;
    var g := TwinKeys(r);
    assert IsPart(g, 0, 0, 1) && IsPart(g, 1, 0, 2) && IsPart(g, 1, 1, 3) && IsPart(g, 1, 2, 4) && IsPart(g, 1, 3, 5);
  }

  lemma FirstBefore()
    ensures Before([0], [1]) && [0] + [0] == [0, 0] && [0] + [1] == [0, 1]
  {
  }

  lemma TwinOrder(r: Reference)
    ensures Closed(TwinKeys(r)) && DocumentOrder(TwinKeys(r), 0, TwinPlaces())
  {
    hide EscapedText, Reference.ToText, HasParent, PartPlaced, Closed, Before;
    TwinParts(r);
    TwinClosed(r);
    TwinParents(r);
    assert Before([0, 0], [0, 1]) by {
      BeforeUnder([0], [0], [1]);
      FirstBefore();
    }
    assert TwinKeys(r)[1].content != [];
  }

  lemma TwinChildren(r: Reference)
    ensures var g := TwinKeys(r);
            && g.Keys == {0, 1, 2, 3, 4, 5} && Closed(g)
            && Children(g[0]) == [1] && Children(g[1]) == [3, 5] && Children(g[3]) == [2]
            && Children(g[2]) == [] && Children(g[5]) == []
  {
    hide EscapedText, Reference.ToText;
    assert TwinKeys(r)[1].content == [2, 3, 4, 5];
  }

  lemma TwinReached(r: Reference)
    ensures var g := TwinKeys(r);
            && ReachableNodes(g, 0) == {0, 1, 2, 3, 5} && forall n | n in ReachableNodes(g, 0) :: !OnCycle(g, n)
  {
    hide EscapedText, Reference.ToText, Follow, ChildrenFirst, NoRepeats, OnCycle;
    var g, order := TwinKeys(r), [2, 3, 5, 1, 0];
    TwinChildren(r);
    TwinPaths(g);
    TwinFinished(g, order);
    AllReached(g, 0, order);
    forall n | n in ReachableNodes(g, 0) ensures !OnCycle(g, n) {
      assert n in Elements(order);
      OrderedNodesAcyclic(g, order, n);
    }
    assert Elements(order) == {0, 1, 2, 3, 5};
  }

  lemma TwinFinished(g: Graph<nat>, order: seq<nat>)
    requires g.Keys == {0, 1, 2, 3, 4, 5} && order == [2, 3, 5, 1, 0]
    requires Children(g[0]) == [1] && Children(g[1]) == [3, 5] && Children(g[3]) == [2]
    requires Children(g[2]) == [] && Children(g[5]) == []
    ensures ChildrenFirst(g, order) && NoRepeats(order)
  {
    hide Children;
    assert order[..1] == [2] && order[..3] == [2, 3, 5] && order[..4] == [2, 3, 5, 1];
  }

  lemma TwinPaths(g: Graph<nat>)
    requires g.Keys == {0, 1, 2, 3, 4, 5} && Closed(g)
    requires Children(g[0]) == [1] && Children(g[1]) == [3, 5] && Children(g[3]) == [2]
    ensures Reachable(g, 0, 0) && Reachable(g, 0, 1) && Reachable(g, 0, 2) && Reachable(g, 0, 3) && Reachable(g, 0, 5)
  {
    hide Children, Reachable, Closed;
    ReachableRoot(g, 0);
    ReachableStep(g, 0, 0, 1);
    ReachableStep(g, 0, 1, 3);
    ReachableStep(g, 0, 1, 5);
    ReachableStep(g, 0, 3, 2);
  }

  lemma TwinDiffer(r: Reference)
    requires EscapedText(r) != r.ToText()
    ensures MayDiffer(TwinKeys(r), 0, Resolving(map[]), true, 2, 4)
  {
    hide EscapedText, Reference.ToText, Reachable;
    var g, plan := TwinKeys(r), Resolving(map[]);
    assert MayShow(g, 0, plan, true, 2, EscapedText(r)) && MayShow(g, 0, plan, true, 4, r.ToText());
  }

  lemma TwinScalars(r: Reference)
    requires ParseReference(EscapedText(r)) == Escaped(r)
    ensures var g, plan := TwinKeys(r), Resolving(map[]);
            Closed(g) ==> forall n | n in {0, 2, 3, 5} :: Sound(g, 0, plan, true, n)
  {
    hide ParseReference, EscapedText, Reference.ToText, Reachable, MayDiffer, Closed;
  }

  lemma TwinMapping(r: Reference)
    requires MayDiffer(TwinKeys(r), 0, Resolving(map[]), true, 2, 4)
    ensures var g, plan := TwinKeys(r), Resolving(map[]);
            Closed(g) ==> Sound(g, 0, plan, true, 1)
  {
    hide ParseReference, EscapedText, Reference.ToText, Reachable, MayDiffer, Closed;
    assert TwinKeys(r)[1].content == [2, 3, 4, 5];
  }

  lemma TwinSound(r: Reference)
    requires r.Valid()
    ensures var g, plan := TwinKeys(r), Resolving(map[]);
            && Closed(g) && EscapedText(r) != r.ToText()
            && (forall n | n in {0, 1, 2, 3, 5} :: Sound(g, 0, plan, true, n) && Charge(g[n], plan) == 0)
            && FinalText(g[2], plan) == r.ToText()
  {
    hide ParseReference, EscapedText, Reference.ToText, Reference.Valid, Reachable, MayDiffer, Sound, Closed;
    ParsePrinted(r);
    TwinDiffer(r);
    TwinChildren(r);
    TwinScalars(r);
    TwinMapping(r);
  }

  lemma {:induction false} NoCharge(charges: map<nat, nat>, nodes: set<nat>)
    requires nodes <= charges.Keys && forall n | n in nodes :: charges[n] == 0
    ensures Sum(charges, nodes) == 0
    decreases |nodes|
  {
    if nodes != {} {
      NoCharge(charges, nodes - {Pick(nodes)});
    }
  }

  /** The document is accepted and resolved, and afterwards its two keys show the same text. */
  lemma KeyBecomesDuplicate(r: Reference)
    requires r.Valid()
    ensures var g, plan := TwinKeys(r), Resolving(map[]);
            && Closed(g) && DocumentOrder(g, 0, TwinPlaces()) && Resolvable(g, 0, plan, true, 0)
            && IsKey(g, 0, 1, 0, 2) && IsKey(g, 0, 1, 2, 4) && g[2].text != g[4].text
            && OutputText(g, 0, plan, 2) == OutputText(g, 0, plan, 4)
  {
    hide Sound, Reachable, OnCycle, Closed, DocumentOrder, FinalText, Charge, EscapedText, Reference.ToText,
         Reference.Valid;
    TwinOrder(r);
    TwinReached(r);
    TwinSound(r);
    var g, plan := TwinKeys(r), Resolving(map[]);
    NoCharge(Charges(g, plan), ReachableNodes(g, 0));
    assert 1 in ReachableNodes(g, 0);
    assert g[1].content == [2, 3, 4, 5];
  }
}
