/** YAML node graphs as values: aliases may share nodes and close cycles (section 3.2.2.2 of
    YAML 1.2.2). `Shape` is one node as parsed; the walk over the heap is in YamlWalk. */
module YamlGraph {
  import opened Ordering
  import opened References

  datatype Kind = DocumentKind | SequenceKind | MappingKind | ScalarKind | AliasKind

  /** One node: mapping content alternates keys and values, an alias may point anywhere. */
  datatype Shape<N> = Shape(kind: Kind, tag: string, text: string, content: seq<N>, target: Option<N>)

  type Graph<N> = map<N, Shape<N>>
  type Values = map<Reference, string>

  datatype Error = AliasCycle | OddMapping | NonScalarKey | DuplicateKey | BadReference | Unresolved | TooLarge

  /** The nodes a walk visits from a node: items, mapping values and alias targets, not keys. */
  function Children<N>(s: Shape<N>): seq<N> {
    match s.kind
    case DocumentKind => s.content
    case SequenceKind => s.content
    case MappingKind => seq(|s.content| / 2, i requires 0 <= i < |s.content| / 2 => s.content[2 * i + 1])
    case ScalarKind => []
    case AliasKind => if s.target.Some? then [s.target.value] else []
  }

  predicate Closed<N>(g: Graph<N>) {
    forall n | n in g ::
      && (forall c | c in g[n].content :: c in g)
      && (g[n].target.Some? ==> g[n].target.value in g)
  }

  lemma ChildrenClosed<N>(g: Graph<N>, n: N, c: N)
    requires Closed(g) && n in g && c in Children(g[n])
    ensures c in g
  {
  }

  /** A string scalar, the only thing a walk rewrites. */
  predicate IsText<N>(s: Shape<N>) {
    s.kind == ScalarKind && s.tag == "!!str"
  }

  // ----- Paths, reachability and cycles -----

  /** The node a walk arrives at by taking the given child at each step. */
  function Follow<N>(g: Graph<N>, from: N, steps: seq<nat>): Option<N>
    decreases |steps|
  {
    if from !in g then None
    else if steps == [] then Some(from)
    else if steps[0] < |Children(g[from])| then Follow(g, Children(g[from])[steps[0]], steps[1..])
    else None
  }

  ghost predicate Reachable<N>(g: Graph<N>, root: N, n: N) {
    exists steps :: Follow(g, root, steps) == Some(n)
  }

  ghost predicate OnCycle<N>(g: Graph<N>, n: N) {
    exists steps :: steps != [] && Follow(g, n, steps) == Some(n)
  }

  ghost function ReachableNodes<N>(g: Graph<N>, root: N): set<N> {
    set n | n in g && Reachable(g, root, n)
  }

  lemma {:induction false} FollowOn<N>(g: Graph<N>, a: N, p: seq<nat>, b: N, q: seq<nat>)
    requires Follow(g, a, p) == Some(b)
    ensures Follow(g, a, p + q) == Follow(g, b, q)
    decreases |p|
  {
    if p == [] {
      assert p + q == q;
    } else {
      FollowOn(g, Children(g[a])[p[0]], p[1..], b, q);
      assert (p + q)[1..] == p[1..] + q;
    }
  }

  lemma {:induction false} FollowInGraph<N>(g: Graph<N>, a: N, p: seq<nat>)
    ensures Follow(g, a, p).Some? ==> Follow(g, a, p).value in g
    decreases |p|
  {
    if a in g && p != [] && p[0] < |Children(g[a])| {
      FollowInGraph(g, Children(g[a])[p[0]], p[1..]);
    }
  }

  lemma ReachableRoot<N>(g: Graph<N>, root: N)
    requires root in g
    ensures Reachable(g, root, root)
  {
    assert Follow(g, root, []) == Some(root);
  }

  lemma OneStep<N>(g: Graph<N>, n: N, c: N) returns (steps: seq<nat>)
    requires Closed(g) && n in g && c in Children(g[n])
    ensures steps != [] && Follow(g, n, steps) == Some(c)
  {
    ChildrenClosed(g, n, c);
    var i :| 0 <= i < |Children(g[n])| && Children(g[n])[i] == c;
    steps := [i];
  }

  lemma ReachableStep<N>(g: Graph<N>, root: N, n: N, c: N)
    requires Closed(g) && Reachable(g, root, n) && n in g && c in Children(g[n])
    ensures Reachable(g, root, c)
  {
    var steps :| Follow(g, root, steps) == Some(n);
    var last := OneStep(g, n, c);
    FollowOn(g, root, steps, n, last);
  }

  /** A set that holds the root and all children of its members holds every reachable node. */
  lemma {:induction false} ClosedSetHolds<N>(g: Graph<N>, nodes: set<N>, root: N, steps: seq<nat>)
    requires root in nodes && Follow(g, root, steps).Some?
    requires forall n, c | n in nodes && n in g && c in Children(g[n]) :: c in nodes
    ensures Follow(g, root, steps).value in nodes
    decreases |steps|
  {
    if steps != [] {
      ClosedSetHolds(g, nodes, Children(g[root])[steps[0]], steps[1..]);
    }
  }

  // ----- Topological order excludes cycles -----

  /** Every child of a listed node is listed before it. */
  ghost predicate ChildrenFirst<N>(g: Graph<N>, order: seq<N>) {
    forall i, c | 0 <= i < |order| && order[i] in g && c in Children(g[order[i]]) :: c in order[..i]
  }

  predicate NoRepeats<N(==)>(order: seq<N>) {
    forall i, j | 0 <= i < j < |order| :: order[i] != order[j]
  }

  /** A path from a listed node stays listed and moves strictly towards the front. */
  lemma {:induction false} PathDescends<N>(g: Graph<N>, order: seq<N>, i: nat, steps: seq<nat>) returns (j: nat)
    requires ChildrenFirst(g, order) && i < |order| && Follow(g, order[i], steps).Some?
    ensures j <= i && order[j] == Follow(g, order[i], steps).value
    ensures steps != [] ==> j < i
    decreases |steps|
  {
    j := i;
    if steps != [] {
      var c := Children(g[order[i]])[steps[0]];
      assert c in order[..i];
      var k :| 0 <= k < i && order[k] == c;
      j := PathDescends(g, order, k, steps[1..]);
    }
  }

  lemma OrderedNodesAcyclic<N>(g: Graph<N>, order: seq<N>, n: N)
    requires ChildrenFirst(g, order) && NoRepeats(order) && n in order
    ensures !OnCycle(g, n)
  {
    if OnCycle(g, n) {
      var steps :| steps != [] && Follow(g, n, steps) == Some(n);
      var i :| 0 <= i < |order| && order[i] == n;
      var j := PathDescends(g, order, i, steps);
      assert false;
    }
  }

  // ----- What resolution does to one scalar -----

  /** What a walk does to string scalars: check them, or put values in for references. */
  datatype Plan = Validating | Resolving(values: Values)

  datatype Rewriting = Rewritten(text: string, charge: nat) | Refused(error: Error)

  function RewriteText(text: string, plan: Plan): Rewriting {
    match ParseReference(text)
    case Malformed => Refused(BadReference)
    case Literal => Rewritten(text, 0)
    case Escaped(r) => Rewritten(if plan.Validating? then text else r.ToText(), 0)
    case Lookup(r) =>
      if plan.Validating? then Rewritten(text, 0)
      else if r in plan.values then Rewritten(plan.values[r], |plan.values[r]|)
      else Refused(Unresolved)
  }

  /** The bytes a node's lookup brings in. */
  function Charge<N>(s: Shape<N>, plan: Plan): nat {
    if IsText(s) && RewriteText(s.text, plan).Rewritten? then RewriteText(s.text, plan).charge else 0
  }

  function Charges<N>(g: Graph<N>, plan: Plan): (charges: map<N, nat>)
    ensures charges.Keys == g.Keys
  {
    map n | n in g :: Charge(g[n], plan)
  }

  /** A node's text once the walk has finished with it. */
  function FinalText<N>(s: Shape<N>, plan: Plan): string {
    if IsText(s) && RewriteText(s.text, plan).Rewritten? then RewriteText(s.text, plan).text else s.text
  }

  /** The texts a mapping key may show when its mapping is visited: its own and, unless the nodes are in
      document order, its rewritten one when some alias leads to the key. */
  ghost predicate MayShow<N>(g: Graph<N>, root: N, plan: Plan, ordered: bool, key: N, text: string) {
    key in g && (text == g[key].text || (!ordered && Reachable(g, root, key) && text == FinalText(g[key], plan)))
  }

  ghost predicate MayClash<N>(g: Graph<N>, root: N, plan: Plan, ordered: bool, one: N, other: N) {
    exists text :: MayShow(g, root, plan, ordered, one, text) && MayShow(g, root, plan, ordered, other, text)
  }

  ghost predicate MayDiffer<N>(g: Graph<N>, root: N, plan: Plan, ordered: bool, one: N, other: N) {
    exists t, u :: MayShow(g, root, plan, ordered, one, t) && MayShow(g, root, plan, ordered, other, u) && t != u
  }

  predicate IsKeyIndex<N>(s: Shape<N>, i: int) {
    0 <= i < |s.content| && i % 2 == 0
  }

  /** What a successful walk has checked at a node. */
  ghost predicate Sound<N>(g: Graph<N>, root: N, plan: Plan, ordered: bool, n: N)
    requires Closed(g) && n in g
  {
    var s := g[n];
    && (s.kind == MappingKind ==>
          && |s.content| % 2 == 0
          && (forall i | IsKeyIndex(s, i) :: g[s.content[i]].kind == ScalarKind)
          && (forall i, j | IsKeyIndex(s, i) && IsKeyIndex(s, j) && i < j ::
                MayDiffer(g, root, plan, ordered, s.content[i], s.content[j])))
    && (IsText(s) ==> RewriteText(s.text, plan).Rewritten?)
  }

  ghost predicate ReachableMapping<N>(g: Graph<N>, root: N, n: N) {
    n in g && Reachable(g, root, n) && g[n].kind == MappingKind
  }

  ghost predicate BadKey<N>(g: Graph<N>, root: N, n: N, i: nat) {
    && ReachableMapping(g, root, n) && IsKeyIndex(g[n], i)
    && g[n].content[i] in g && g[g[n].content[i]].kind != ScalarKind
  }

  ghost predicate ClashingKeys<N>(g: Graph<N>, root: N, plan: Plan, ordered: bool, n: N, i: nat, j: nat) {
    && ReachableMapping(g, root, n) && IsKeyIndex(g[n], i) && IsKeyIndex(g[n], j) && i < j
    && MayClash(g, root, plan, ordered, g[n].content[i], g[n].content[j])
  }

  /** The reason each error gives is real. */
  ghost predicate Cause<N>(g: Graph<N>, root: N, plan: Plan, ordered: bool, budget: nat, error: Error) {
    match error
    case AliasCycle => exists n :: n in g && Reachable(g, root, n) && OnCycle(g, n)
    case OddMapping => exists n :: n in g && ReachableMapping(g, root, n) && |g[n].content| % 2 != 0
    case NonScalarKey => exists n, i :: n in g && BadKey(g, root, n, i)
    case DuplicateKey => exists n, i, j :: n in g && ClashingKeys(g, root, plan, ordered, n, i, j)
    case TooLarge => Sum(Charges(g, plan), ReachableNodes(g, root)) > budget
    case _ =>
      exists n :: n in g && Reachable(g, root, n) && IsText(g[n]) && RewriteText(g[n].text, plan) == Refused(error)
  }

  // ----- References -----

  /** The reference that a string scalar spells. */
  function LookupOf<N>(s: Shape<N>): Option<Reference> {
    if IsText(s) then match ParseReference(s.text) case Lookup(r) => Some(r) case _ => None
    else None
  }

  ghost function ReferencesOf<N>(g: Graph<N>, nodes: set<N>): set<Reference> {
    set n | n in nodes && n in g && LookupOf(g[n]).Some? :: LookupOf(g[n]).value
  }

  /** The references that the document under the root contains. */
  ghost function YamlReferences<N>(g: Graph<N>, root: N): set<Reference> {
    ReferencesOf(g, ReachableNodes(g, root))
  }

  // ----- The same by how a text is spelled -----

  /** A string scalar that prints the reference, and one that prints its escaped form. */
  ghost predicate Spells<N>(s: Shape<N>, r: Reference) {
    IsText(s) && r.Valid() && s.text == r.ToText()
  }

  ghost predicate SpellsEscape<N>(s: Shape<N>, r: Reference) {
    IsText(s) && r.Valid() && s.text == EscapedText(r)
  }

  /** A string scalar with the opening marker in it that is neither. */
  ghost predicate Misspelt<N>(s: Shape<N>) {
    IsText(s) && Contains(s.text, "{vault.") && forall r :: !Spells(s, r) && !SpellsEscape(s, r)
  }

  /** The text is what a resolution makes of the node: a reference gives way to its value, an escaped reference
      to the reference it escapes, and everything else stays. */
  ghost predicate Substituted<N>(s: Shape<N>, values: Values, text: string) {
    && (forall r | Spells(s, r) :: r in values && text == values[r])
    && (forall r | SpellsEscape(s, r) :: text == r.ToText())
    && ((forall r :: !Spells(s, r) && !SpellsEscape(s, r)) ==> text == s.text)
  }

  lemma SubstitutedOnce<N>(s: Shape<N>, values: Values)
    requires IsText(s) ==> RewriteText(s.text, Resolving(values)).Rewritten?
    ensures Substituted(s, values, FinalText(s, Resolving(values)))
  {
    hide ParseReference, Reference.ToText, EscapedText, Reference.Valid;
    ParseExactly(s.text);
    if IsText(s) {
      match ParseReference(s.text)
      case Lookup(r) =>
        assert Spells(s, r);
      case Escaped(r) =>
        assert SpellsEscape(s, r);
      case _ =>
    }
  }

  /** A string is refused exactly when it is misspelt or prints a reference that has no value. */
  lemma RefusedExactly<N>(s: Shape<N>, values: Values)
    requires IsText(s)
    ensures RewriteText(s.text, Validating) == Refused(BadReference) <==> Misspelt(s)
    ensures RewriteText(s.text, Validating).Rewritten? <==> !Misspelt(s)
    ensures RewriteText(s.text, Resolving(values)) == Refused(BadReference) <==> Misspelt(s)
    ensures RewriteText(s.text, Resolving(values)) == Refused(Unresolved) <==>
            exists r :: Spells(s, r) && r !in values
    ensures RewriteText(s.text, Resolving(values)).Rewritten? <==>
            !Misspelt(s) && forall r | Spells(s, r) :: r in values
  {
    hide ParseReference, Reference.ToText, EscapedText, Reference.Valid, Contains;
    ParseExactly(s.text);
    match ParseReference(s.text)
    case Lookup(r) =>
      assert Spells(s, r);
    case Escaped(r) =>
      assert SpellsEscape(s, r);
    case _ =>
  }

  /** A node is charged the length of the value it looks up, and nothing when it looks up none. */
  lemma ChargedForValue<N>(s: Shape<N>, values: Values)
    ensures forall r | Spells(s, r) && r in values :: Charge(s, Resolving(values)) == |values[r]|
    ensures (forall r | Spells(s, r) :: r !in values) ==> Charge(s, Resolving(values)) == 0
    ensures Charge(s, Validating) == 0
  {
    hide ParseReference, Reference.ToText, EscapedText, Reference.Valid;
    ParseExactly(s.text);
  }

  lemma SpellsLookup<N>(s: Shape<N>)
    ensures forall r :: LookupOf(s) == Some(r) <==> Spells(s, r)
  {
    hide ParseReference, Reference.ToText, EscapedText, Reference.Valid;
    ParseExactly(s.text);
  }

  /** The references of a document are those that its reachable strings print. */
  lemma ReferencesSpelled<N>(g: Graph<N>, root: N, r: Reference)
    ensures r in YamlReferences(g, root) <==> exists n :: n in g && Reachable(g, root, n) && Spells(g[n], r)
  {
    hide Reachable, Spells, LookupOf;
    forall n | n in g ensures LookupOf(g[n]) == Some(r) <==> Spells(g[n], r) {
      SpellsLookup(g[n]);
    }
    if r in YamlReferences(g, root) {
      var n :| n in ReachableNodes(g, root) && LookupOf(g[n]) == Some(r);
      assert Spells(g[n], r);
    }
  }
}
