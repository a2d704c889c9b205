/** The three-colour walk over a YAML document on the heap, where aliases may share nodes and may close
    cycles. Models resolveYAMLNode and the bounded lookup of internal/configdoc/resolve.go, and
    validateYAMLNode of internal/configdoc/canonical.go: the two functions differ only in what they do
    with a string scalar, which is the plan of the walk here. */
module YamlWalk {
  import opened Ordering
  import opened References
  import opened YamlGraph
  import opened YamlOrder

  datatype Visit = Visiting | Visited

  class YamlNode {
    var kind: Kind
    var tag: string
    var value: string
    var content: seq<YamlNode>
    var target: YamlNode?

    constructor (kind: Kind, tag: string, value: string)
      ensures this.kind == kind && this.tag == tag && this.value == value && content == [] && target == null
    {
      this.kind, this.tag, this.value, this.content, this.target := kind, tag, value, [], null;
    }

    function ShapeOf(): Shape<YamlNode>
      reads this
    {
      var to: Option<YamlNode> := if target == null then None else Some(target);
      Shape(kind, tag, value, content, to)
    }
  }

  ghost function Shapes(nodes: set<YamlNode>): Graph<YamlNode>
    reads nodes
  {
    map n | n in nodes :: n.ShapeOf()
  }

  /** How far a walk has come: colours, the path to the current node, the finished nodes in the
      order they finished, and what is left of the lookup budget. */
  datatype Progress<N> = Progress(visits: map<N, Visit>, stack: seq<N>, finished: seq<N>, remaining: nat)

  ghost predicate Consistent<N>(g: Graph<N>, root: N, plan: Plan, ordered: bool, budget: nat, p: Progress<N>) {
    && Closed(g) && root in g
    && Coloured(g, root, p)
    && OnPath(g, root, p.stack)
    && ChildrenFirst(g, p.finished) && NoRepeats(p.finished)
    && (forall n | n in p.finished :: Sound(g, root, plan, ordered, n))
    && p.remaining + Sum(Charges(g, plan), Elements(p.finished)) == budget
  }

  ghost predicate Coloured<N>(g: Graph<N>, root: N, p: Progress<N>) {
    && p.visits.Keys == Elements(p.stack) + Elements(p.finished)
    && p.visits.Keys <= g.Keys
    && (forall n | n in p.stack :: p.visits[n] == Visiting)
    && (forall n | n in p.finished :: p.visits[n] == Visited)
    && (forall n | n in p.visits :: Reachable(g, root, n))
  }

  ghost predicate OnPath<N>(g: Graph<N>, root: N, stack: seq<N>) {
    && (forall n | n in stack :: n in g)
    && NoRepeats(stack)
    && (stack != [] ==> stack[0] == root)
    && forall i | 0 <= i < |stack| - 1 :: stack[i + 1] in Children(g[stack[i]])
  }

  /** The progress after entering a node, and after leaving the current one. */
  function Entered<N>(p: Progress<N>, n: N): Progress<N> {
    Progress(p.visits[n := Visiting], p.stack + [n], p.finished, p.remaining)
  }

  function Left<N>(p: Progress<N>): Progress<N>
    requires p.stack != []
  {
    var n := p.stack[|p.stack| - 1];
    Progress(p.visits[n := Visited], p.stack[..|p.stack| - 1], p.finished + [n], p.remaining)
  }

  /** The node may be visited next: it is the root of the walk or a child of the current node. */
  ghost predicate Next<N>(g: Graph<N>, root: N, stack: seq<N>, n: N) {
    && n in g
    && if stack == [] then n == root else stack[|stack| - 1] in g && n in Children(g[stack[|stack| - 1]])
  }

  lemma NextReachable<N>(g: Graph<N>, root: N, plan: Plan, ordered: bool, budget: nat, p: Progress<N>, n: N)
    requires Consistent(g, root, plan, ordered, budget, p) && Next(g, root, p.stack, n)
    ensures Reachable(g, root, n)
  {
    if p.stack == [] {
      ReachableRoot(g, root);
    } else {
      var top := p.stack[|p.stack| - 1];
      assert top in Elements(p.stack);
      ReachableStep(g, root, top, n);
    }
  }

  lemma Begin<N>(g: Graph<N>, root: N, plan: Plan, ordered: bool, budget: nat)
    requires Closed(g) && root in g
    ensures Consistent(g, root, plan, ordered, budget, Progress(map[], [], [], budget))
  {
  }

  lemma ElementsAppend<T>(xs: seq<T>, x: T)
    ensures Elements(xs + [x]) == Elements(xs) + {x}
  {
  }

  lemma Smaller<T>(all: set<T>, seen: map<T, Visit>, x: T)
    requires x in all && x !in seen
    ensures |all - seen[x := Visiting].Keys| < |all - seen.Keys|
  {
    assert seen[x := Visiting].Keys == seen.Keys + {x};
    assert all - seen.Keys == (all - (seen.Keys + {x})) + {x};
  }

  lemma InElements<T>(xs: seq<T>)
    ensures forall x | x in xs :: x in Elements(xs)
  {
  }

  lemma PushColoured<N>(g: Graph<N>, root: N, p: Progress<N>, n: N)
    requires Coloured(g, root, p) && n in g && Reachable(g, root, n) && n !in p.visits
    ensures Coloured(g, root, Entered(p, n))
  {
    InElements(p.finished);
    ElementsAppend(p.stack, n);
  }

  lemma PushOnPath<N>(g: Graph<N>, root: N, stack: seq<N>, n: N)
    requires OnPath(g, root, stack) && Next(g, root, stack, n) && n !in stack
    ensures OnPath(g, root, stack + [n])
  {
    var more := stack + [n];
    forall i | 0 <= i < |more| - 1 ensures more[i + 1] in Children(g[more[i]]) {
      if i == |stack| - 1 {
        assert more[i] == stack[i];
      } else {
        assert stack[i + 1] in Children(g[stack[i]]);
      }
    }
  }

  lemma NextInGraph<N>(g: Graph<N>, root: N, stack: seq<N>, n: N)
    requires Next(g, root, stack, n)
    ensures n in g
  {
  }

  /** Entering a node that has not been seen. */
  lemma Push<N>(g: Graph<N>, root: N, plan: Plan, ordered: bool, budget: nat, p: Progress<N>, n: N)
    requires Consistent(g, root, plan, ordered, budget, p) && Next(g, root, p.stack, n) && n !in p.visits
    ensures Consistent(g, root, plan, ordered, budget, Entered(p, n))
  {
    NextReachable(g, root, plan, ordered, budget, p, n);
    PushColoured(g, root, p, n);
    InElements(p.stack);
    PushOnPath(g, root, p.stack, n);
  }

  lemma OnPathIn<N>(g: Graph<N>, root: N, stack: seq<N>)
    requires OnPath(g, root, stack)
    ensures NoRepeats(stack)
  {
    hide Children, NoRepeats;
  }

  lemma FinishColoured<N>(g: Graph<N>, root: N, p: Progress<N>)
    requires Coloured(g, root, p) && p.stack != [] && NoRepeats(p.stack)
    ensures p.stack[|p.stack| - 1] !in p.finished && Coloured(g, root, Left(p))
  {
    hide Reachable, Elements;
    var n := p.stack[|p.stack| - 1];
    var rest := p.stack[..|p.stack| - 1];
    InElements(rest);
    InElements(p.finished);
    assert n in p.stack;
    assert p.stack == rest + [n];
    ElementsAppend(rest, n);
    ElementsAppend(p.finished, n);
    assert forall m | m in rest :: m in p.stack && m != n;
  }

  lemma FinishOnPath<N>(g: Graph<N>, root: N, stack: seq<N>)
    requires OnPath(g, root, stack) && stack != []
    ensures OnPath(g, root, stack[..|stack| - 1])
  {
    var rest := stack[..|stack| - 1];
    forall i | 0 <= i < |rest| - 1 ensures rest[i + 1] in Children(g[rest[i]]) {
      assert rest[i + 1] == stack[i + 1] && rest[i] == stack[i];
    }
  }

  lemma FinishOrder<N>(g: Graph<N>, finished: seq<N>, n: N)
    requires ChildrenFirst(g, finished) && NoRepeats(finished) && n !in finished
    requires n in g && forall c | c in Children(g[n]) :: c in finished
    ensures ChildrenFirst(g, finished + [n]) && NoRepeats(finished + [n])
  {
    var more := finished + [n];
    forall i, c | 0 <= i < |more| && more[i] in g && c in Children(g[more[i]]) ensures c in more[..i] {
      if i < |finished| {
        assert more[i] == finished[i];
        assert more[..i] == finished[..i];
      } else {
        assert more[..i] == finished;
      }
    }
  }

  lemma Uncharged<N>(g: Graph<N>, root: N, p: Progress<N>, remaining: nat)
    requires Coloured(g, root, p)
    ensures Coloured(g, root, p.(remaining := remaining)) && Elements(p.finished) <= g.Keys
  {
    hide Reachable, Elements;
  }

  /** Leaving a node all of whose children are finished. */
  lemma Finish<N>(g: Graph<N>, root: N, plan: Plan, ordered: bool, budget: nat, p: Progress<N>, remaining: nat)
    requires Consistent(g, root, plan, ordered, budget, p) && p.stack != []
    requires var n := p.stack[|p.stack| - 1];
             && n in g && Sound(g, root, plan, ordered, n)
             && (forall c | c in Children(g[n]) :: c in p.finished)
             && remaining + Charge(g[n], plan) == p.remaining
    ensures Consistent(g, root, plan, ordered, budget, Left(p.(remaining := remaining)))
  {
    hide Coloured, OnPath, ChildrenFirst, NoRepeats, Sound, Children, Closed;
    var n := p.stack[|p.stack| - 1];
    OnPathIn(g, root, p.stack);
    Uncharged(g, root, p, remaining);
    FinishColoured(g, root, p.(remaining := remaining));
    FinishOnPath(g, root, p.stack);
    FinishOrder(g, p.finished, n);
    ElementsAppend(p.finished, n);
    SumAdd(Charges(g, plan), Elements(p.finished), n);
  }

  // ----- Each error has its cause -----

  lemma OnStack<N>(g: Graph<N>, root: N, p: Progress<N>, n: N)
    requires Coloured(g, root, p) && n in p.visits && p.visits[n] == Visiting
    ensures n in p.stack && n in g && Reachable(g, root, n)
  {
    hide Reachable;
    assert n in Elements(p.stack) + Elements(p.finished);
  }

  /** A child that is on the path closes a cycle. */
  lemma CycleOnStack<N>(g: Graph<N>, root: N, stack: seq<N>, n: N)
    requires Closed(g) && OnPath(g, root, stack) && Next(g, root, stack, n) && n in stack
    ensures OnCycle(g, n)
  {
    hide Follow, Children;
    var i :| 0 <= i < |stack| && stack[i] == n;
    var steps := PathAlongStack(g, root, stack, i);
    var last := OneStep(g, stack[|stack| - 1], n);
    FollowOn(g, n, steps, stack[|stack| - 1], last);
    assert steps + last != [];
  }

  lemma CycleFound<N>(g: Graph<N>, root: N, plan: Plan, ordered: bool, budget: nat, p: Progress<N>, n: N)
    requires Consistent(g, root, plan, ordered, budget, p) && Next(g, root, p.stack, n)
    requires n in p.visits && p.visits[n] == Visiting
    ensures Cause(g, root, plan, ordered, budget, AliasCycle)
  {
    hide Coloured, OnPath, Next, OnCycle, Reachable, ChildrenFirst, Sound, Charges;
    OnStack(g, root, p, n);
    CycleOnStack(g, root, p.stack, n);
  }

  lemma {:induction false} PathAlongStack<N>(g: Graph<N>, root: N, stack: seq<N>, i: nat) returns (steps: seq<nat>)
    requires Closed(g) && OnPath(g, root, stack) && i < |stack|
    ensures Follow(g, stack[i], steps) == Some(stack[|stack| - 1])
    decreases |stack| - i
  {
    assert stack[i] in g;
    if i == |stack| - 1 {
      steps := [];
    } else {
      assert stack[i + 1] in Children(g[stack[i]]);
      var first := OneStep(g, stack[i], stack[i + 1]);
      var rest := PathAlongStack(g, root, stack, i + 1);
      steps := first + rest;
      FollowOn(g, stack[i], first, stack[i + 1], rest);
    }
  }

  /** A lookup that does not fit shows that all lookups together do not fit. */
  lemma OverBudget<N>(g: Graph<N>, root: N, plan: Plan, ordered: bool, budget: nat, p: Progress<N>)
    requires Consistent(g, root, plan, ordered, budget, p) && p.stack != []
    requires p.stack[|p.stack| - 1] in g && Charge(g[p.stack[|p.stack| - 1]], plan) > p.remaining
    ensures Cause(g, root, plan, ordered, budget, TooLarge)
  {
    hide OnPath, ChildrenFirst, Sound, NoRepeats, Reachable, Children, Closed;
    var n := p.stack[|p.stack| - 1];
    OnPathIn(g, root, p.stack);
    assert n in Elements(p.stack);
    FinishColoured(g, root, p);
    assert n !in Elements(p.finished);
    SumAdd(Charges(g, plan), Elements(p.finished), n);
    forall m | m in Elements(p.finished) + {n} ensures m in ReachableNodes(g, root) {
      assert m in p.visits;
    }
    SumMonotone(Charges(g, plan), Elements(p.finished) + {n}, ReachableNodes(g, root));
  }

  // ----- Steps on plan -----

  /** The shape a node shows: its final text once it is finished. */
  function Shown<N(==)>(s: Shape<N>, plan: Plan, done: bool): Shape<N> {
    s.(text := if done then FinalText(s, plan) else s.text)
  }

  predicate Within<N(==)>(nodes: seq<N>, finished: seq<N>) {
    forall n | n in nodes :: n in finished
  }

  lemma WithinMore<N>(nodes: seq<N>, n: N, finished: seq<N>, more: seq<N>)
    requires Within(nodes, finished) && finished <= more && n in more
    ensures Within(nodes + [n], more)
  {
  }

  /** The first so many children of a node are finished. */
  ghost predicate Walked<N>(s: Shape<N>, count: nat, finished: seq<N>) {
    count <= |Children(s)| && Within(Children(s)[..count], finished)
  }

  lemma ItemsAreContent<N>(g: Graph<N>, root: N, plan: Plan, ordered: bool, n: N)
    requires Closed(g) && n in g && (g[n].kind == DocumentKind || g[n].kind == SequenceKind)
    ensures Children(g[n]) == g[n].content && Sound(g, root, plan, ordered, n)
  {
    hide Closed;
  }

  lemma WalkedNone<N>(s: Shape<N>, finished: seq<N>)
    ensures Walked(s, 0, finished)
  {
  }

  lemma WalkedMore<N>(s: Shape<N>, count: nat, before: seq<N>, finished: seq<N>)
    requires Walked(s, count, before) && count < |Children(s)|
    requires before <= finished && Children(s)[count] in finished
    ensures Walked(s, count + 1, finished)
  {
    hide Children;
    WithinMore(Children(s)[..count], Children(s)[count], before, finished);
    assert Children(s)[..count + 1] == Children(s)[..count] + [Children(s)[count]];
  }

  lemma WalkedAll<N>(s: Shape<N>, finished: seq<N>)
    requires Walked(s, |Children(s)|, finished)
    ensures Within(Children(s), finished)
  {
    hide Children;
    assert Children(s)[..|Children(s)|] == Children(s);
  }

  /** Each key visited so far is a scalar that may show the text recorded for it, and the recorded
      texts are distinct. */
  ghost predicate KeysShown<N>(g: Graph<N>, root: N, plan: Plan, ordered: bool, s: Shape<N>, shown: seq<string>) {
    && NoRepeats(shown)
    && 2 * |shown| <= |s.content|
    && forall i | 0 <= i < |shown| ::
         && s.content[2 * i] in g && g[s.content[2 * i]].kind == ScalarKind
         && MayShow(g, root, plan, ordered, s.content[2 * i], shown[i])
  }

  lemma NoKeysShown<N>(g: Graph<N>, root: N, plan: Plan, ordered: bool, s: Shape<N>)
    ensures KeysShown(g, root, plan, ordered, s, []) && Elements<string>([]) == {}
  {
  }

  lemma MappingValues<N>(s: Shape<N>)
    requires s.kind == MappingKind
    ensures |Children(s)| == |s.content| / 2
    ensures forall i | 0 <= i < |s.content| / 2 :: Children(s)[i] == s.content[2 * i + 1]
  {
  }

  lemma OneMoreKey<N>(g: Graph<N>, root: N, plan: Plan, ordered: bool, s: Shape<N>, shown: seq<string>, text: string)
    requires KeysShown(g, root, plan, ordered, s, shown) && 2 * |shown| < |s.content| && |s.content| % 2 == 0
    requires s.content[2 * |shown|] in g && g[s.content[2 * |shown|]].kind == ScalarKind
    requires MayShow(g, root, plan, ordered, s.content[2 * |shown|], text) && text !in Elements(shown)
    ensures KeysShown(g, root, plan, ordered, s, shown + [text])
    ensures Elements(shown + [text]) == Elements(shown) + {text}
  {
    hide MayShow;
    ElementsAppend(shown, text);
  }

  lemma KeysDiffer<N>(g: Graph<N>, root: N, plan: Plan, ordered: bool, n: N, shown: seq<string>)
    requires Closed(g) && n in g && g[n].kind == MappingKind
    requires 2 * |shown| == |g[n].content| && KeysShown(g, root, plan, ordered, g[n], shown)
    ensures Sound(g, root, plan, ordered, n)
  {
    hide MayShow;
    var s := g[n];
    forall i | IsKeyIndex(s, i) ensures g[s.content[i]].kind == ScalarKind {
      assert s.content[i] == s.content[2 * (i / 2)];
    }
    forall i, j | IsKeyIndex(s, i) && IsKeyIndex(s, j) && i < j
      ensures MayDiffer(g, root, plan, ordered, s.content[i], s.content[j])
    {
      assert i == 2 * (i / 2) && j == 2 * (j / 2);
      assert shown[i / 2] != shown[j / 2];
    }
  }

  lemma KeysClash<N>(g: Graph<N>, root: N, plan: Plan, ordered: bool, budget: nat, n: N, shown: seq<string>,
                     text: string)
    requires n in g && Reachable(g, root, n) && g[n].kind == MappingKind && 2 * |shown| < |g[n].content|
    requires KeysShown(g, root, plan, ordered, g[n], shown) && text in Elements(shown)
    requires MayShow(g, root, plan, ordered, g[n].content[2 * |shown|], text)
    ensures Cause(g, root, plan, ordered, budget, DuplicateKey)
  {
    hide MayShow, Reachable;
    var i :| 0 <= i < |shown| && shown[i] == text;
    assert ClashingKeys(g, root, plan, ordered, n, 2 * i, 2 * |shown|);
  }

  lemma KeyNotScalar<N>(g: Graph<N>, root: N, plan: Plan, ordered: bool, budget: nat, n: N, i: nat)
    requires n in g && Reachable(g, root, n) && g[n].kind == MappingKind && IsKeyIndex(g[n], i)
    requires g[n].content[i] in g && g[g[n].content[i]].kind != ScalarKind
    ensures Cause(g, root, plan, ordered, budget, NonScalarKey)
  {
    hide Reachable;
    assert BadKey(g, root, n, i);
  }

  lemma OddContent<N>(g: Graph<N>, root: N, plan: Plan, ordered: bool, budget: nat, n: N)
    requires n in g && Reachable(g, root, n) && g[n].kind == MappingKind && |g[n].content| % 2 != 0
    ensures Cause(g, root, plan, ordered, budget, OddMapping)
  {
    hide Reachable;
    assert ReachableMapping(g, root, n);
  }

  lemma ScalarDone<N>(g: Graph<N>, root: N, plan: Plan, ordered: bool, n: N)
    requires Closed(g) && n in g && g[n].kind == ScalarKind
    requires IsText(g[n]) ==> RewriteText(g[n].text, plan).Rewritten?
    ensures Sound(g, root, plan, ordered, n) && Children(g[n]) == []
    ensures IsText(g[n]) ==> RewriteText(g[n].text, plan) == Rewritten(FinalText(g[n], plan), Charge(g[n], plan))
    ensures !IsText(g[n]) ==> FinalText(g[n], plan) == g[n].text && Charge(g[n], plan) == 0
  {
  }

  lemma TextRefused<N>(g: Graph<N>, root: N, plan: Plan, ordered: bool, budget: nat, n: N, error: Error)
    requires n in g && Reachable(g, root, n) && IsText(g[n])
    requires RewriteText(g[n].text, plan) == Refused(error)
    ensures Cause(g, root, plan, ordered, budget, error)
  {
    hide Reachable;
  }

  // ----- The walk on the heap -----

  class Walk {
    const plan: Plan
    var visits: map<YamlNode, Visit>
    var remaining: nat
    var references: set<Reference>
    ghost const g: Graph<YamlNode>
    ghost const root: YamlNode
    ghost const budget: nat
    ghost const ordered: bool
    ghost const at: map<YamlNode, Place>
    ghost var stack: seq<YamlNode>
    ghost var finished: seq<YamlNode>

    /** A walk about to start on the document under `root`; `nodes` is any set that contains the
        root and is closed under content and alias pointers, and `at` may be their document order. */
    constructor (root: YamlNode, plan: Plan, budget: nat, ghost nodes: set<YamlNode>, ghost at: map<YamlNode, Place>)
      requires root in nodes && Closed(Shapes(nodes))
      ensures Valid() && stack == [] && finished == [] && this.root == root && InPlace(PlaceOf(root))
      ensures g == Shapes(nodes) && this.plan == plan && this.budget == budget
      ensures ordered == DocumentOrder(g, root, at)
    {
      hide Consistent, FinalText, Closed, DocumentOrder;
      ghost var shapes := Shapes(nodes);
      ghost var inOrder := DocumentOrder(shapes, root, at);
      this.plan, this.visits, this.remaining, this.references := plan, map[], budget, {};
      this.g, this.root, this.budget, this.stack, this.finished := shapes, root, budget, [], [];
      this.ordered, this.at := inOrder, at;
      Begin(shapes, root, plan, inOrder, budget);
      if inOrder {
        NothingReached(shapes, root, at);
      }
    }

    ghost function Now(): Progress<YamlNode>
      reads this
    {
      Progress(visits, stack, finished, remaining)
    }

    /** How many nodes have not been entered yet. */
    ghost function Unseen(): nat
      reads this`visits
    {
      |g.Keys - visits.Keys|
    }

    ghost predicate Valid()
      reads this, g.Keys
    {
      Consistent(g, root, plan, ordered, budget, Now()) && Written(finished)
    }

    /** Finished nodes show their final text, all others their original one, and nothing else about
        any node has changed; a validation has recorded the references of the finished nodes. */
    ghost predicate Written(done: seq<YamlNode>)
      reads this`references, g.Keys
    {
      && (forall n | n in g :: n.ShapeOf() == Shown(g[n], plan, n in done))
      && references == if plan.Validating? then ReferencesOf(g, Elements(done)) else {}
    }

    // In document order, how far the walk has come: up to a place, into a node, past a node.

    ghost predicate InPlace(place: Place)
      reads this`visits
    {
      ordered ==> DocumentOrder(g, root, at) && Reached(g, at, visits.Keys, place)
    }

    ghost predicate Inside(node: YamlNode)
      reads this`visits
    {
      ordered ==> DocumentOrder(g, root, at) && Opened(g, at, visits.Keys, node)
    }

    ghost predicate Beyond(node: YamlNode)
      reads this`visits
    {
      ordered ==> DocumentOrder(g, root, at) && Passed(g, at, visits.Keys, node)
    }

    /** Where an alias leads, in document order. */
    ghost predicate Aside(node: YamlNode)
      reads this`visits
    {
      ordered ==> node in g && (node in visits || g[node].kind == ScalarKind)
    }

    ghost function PlaceOf(node: YamlNode): Place {
      if node in at then at[node] else []
    }

    ghost predicate Current(node: YamlNode)
      reads this
    {
      node in g && stack != [] && stack[|stack| - 1] == node
    }

    /** What the steps use of the invariant about one node. */
    lemma Facts(node: YamlNode)
      requires Valid() && node in g
      ensures Closed(g) && root in g && visits.Keys <= g.Keys && forall c | c in g[node].content :: c in g
      ensures node.kind == g[node].kind && node.tag == g[node].tag && node.content == g[node].content
      ensures node.target == if g[node].target.None? then null else g[node].target.value
      ensures MayShow(g, root, plan, false, node, node.value) && (node !in visits ==> node.value == g[node].text)
      ensures Written(finished)
      ensures node in stack ==>
                node in visits && node !in finished && Reachable(g, root, node)
                && node.value == g[node].text
      ensures node in visits && visits[node] == Visited ==> node in finished
    {
      assert node.ShapeOf() == Shown(g[node], plan, node in finished);
      InElements(stack);
      InElements(finished);
    }

    ghost predicate Advanced(stack0: seq<YamlNode>, finished0: seq<YamlNode>, unseen0: nat)
      reads this
    {
      stack == stack0 && finished0 <= finished && Unseen() <= unseen0
    }

    /** The node can be marked as finished. */
    ghost predicate Leavable(node: YamlNode)
      reads this, g.Keys
    {
      && Current(node) && node in visits
      && Consistent(g, root, plan, ordered, budget, Left(Now()))
      && Written(finished + [node])
    }

    lemma Leave(node: YamlNode)
      requires Valid() && Current(node) && g[node].kind != ScalarKind
      requires Within(Children(g[node]), finished) && Sound(g, root, plan, ordered, node)
      ensures Leavable(node)
    {
      hide Sound, Children, Consistent;
      Facts(node);
      Finish(g, root, plan, ordered, budget, Now(), remaining);
      Unwritten(node);
    }

    /** A node that is not a string is left as it is. */
    lemma Unwritten(node: YamlNode)
      requires node in g && Written(finished) && !IsText(g[node])
      ensures Written(finished + [node])
    {
      ElementsAppend(finished, node);
    }

    lemma Entering(node: YamlNode, tree: bool)
      requires Valid() && Next(g, root, stack, node) && node !in visits
      requires tree ==> InPlace(PlaceOf(node))
      ensures Consistent(g, root, plan, ordered, budget, Entered(Now(), node)) && node in g
      ensures |g.Keys - visits[node := Visiting].Keys| < Unseen()
      ensures visits[node := Visiting].Keys == visits.Keys + {node}
      ensures tree && ordered ==> DocumentOrder(g, root, at) && Opened(g, at, visits[node := Visiting].Keys, node)
    {
      hide Consistent, Written, Children, Next, DocumentOrder, Reached, Opened, InPlace, PlaceOf;
      NextInGraph(g, root, stack, node);
      Smaller(g.Keys, visits, node);
      Push(g, root, plan, ordered, budget, Now(), node);
      if tree {
        ToInside(node);
      }
    }

    method Enter(node: YamlNode, ghost tree: bool)
      requires Valid() && Next(g, root, stack, node) && node !in visits
      requires tree ==> InPlace(PlaceOf(node))
      modifies this`visits, this`stack
      ensures Valid() && Current(node) && stack == old(stack) + [node] && Unseen() < old(Unseen())
      ensures visits.Keys == old(visits.Keys) + {node} && (tree ==> Inside(node))
    {
      hide Consistent, Written, Children, Next, DocumentOrder, Reached, Opened, InPlace, PlaceOf;
      Entering(node, tree);
      visits, stack := visits[node := Visiting], stack + [node];
    }

    method Exit(node: YamlNode)
      requires Leavable(node)
      modifies this`visits, this`stack, this`finished
      ensures Valid() && stack == old(stack)[..|old(stack)| - 1] && finished == old(finished) + [node]
      ensures Unseen() == old(Unseen()) && visits.Keys == old(visits.Keys)
    {
      hide Consistent;
      assert visits[node := Visited].Keys == visits.Keys;
      visits, stack, finished := visits[node := Visited], stack[..|stack| - 1], finished + [node];
    }

    lemma Cycle(node: YamlNode)
      requires Valid() && Next(g, root, stack, node) && node in visits && visits[node] == Visiting
      ensures Cause(g, root, plan, ordered, budget, AliasCycle)
    {
      hide Consistent, Next, Cause;
      CycleFound(g, root, plan, ordered, budget, Now(), node);
    }

    // ----- Moving on in document order -----

    lemma ToInside(node: YamlNode)
      requires node in g && InPlace(PlaceOf(node))
      ensures ordered ==> DocumentOrder(g, root, at) && Opened(g, at, visits.Keys + {node}, node)
    {
      hide Opened;
      if ordered {
        PlacedNodes(g, root, at);
        Open(g, at, visits.Keys, node);
      }
    }

    lemma NewInOrder(node: YamlNode)
      requires node in g && InPlace(PlaceOf(node))
      ensures ordered ==> node !in visits
    {
      hide Reached;
      if ordered {
        PlacedNodes(g, root, at);
        NextIsNew(g, at, visits.Keys, node);
      }
    }

    lemma ToFirst(node: YamlNode)
      requires node in g && Inside(node)
      ensures InPlace(PlaceOf(node) + [0])
    {
      hide Opened, Reached, DocumentOrder;
      if ordered {
        PlacedNodes(g, root, at);
        FirstPart(g, root, at, visits.Keys, node);
      }
    }

    lemma IntoPart(node: YamlNode, i: nat)
      requires node in g && i < |g[node].content| && InPlace(PlaceOf(node) + [i])
      ensures InPlace(PlaceOf(g[node].content[i]))
    {
      hide Reached, DocumentOrder;
      if ordered {
        PlacedNodes(g, root, at);
        PartAt(g, root, at, node, i);
      }
    }

    lemma ToNext(node: YamlNode, i: nat)
      requires node in g && i < |g[node].content| && g[node].content[i] in g && Beyond(g[node].content[i])
      ensures InPlace(PlaceOf(node) + [i + 1])
    {
      hide Passed, Reached, DocumentOrder;
      if ordered {
        PlacedNodes(g, root, at);
        NextPart(g, root, at, visits.Keys, node, i);
      }
    }

    lemma OverKey(node: YamlNode, i: nat)
      requires node in g && i < |g[node].content| && InPlace(PlaceOf(node) + [i])
      requires g[node].content[i] in g && g[g[node].content[i]].kind == ScalarKind
      ensures InPlace(PlaceOf(node) + [i + 1])
    {
      hide Reached, DocumentOrder;
      if ordered {
        PlacedNodes(g, root, at);
        PastKey(g, root, at, visits.Keys, node, i);
      }
    }

    lemma ToEnd(node: YamlNode)
      requires node in g && node in visits && InPlace(PlaceOf(node) + [|g[node].content|])
      ensures Beyond(node)
    {
      hide Passed, Reached, DocumentOrder;
      if ordered {
        PlacedNodes(g, root, at);
        AllParts(g, root, at, visits.Keys, node);
      }
    }

    /** Scalars and aliases have nothing under them. */
    lemma Leaf(node: YamlNode)
      requires node in g && Inside(node) && (g[node].kind == ScalarKind || g[node].kind == AliasKind)
      ensures Beyond(node)
    {
      hide Passed, Opened;
      if ordered {
        NoParts(g, root, at, visits.Keys, node);
      }
    }

    // ----- The walk -----

    lemma NextIn(node: YamlNode)
      requires Next(g, root, stack, node)
      ensures node in g
    {
    }

    /** resolveYAMLNode and validateYAMLNode. A node is visited in its place in the tree, or because an alias
        leads to it. */
    method ResolveNode(node: YamlNode, ghost tree: bool) returns (r: Option<Error>)
      requires Valid() && Next(g, root, stack, node)
      requires if tree then InPlace(PlaceOf(node)) else Aside(node)
      modifies this, g.Keys`value
      ensures r.None? ==> Valid() && Advanced(old(stack), old(finished), old(Unseen())) && node in finished
      ensures r.None? ==> if tree then Beyond(node) else ordered ==> visits.Keys == old(visits.Keys) + {node}
      ensures r.Some? ==> Cause(g, root, plan, ordered, budget, r.value)
      decreases Unseen(), 0
    {
      hide Valid, Written, Cause, Children, Leavable, Closed, Reachable, Unseen, MayShow, DocumentOrder, Reached,
           Opened, Passed, Next, InPlace, Inside, PlaceOf, OnPath, Current, NoRepeats;
      ghost var stack0 := stack;
      assert (stack0 + [node])[..|stack0|] == stack0;
      NextIn(node);
      Facts(node);
      if tree {
        NewInOrder(node);
      }
      if node in visits {
        if visits[node] == Visiting {
          Cycle(node);
          return Some(AliasCycle);
        }
        return None;
      }
      Enter(node, tree);
      r := VisitNode(node, tree);
      if r.None? {
        Exit(node);
      }
    }

    /** The switch on the kind of a node that has just been coloured. */
    method VisitNode(node: YamlNode, ghost tree: bool) returns (r: Option<Error>)
      requires Valid() && Current(node)
      requires if tree then Inside(node) else ordered ==> g[node].kind == ScalarKind
      modifies this, g.Keys`value
      ensures r.None? ==> Leavable(node) && Advanced(old(stack), old(finished), old(Unseen()))
      ensures r.None? ==> if tree then Beyond(node) else ordered ==> visits.Keys == old(visits.Keys)
      ensures r.Some? ==> Cause(g, root, plan, ordered, budget, r.value)
      decreases Unseen(), 4
    {
      hide Valid, Written, Cause, Leavable, Closed, Reachable, Advanced, Unseen, MayShow, DocumentOrder, Opened, Passed;
      Facts(node);
      match node.kind
      case ScalarKind =>
        r := VisitScalar(node);
        if tree {
          Leaf(node);
        }
      case MappingKind => r := VisitMapping(node);
      case AliasKind => r := VisitAlias(node);
      case _ => r := VisitItems(node);
    }

    ghost predicate PartComes(node: YamlNode, part: YamlNode, i: nat)
      reads this
    {
      Current(node) && i < |g[node].content| && part == g[node].content[i] && part in Children(g[node])
      && InPlace(PlaceOf(node) + [i])
    }

    /** One item of a sequence or one value of a mapping, in its place. */
    method VisitPart(node: YamlNode, part: YamlNode, ghost i: nat) returns (r: Option<Error>)
      requires PartComes(node, part, i) && Valid()
      modifies this, g.Keys`value
      ensures r.None? ==> InPlace(PlaceOf(node) + [i + 1])
      ensures r.Some? ==> Cause(g, root, plan, ordered, budget, r.value)
      ensures r.None? ==> Valid() && Advanced(old(stack), old(finished), old(Unseen())) && part in finished
      decreases Unseen(), 1
    {
      hide Valid, Written, Cause, Reachable, MayShow, Unseen, InPlace, Inside, Beyond, PlaceOf, Children, Next,
           Closed, Advanced;
      Facts(node);
      NextChild(node, part);
      IntoPart(node, i);
      r := ResolveNode(part, true);
      if r.None? {
        ToNext(node, i);
      }
    }

    /** Documents and sequences. */
    method VisitItems(node: YamlNode) returns (r: Option<Error>)
      requires Valid() && Current(node) && (g[node].kind == DocumentKind || g[node].kind == SequenceKind)
      requires Inside(node)
      modifies this, g.Keys`value
      ensures r.None? ==> Leavable(node) && Advanced(old(stack), old(finished), old(Unseen())) && Beyond(node)
      ensures r.Some? ==> Cause(g, root, plan, ordered, budget, r.value)
      decreases Unseen(), 2
    {
      hide Valid, Written, Cause, Leavable, Closed, Reachable, MayShow, Unseen, InPlace, Inside, Beyond, PlaceOf,
           Walked, Within,
           Children, Sound, Next, Elements, NoRepeats;
      Facts(node);
      var content := node.content;
      ItemsAreContent(g, root, plan, ordered, node);
      ToFirst(node);
      WalkedNone(g[node], finished);
      for i := 0 to |content|
        invariant Valid() && Advanced(old(stack), old(finished), old(Unseen()))
        invariant Walked(g[node], i, finished) && InPlace(PlaceOf(node) + [i])
      {
        ghost var before := finished;
        r := VisitPart(node, content[i], i);
        if r.Some? {
          return;
        }
        WalkedMore(g[node], i, before, finished);
      }
      WalkedAll(g[node], finished);
      Facts(node);
      ToEnd(node);
      Leave(node);
      r := None;
    }

    lemma NextChild(node: YamlNode, child: YamlNode)
      requires Closed(g) && Current(node) && child in Children(g[node])
      ensures Next(g, root, stack, child)
    {
    }

    method VisitAlias(node: YamlNode) returns (r: Option<Error>)
      requires Valid() && Current(node) && g[node].kind == AliasKind && Inside(node)
      modifies this, g.Keys`value
      ensures r.None? ==> Leavable(node) && Advanced(old(stack), old(finished), old(Unseen())) && Beyond(node)
      ensures r.Some? ==> Cause(g, root, plan, ordered, budget, r.value)
      decreases Unseen(), 2
    {
      hide Valid, Written, Cause, Leavable, Closed, Reachable, MayShow, Unseen, DocumentOrder, Opened, Beyond;
      Facts(node);
      if node.target == null {
        Leaf(node);
        Leave(node);
        return None;
      }
      NextChild(node, node.target);
      if ordered {
        TargetKnown(g, root, at, visits.Keys, node);
      }
      r := ResolveNode(node.target, false);
      if r.None? {
        Leaf(node);
        Leave(node);
      }
    }

    ghost predicate KeysTaken(node: YamlNode, keys: set<string>, shown: seq<string>) {
      node in g && keys == Elements(shown) && KeysShown(g, root, plan, ordered, g[node], shown)
    }

    /** The entries of a mapping up to the last of these keys have been walked. */
    ghost predicate AfterKeys(node: YamlNode, keys: set<string>, shown: seq<string>)
      reads this`visits, this`finished
    {
      && KeysTaken(node, keys, shown)
      && Walked(g[node], |shown|, finished) && InPlace(PlaceOf(node) + [2 * |shown|])
    }

    /** One entry of a mapping: its key is compared, its value is visited. */
    method VisitEntry(node: YamlNode, key: YamlNode, value: YamlNode, keys: set<string>, ghost shown: seq<string>)
      returns (r: Option<Error>, more: set<string>, ghost now: seq<string>)
      requires Current(node) && g[node].kind == MappingKind && |g[node].content| % 2 == 0
      requires 2 * |shown| < |g[node].content|
      requires key == g[node].content[2 * |shown|] && value == g[node].content[2 * |shown| + 1]
      requires AfterKeys(node, keys, shown) && Valid()
      modifies this, g.Keys`value
      ensures r.Some? ==> Cause(g, root, plan, ordered, budget, r.value)
      ensures r.None? ==> |now| == |shown| + 1 && AfterKeys(node, more, now)
      ensures r.None? ==> Valid() && Advanced(old(stack), old(finished), old(Unseen()))
      decreases Unseen(), 2
    {
      hide Valid, Written, Cause, Leavable, Reachable, MayShow, KeysShown, Children, Sound, Next, Unseen, Elements,
           NoRepeats, Closed,
           InPlace, Inside, Beyond, PlaceOf, Walked, Within, KeyComes, PartComes;
      MappingValues(g[node]);
      KeyNext(node, key, 2 * |shown|);
      r := CheckKey(node, key, keys, shown);
      now, more := shown + [key.value], keys + {key.value};
      if r.None? {
        assert Children(g[node])[|shown|] == value;
        PartNext(node, value, 2 * |shown| + 1);
        ghost var before := finished;
        r := VisitPart(node, value, 2 * |shown| + 1);
        if r.None? {
          WalkedMore(g[node], |shown|, before, finished);
        }
      }
    }

    /** All entries have been walked. */
    lemma LeaveMapping(node: YamlNode, keys: set<string>, shown: seq<string>)
      requires Current(node) && g[node].kind == MappingKind && 2 * |shown| == |g[node].content|
      requires AfterKeys(node, keys, shown) && Valid()
      ensures Leavable(node) && Beyond(node)
    {
      hide Valid, Written, Leavable, Reachable, MayShow, KeysShown, Children, Sound, Elements, NoRepeats, Closed,
           InPlace, Beyond, PlaceOf, Walked, Within;
      Facts(node);
      MappingValues(g[node]);
      KeysDiffer(g, root, plan, ordered, node, shown);
      WalkedAll(g[node], finished);
      ToEnd(node);
      Leave(node);
    }

    /** Mappings: only the values are visited; a repeated key text is refused. */
    method VisitMapping(node: YamlNode) returns (r: Option<Error>)
      requires Valid() && Current(node) && g[node].kind == MappingKind && Inside(node)
      modifies this, g.Keys`value
      ensures r.None? ==> Leavable(node) && Advanced(old(stack), old(finished), old(Unseen())) && Beyond(node)
      ensures r.Some? ==> Cause(g, root, plan, ordered, budget, r.value)
      decreases Unseen(), 3
    {
      hide Valid, Written, Cause, Leavable, Reachable, MayShow, KeysShown, Children, Sound, Next, Unseen, Elements,
           NoRepeats, Closed,
           InPlace, Inside, Beyond, PlaceOf, Walked, Within, KeyComes, PartComes;
      Facts(node);
      ghost var s := g[node];
      var content := node.content;
      if |content| % 2 != 0 {
        OddContent(g, root, plan, ordered, budget, node);
        return Some(OddMapping);
      }
      MappingValues(s);
      var keys: set<string> := {};
      ghost var shown: seq<string> := [];
      var index := 0;
      NoKeysShown(g, root, plan, ordered, s);
      WalkedNone(s, finished);
      ToFirst(node);
      while index < |content|
        invariant 0 <= index <= |content| && 2 * |shown| == index
        invariant Valid() && Advanced(old(stack), old(finished), old(Unseen()))
        invariant AfterKeys(node, keys, shown)
        decreases |content| - index
      {
        r, keys, shown := VisitEntry(node, content[index], content[index + 1], keys, shown);
        if r.Some? {
          return;
        }
        index := index + 2;
      }
      LeaveMapping(node, keys, shown);
      r := None;
    }

    lemma KeyNext(node: YamlNode, key: YamlNode, i: nat)
      requires Current(node) && g[node].kind == MappingKind && |g[node].content| % 2 == 0
      requires i % 2 == 0 && i < |g[node].content| && key == g[node].content[i] && InPlace(PlaceOf(node) + [i])
      ensures KeyComes(node, key, i)
    {
      hide InPlace, PlaceOf;
    }

    lemma PartNext(node: YamlNode, part: YamlNode, i: nat)
      requires Current(node) && i < |g[node].content| && part == g[node].content[i] && part in Children(g[node])
      requires InPlace(PlaceOf(node) + [i])
      ensures PartComes(node, part, i)
    {
      hide InPlace, PlaceOf;
    }

    /** What a key shows when it is compared; in document order that is its own text. */
    lemma KeyText(node: YamlNode, i: nat)
      requires Valid() && node in g && i < |g[node].content| && InPlace(PlaceOf(node) + [i])
      ensures g[node].content[i] in g
      ensures MayShow(g, root, plan, ordered, g[node].content[i], g[node].content[i].value)
    {
      hide Valid, Written, Reachable, InPlace, PlaceOf, FinalText;
      Facts(node);
      Facts(g[node].content[i]);
      IntoPart(node, i);
      NewInOrder(g[node].content[i]);
    }

    /** The next key of a mapping, in its place. */
    ghost predicate KeyComes(node: YamlNode, key: YamlNode, i: nat)
      reads this
    {
      && Current(node) && g[node].kind == MappingKind && |g[node].content| % 2 == 0
      && i % 2 == 0 && i < |g[node].content| && key == g[node].content[i] && InPlace(PlaceOf(node) + [i])
    }

    ghost predicate KeyTaken(node: YamlNode, key: YamlNode, keys: set<string>, shown: seq<string>)
      reads this`visits, key`value
    {
      KeysTaken(node, keys + {key.value}, shown + [key.value]) && InPlace(PlaceOf(node) + [2 * |shown| + 1])
    }

    /** The checks on the next key of a mapping. */
    method CheckKey(node: YamlNode, key: YamlNode, keys: set<string>, ghost shown: seq<string>)
      returns (r: Option<Error>)
      requires KeysTaken(node, keys, shown) && KeyComes(node, key, 2 * |shown|) && Valid()
      ensures r.Some? ==> Cause(g, root, plan, ordered, budget, r.value)
      ensures r.None? ==> KeyTaken(node, key, keys, shown)
    {
      hide Valid, Written, Cause, Reachable, MayShow, KeysShown, Elements, Closed, InPlace, PlaceOf;
      Facts(node);
      Facts(key);
      KeyText(node, 2 * |shown|);
      if key.kind != ScalarKind {
        KeyNotScalar(g, root, plan, ordered, budget, node, 2 * |shown|);
        return Some(NonScalarKey);
      }
      if key.value in keys {
        KeysClash(g, root, plan, ordered, budget, node, shown, key.value);
        return Some(DuplicateKey);
      }
      OneMoreKey(g, root, plan, ordered, g[node], shown, key.value);
      OverKey(node, 2 * |shown|);
      r := None;
    }

    /** Scalars: only strings are checked or rewritten. */
    method VisitScalar(node: YamlNode) returns (r: Option<Error>)
      requires Valid() && Current(node) && g[node].kind == ScalarKind
      modifies this`remaining, this`references, node`value
      ensures r.None? ==> Leavable(node) && Advanced(old(stack), old(finished), old(Unseen()))
      ensures r.Some? ==> Cause(g, root, plan, ordered, budget, r.value)
    {
      hide Consistent, Cause, Closed, Reachable, MayShow, Unseen, RewriteText, FinalText, Charge, Sound, Children,
           Left, Written,
           LookupOf, ReferencesOf, Elements, DocumentOrder, Opened;
      Facts(node);
      ghost var before := Now();
      r := None;
      if node.tag == "!!str" {
        r := VisitString(node);
        if r.Some? {
          return;
        }
      }
      ScalarDone(g, root, plan, ordered, node);
      if node.tag != "!!str" {
        Unwritten(node);
      }
      Finish(g, root, plan, ordered, budget, before, remaining);
    }

    method VisitString(node: YamlNode) returns (r: Option<Error>)
      requires Valid() && Current(node) && IsText(g[node])
      modifies this`remaining, this`references, node`value
      ensures r.None? ==> RewriteText(g[node].text, plan).Rewritten? && Written(finished + [node])
      ensures r.None? ==> remaining + Charge(g[node], plan) == old(remaining)
      ensures r.Some? ==> Cause(g, root, plan, ordered, budget, r.value)
    {
      hide Cause, Valid, Written, RewriteText, Charge, IsText;
      if plan.Validating? {
        r := Collect(node);
      } else {
        r := RewriteString(node);
      }
    }

    /** A validation records the reference that the string spells, if it spells one. */
    method Collect(node: YamlNode) returns (r: Option<Error>)
      requires Valid() && Current(node) && IsText(g[node]) && plan.Validating?
      modifies this`references
      ensures r.None? ==>
                RewriteText(g[node].text, plan).Rewritten? && Written(finished + [node])
                && Charge(g[node], plan) == 0
      ensures r.Some? ==> Cause(g, root, plan, ordered, budget, r.value)
    {
      hide Cause, Closed, Reachable, MayShow, Valid, Written, ParseReference, ReferencesOf;
      Facts(node);
      match ParseReference(node.value)
      case Malformed =>
        TextRefused(g, root, plan, ordered, budget, node, BadReference);
        r := Some(BadReference);
      case Lookup(reference) =>
        Record(node, reference);
        r := None;
      case _ =>
        Unrecorded(node);
        r := None;
    }

    method Record(node: YamlNode, reference: Reference)
      requires Written(finished) && node in g && plan.Validating? && LookupOf(g[node]) == Some(reference)
      modifies this`references
      ensures Written(finished + [node])
    {
      hide ParseReference, LookupOf;
      OneMoreReference(node);
      references := references + {reference};
    }

    lemma Unrecorded(node: YamlNode)
      requires Written(finished) && node in g && plan.Validating? && LookupOf(g[node]).None?
      ensures Written(finished + [node])
    {
      hide ParseReference, LookupOf;
      OneMoreReference(node);
    }

    lemma OneMoreReference(node: YamlNode)
      requires node in g && plan.Validating?
      ensures FinalText(g[node], plan) == g[node].text
      ensures var found := LookupOf(g[node]);
              ReferencesOf(g, Elements(finished + [node]))
              == ReferencesOf(g, Elements(finished)) + if found.Some? then {found.value} else {}
    {
      hide ParseReference, LookupOf;
      ElementsAppend(finished, node);
    }

    /** A resolution puts the value in for the string and charges for it. */
    method RewriteString(node: YamlNode) returns (r: Option<Error>)
      requires Valid() && Current(node) && IsText(g[node]) && plan.Resolving?
      modifies this`remaining, node`value
      ensures r.None? ==> RewriteText(g[node].text, plan).Rewritten? && Written(finished + [node])
      ensures r.None? ==> remaining + Charge(g[node], plan) == old(remaining)
      ensures r.Some? ==> Cause(g, root, plan, ordered, budget, r.value)
    {
      hide Cause, Closed, Reachable, MayShow, RewriteText, FinalText, Charge, Valid, Written;
      Facts(node);
      match RewriteText(node.value, plan)
      case Refused(error) =>
        TextRefused(g, root, plan, ordered, budget, node, error);
        r := Some(error);
      case Rewritten(text, charge) =>
        ScalarDone(g, root, plan, ordered, node);
        if charge > remaining {
          TooMuch(node);
          return Some(TooLarge);
        }
        remaining := remaining - charge;
        Overwrite(node, text);
        r := None;
    }

    lemma TooMuch(node: YamlNode)
      requires Valid() && Current(node) && Charge(g[node], plan) > remaining
      ensures Cause(g, root, plan, ordered, budget, TooLarge)
    {
      hide Consistent, Cause, Charge;
      OverBudget(g, root, plan, ordered, budget, Now());
    }

    method Overwrite(node: YamlNode, text: string)
      requires node in g && Written(finished) && plan.Resolving? && text == FinalText(g[node], plan)
      modifies node`value
      ensures Written(finished + [node])
    {
      hide FinalText;
      node.value := text;
    }
  }
}
