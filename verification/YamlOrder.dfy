/** Document order. Every node of a parsed YAML document stands at a place, the indices into `content`
    that lead to it from the root, and an alias comes after the node it refers to (section 7.1 of YAML
    1.2.2). A walk that follows this order compares every mapping key before any alias can reach it. */
module YamlOrder {
  import opened YamlGraph

  type Place = seq<nat>

  /** In document order a node comes before its content. */
  predicate Before(p: Place, q: Place) {
    q != [] && (p == [] || p[0] < q[0] || (p[0] == q[0] && Before(p[1..], q[1..])))
  }

  lemma {:induction false} BeforeIrreflexive(p: Place)
    ensures !Before(p, p)
  {
    if p != [] {
      BeforeIrreflexive(p[1..]);
    }
  }

  lemma {:induction false} BeforeTransitive(p: Place, q: Place, r: Place)
    requires Before(p, q) && Before(q, r)
    ensures Before(p, r)
  {
    if p != [] && p[0] == q[0] == r[0] {
      BeforeTransitive(p[1..], q[1..], r[1..]);
    }
  }

  /** Between a place and its next sibling there is only what lies under it. */
  lemma {:induction false} BeforeSibling(p: Place, a: Place, i: nat)
    ensures Before(p, a + [i + 1]) <==> Before(p, a + [i]) || a + [i] <= p
  {
    if a != [] && p != [] {
      assert (a + [i + 1])[1..] == a[1..] + [i + 1] && (a + [i])[1..] == a[1..] + [i];
      BeforeSibling(p[1..], a[1..], i);
      if a + [i] <= p {
        assert a[1..] + [i] <= p[1..];
      }
    }
  }

  /** A place's first child comes right after it. */
  lemma {:induction false} BeforeFirst(p: Place, a: Place)
    ensures Before(p, a + [0]) <==> Before(p, a) || p == a
  {
    if a != [] && p != [] {
      assert (a + [0])[1..] == a[1..] + [0];
      BeforeFirst(p[1..], a[1..]);
      if p[0] == a[0] && p[1..] == a[1..] {
        assert p == [p[0]] + p[1..] && a == [a[0]] + a[1..];
      }
    }
  }

  lemma {:induction false} BeforeUnder(a: Place, q: Place, r: Place)
    ensures Before(a + q, a + r) <==> Before(q, r)
  {
    if a == [] {
      assert a + q == q && a + r == r;
    } else {
      assert (a + q)[1..] == a[1..] + q && (a + r)[1..] == a[1..] + r;
      BeforeUnder(a[1..], q, r);
    }
  }

  // ----- Documents -----

  ghost predicate IsPart<N>(g: Graph<N>, m: N, i: int, n: N)
    requires m in g
  {
    0 <= i < |g[m].content| && g[m].content[i] == n
  }

  ghost predicate HasParent<N>(g: Graph<N>, n: N) {
    exists m, i :: m in g && IsPart(g, m, i, n)
  }

  predicate PartPlaced<N>(g: Graph<N>, at: map<N, Place>, m: N, i: nat)
    requires at.Keys == g.Keys && m in g && i < |g[m].content|
  {
    g[m].content[i] in g && at[g[m].content[i]] == at[m] + [i]
  }

  /** The nodes are those of one document, at these places. */
  ghost predicate DocumentOrder<N>(g: Graph<N>, root: N, at: map<N, Place>) {
    && at.Keys == g.Keys && root in g && at[root] == []
    && (forall n, m | n in g && m in g && at[n] == at[m] :: n == m)
    && (forall m, i: nat | m in g && i < |g[m].content| :: PartPlaced(g, at, m, i))
    && (forall n | n in g && n != root :: HasParent(g, n))
    && (forall n | n in g && g[n].target.Some? :: g[n].target.value in g && Before(at[g[n].target.value], at[n]))
    && (forall n | n in g && (g[n].kind == ScalarKind || g[n].kind == AliasKind) :: g[n].content == [])
  }

  lemma PlacedNodes<N>(g: Graph<N>, root: N, at: map<N, Place>)
    requires DocumentOrder(g, root, at)
    ensures at.Keys == g.Keys
  {
  }

  lemma PartAt<N>(g: Graph<N>, root: N, at: map<N, Place>, m: N, i: nat)
    requires DocumentOrder(g, root, at) && m in g && i < |g[m].content|
    ensures g[m].content[i] in g && at[g[m].content[i]] == at[m] + [i]
  {
    assert PartPlaced(g, at, m, i);
  }

  /** A node that stands under another stands in some other node at a place no further up. */
  lemma ParentUnder<N>(g: Graph<N>, root: N, at: map<N, Place>, n: N, k: N, q: Place) returns (m: N)
    requires DocumentOrder(g, root, at) && at.Keys == g.Keys && n in g && k in g && at[n] == at[k] + q && q != []
    ensures m in g && at[m] == at[k] + q[..|q| - 1] && q[|q| - 1] < |g[m].content|
  {
    hide DocumentOrder;
    var i;
    m, i := ParentOf(g, root, at, n);
    assert at[k] + q == (at[k] + q[..|q| - 1]) + [q[|q| - 1]];
    LastSame(at[m], i, at[k] + q[..|q| - 1], q[|q| - 1]);
  }

  lemma ParentOf<N>(g: Graph<N>, root: N, at: map<N, Place>, n: N) returns (m: N, i: nat)
    requires DocumentOrder(g, root, at) && n in g && at[n] != []
    ensures at.Keys == g.Keys && m in g && i < |g[m].content| && at[n] == at[m] + [i]
  {
    assert HasParent(g, n);
    m, i :| m in g && IsPart(g, m, i, n);
    assert PartPlaced(g, at, m, i);
  }

  lemma LastSame(a: Place, i: nat, b: Place, j: nat)
    ensures a + [i] == b + [j] <==> a == b && i == j
  {
    if a + [i] == b + [j] {
      assert |a| == |b|;
      assert a == (a + [i])[..|a|] && b == (b + [j])[..|b|];
      assert i == (a + [i])[|a|] && j == (b + [j])[|b|];
    }
  }

  /** What stands under a node is under one of its parts. */
  lemma {:induction false} UnderPart<N>(g: Graph<N>, root: N, at: map<N, Place>, n: N, k: N, q: Place)
    requires DocumentOrder(g, root, at) && n in g && k in g && at[n] == at[k] + q && q != []
    ensures q[0] < |g[k].content|
    decreases |q|
  {
    var m := ParentUnder(g, root, at, n, k, q);
    if |q| == 1 {
      assert at[m] == at[k];
    } else {
      UnderPart(g, root, at, m, k, q[..|q| - 1]);
    }
  }

  // ----- How far a walk has come -----

  /** Everything visited stands before this place, and everything before it has been visited or is a scalar,
      which may have been passed over as a mapping key. */
  ghost predicate Reached<N>(g: Graph<N>, at: map<N, Place>, visited: set<N>, place: Place) {
    && at.Keys == g.Keys && visited <= g.Keys
    && (forall n | n in visited :: Before(at[n], place))
    && Covered(g, at, visited, place)
  }

  ghost predicate Covered<N>(g: Graph<N>, at: map<N, Place>, visited: set<N>, place: Place)
    requires at.Keys == g.Keys
  {
    forall n | n in g && Before(at[n], place) :: n in visited || g[n].kind == ScalarKind
  }

  /** The walk has just entered a node at its place. */
  ghost predicate Opened<N>(g: Graph<N>, at: map<N, Place>, visited: set<N>, node: N) {
    && at.Keys == g.Keys && visited <= g.Keys && node in visited
    && (forall n | n in visited :: n == node || Before(at[n], at[node]))
    && Covered(g, at, visited, at[node])
  }

  function NextPlace(place: Place): Place
    requires place != []
  {
    place[..|place| - 1] + [place[|place| - 1] + 1]
  }

  /** The walk has come past a node and all that stands under it; past the root there is nothing left. */
  ghost predicate Passed<N>(g: Graph<N>, at: map<N, Place>, visited: set<N>, node: N) {
    node in at && (at[node] != [] ==> Reached(g, at, visited, NextPlace(at[node])))
  }

  lemma NothingReached<N>(g: Graph<N>, root: N, at: map<N, Place>)
    requires DocumentOrder(g, root, at)
    ensures root in at && at[root] == [] && Reached(g, at, {}, [])
  {
  }

  /** In document order what comes next is new. */
  lemma NextIsNew<N>(g: Graph<N>, at: map<N, Place>, visited: set<N>, n: N)
    requires n in g && n in at && Reached(g, at, visited, at[n])
    ensures n !in visited
  {
    BeforeIrreflexive(at[n]);
  }

  lemma Open<N>(g: Graph<N>, at: map<N, Place>, visited: set<N>, node: N)
    requires node in g && node in at && Reached(g, at, visited, at[node])
    ensures Opened(g, at, visited + {node}, node)
  {
  }

  /** On to the first part of a node. */
  lemma FirstPart<N>(g: Graph<N>, root: N, at: map<N, Place>, visited: set<N>, node: N)
    requires DocumentOrder(g, root, at) && Opened(g, at, visited, node)
    ensures Reached(g, at, visited, at[node] + [0])
  {
    forall n | n in g ensures Before(at[n], at[node] + [0]) <==> Before(at[n], at[node]) || n == node {
      BeforeFirst(at[n], at[node]);
    }
  }

  /** On from one part to the next. */
  lemma NextPart<N>(g: Graph<N>, root: N, at: map<N, Place>, visited: set<N>, node: N, i: nat)
    requires DocumentOrder(g, root, at) && node in g && i < |g[node].content|
    requires g[node].content[i] in g && Passed(g, at, visited, g[node].content[i])
    ensures Reached(g, at, visited, at[node] + [i + 1])
  {
    hide Reached;
    PartAt(g, root, at, node, i);
    var place := at[node] + [i];
    assert place[..|place| - 1] == at[node];
  }

  /** Nothing stands under a node without parts. */
  lemma NothingUnder<N>(g: Graph<N>, root: N, at: map<N, Place>, key: N, n: N)
    requires DocumentOrder(g, root, at) && key in g && n in g && g[key].content == []
    ensures at[key] <= at[n] <==> n == key
  {
    if at[key] <= at[n] && n != key {
      assert at[n] == at[key] + at[n][|at[key]|..];
      UnderPart(g, root, at, n, key, at[n][|at[key]|..]);
    }
  }

  /** Past a mapping key, which is not visited. */
  lemma PastKey<N>(g: Graph<N>, root: N, at: map<N, Place>, visited: set<N>, node: N, i: nat)
    requires DocumentOrder(g, root, at) && node in g && i < |g[node].content|
    requires Reached(g, at, visited, at[node] + [i])
    requires g[node].content[i] in g && g[g[node].content[i]].kind == ScalarKind
    ensures Reached(g, at, visited, at[node] + [i + 1])
  {
    PartAt(g, root, at, node, i);
    var key := g[node].content[i];
    assert g[key].content == [];
    hide DocumentOrder;
    forall n | n in g ensures Before(at[n], at[node] + [i + 1]) <==> Before(at[n], at[node] + [i]) || n == key {
      BeforeSibling(at[n], at[node], i);
      NothingUnder(g, root, at, key, n);
    }
  }

  lemma NextPlaceIs(p: Place, a: Place)
    requires a != []
    ensures Before(p, NextPlace(a)) <==> Before(p, a) || a <= p
  {
    var b, i := a[..|a| - 1], a[|a| - 1];
    assert a == b + [i];
    BeforeSibling(p, b, i);
  }

  lemma PartsBeforeNext(p: Place, a: Place, k: nat)
    requires a != [] && Before(p, a + [k])
    ensures Before(p, NextPlace(a))
  {
    NextPlaceIs(a + [k], a);
    BeforeTransitive(p, a + [k], NextPlace(a));
  }

  /** Past the last part. */
  lemma AllParts<N>(g: Graph<N>, root: N, at: map<N, Place>, visited: set<N>, node: N)
    requires DocumentOrder(g, root, at) && node in visited && node in g
    requires Reached(g, at, visited, at[node] + [|g[node].content|])
    ensures Passed(g, at, visited, node)
  {
    hide DocumentOrder, Before, NextPlace;
    var a := at[node];
    if a != [] {
      forall n | n in g && Before(at[n], a + [|g[node].content|]) ensures Before(at[n], NextPlace(a)) {
        PartsBeforeNext(at[n], a, |g[node].content|);
      }
      forall n | n in g && Before(at[n], NextPlace(a)) ensures Before(at[n], a + [|g[node].content|]) {
        NextPlaceIs(at[n], a);
        PartsEnd(g, root, at, node, n);
      }
    }
  }

  /** What comes before a node, or stands under it, comes before the end of its parts. */
  lemma PartsEnd<N>(g: Graph<N>, root: N, at: map<N, Place>, node: N, n: N)
    requires DocumentOrder(g, root, at) && at.Keys == g.Keys && node in g && n in g
    requires Before(at[n], at[node]) || at[node] <= at[n]
    ensures Before(at[n], at[node] + [|g[node].content|])
  {
    hide DocumentOrder;
    var a, end := at[node], [|g[node].content|];
    assert a + [] == a;
    if a <= at[n] {
      var q := at[n][|a|..];
      assert at[n] == a + q;
      if q != [] {
        UnderPart(g, root, at, n, node, q);
      }
      BeforeUnder(a, q, end);
    } else {
      BeforeUnder(a, [], end);
      BeforeTransitive(at[n], a, a + end);
    }
  }

  /** A node without parts. */
  lemma NoParts<N>(g: Graph<N>, root: N, at: map<N, Place>, visited: set<N>, node: N)
    requires DocumentOrder(g, root, at) && Opened(g, at, visited, node) && g[node].content == []
    ensures Passed(g, at, visited, node)
  {
    FirstPart(g, root, at, visited, node);
    AllParts(g, root, at, visited, node);
  }

  /** Where an alias leads has been visited, or is a scalar. */
  lemma TargetKnown<N>(g: Graph<N>, root: N, at: map<N, Place>, visited: set<N>, node: N)
    requires DocumentOrder(g, root, at) && Opened(g, at, visited, node) && g[node].target.Some?
    ensures g[node].target.value in visited || g[g[node].target.value].kind == ScalarKind
    ensures Opened(g, at, visited + {g[node].target.value}, node)
  {
  }
}
