/** The graph of block nodes: backing links, parent lists and reference counts. */
module BlockGraph {
  import opened Options
  import opened Runs

  datatype Role = Backing | Other

  /** `BdrvChild`: an edge from a user (a parent node, or something outside the graph) to a node. */
  datatype Edge = Edge(bs: nat, parent: Option<nat>, role: Role)

  /** `BlockDriverState`: its backing edge, the edges that lead to it, and its reference count. */
  datatype Node = Node(backing: Option<nat>, parents: set<nat>, refcnt: nat)

  type Nodes = map<nat, Node>
  type Edges = map<nat, Edge>

  // ------------------------------------------------------------ well linked

  predicate EdgeOk(node: Nodes, edge: Edges, e: nat)
    requires e in edge
  {
    var x := edge[e];
    && x.bs in node && e in node[x.bs].parents
    && (x.role == Backing ==> x.parent.Some? && x.parent.value in node && node[x.parent.value].backing == Some(e))
    && (x.role == Other ==> x.parent.None?)
  }

  predicate IsBackingEdge(edge: Edges, e: nat, n: nat) {
    e in edge && edge[e].role == Backing && edge[e].parent == Some(n)
  }

  predicate NodeOk(node: Nodes, edge: Edges, n: nat)
    requires n in node
  {
    && (forall e :: e in node[n].parents ==> e in edge && edge[e].bs == n)
    && (node[n].backing.Some? ==> IsBackingEdge(edge, node[n].backing.value, n))
  }

  predicate Linked(node: Nodes, edge: Edges) {
    && (forall e {:trigger EdgeOk(node, edge, e)} :: e in edge ==> EdgeOk(node, edge, e))
    && (forall n {:trigger NodeOk(node, edge, n)} :: n in node ==> NodeOk(node, edge, n))
  }

  /** A node is referenced by each edge to it and by those outside the graph. */
  ghost predicate Counted(node: Nodes, outside: map<nat, nat>) {
    outside.Keys == node.Keys && forall n {:trigger CountOk(node, outside, n)} :: n in node ==> CountOk(node, outside, n)
  }

  ghost predicate CountOk(node: Nodes, outside: map<nat, nat>, n: nat) {
    n in node && n in outside && node[n].refcnt == |node[n].parents| + outside[n]
  }

  // ------------------------------------------------------------ backing chains

  /** `backing_bs`. */
  function BackingOf(node: Nodes, edge: Edges, n: nat): Option<nat>
    requires n in node
  {
    match node[n].backing
    case Some(e) => if e in edge then Some(edge[e].bs) else None
    case None => None
  }

  /** Ranks fall along every backing link. */
  ghost predicate Falls(node: Nodes, edge: Edges, rank: map<nat, nat>, n: nat)
    requires n in node
  {
    n in rank && match BackingOf(node, edge, n)
                 case Some(m) => m in node && m in rank && rank[m] < rank[n]
                 case None => true
  }

  ghost predicate Ranked(node: Nodes, edge: Edges, rank: map<nat, nat>) {
    node.Keys <= rank.Keys && forall n {:trigger Falls(node, edge, rank, n)} :: n in node ==> Falls(node, edge, rank, n)
  }

  /** The backing relation has no cycle. */
  ghost predicate Acyclic(node: Nodes, edge: Edges) {
    exists rank :: Ranked(node, edge, rank)
  }

  /** A walk along backing links. */
  ghost predicate IsPath(node: Nodes, edge: Edges, path: seq<nat>) {
    path != [] && path[0] in node
    && (|path| > 1 ==> BackingOf(node, edge, path[0]) == Some(path[1]) && IsPath(node, edge, path[1..]))
  }

  /** No walk of one step or more comes back to where it started. */
  lemma {:induction false} PathFalls(node: Nodes, edge: Edges, rank: map<nat, nat>, path: seq<nat>)
    requires Ranked(node, edge, rank) && IsPath(node, edge, path)
    ensures path[0] in rank && path[|path| - 1] in rank
    ensures |path| > 1 ==> rank[path[|path| - 1]] < rank[path[0]]
  {
    assert Falls(node, edge, rank, path[0]);
    if |path| > 1 {
      PathFalls(node, edge, rank, path[1..]);
    }
  }

  lemma NoCycle(node: Nodes, edge: Edges, path: seq<nat>)
    requires Acyclic(node, edge) && IsPath(node, edge, path) && |path| > 1
    ensures path[0] != path[|path| - 1]
  {
    var rank :| Ranked(node, edge, rank);
    PathFalls(node, edge, rank, path);
  }

  /** The node and everything below it. */
  ghost function Chain(node: Nodes, edge: Edges, rank: map<nat, nat>, n: nat): seq<nat>
    requires Ranked(node, edge, rank) && n in node
    decreases rank[n]
  {
    assert Falls(node, edge, rank, n);
    match BackingOf(node, edge, n)
    case None => [n]
    case Some(m) => [n] + Chain(node, edge, rank, m)
  }

  /** The chain does not depend on the ranks that show it is finite. */
  lemma {:induction false} ChainUnique(node: Nodes, edge: Edges, rank: map<nat, nat>, rank': map<nat, nat>, n: nat)
    requires Ranked(node, edge, rank) && Ranked(node, edge, rank') && n in node
    ensures Chain(node, edge, rank, n) == Chain(node, edge, rank', n)
    decreases rank[n]
  {
    assert Falls(node, edge, rank, n) && Falls(node, edge, rank', n);
    match BackingOf(node, edge, n)
    case None =>
    case Some(m) => ChainUnique(node, edge, rank, rank', m);
  }

  lemma AnyRanks(node: Nodes, edge: Edges, rank: map<nat, nat>, n: nat)
    requires Ranked(node, edge, rank) && n in node
    ensures forall r :: Ranked(node, edge, r) ==> Chain(node, edge, r, n) == Chain(node, edge, rank, n)
  {
    forall r | Ranked(node, edge, r)
      ensures Chain(node, edge, r, n) == Chain(node, edge, rank, n)
    {
      ChainUnique(node, edge, r, rank, n);
    }
  }

  lemma {:induction false} ChainInNodes(node: Nodes, edge: Edges, rank: map<nat, nat>, n: nat, x: nat)
    requires Ranked(node, edge, rank) && n in node && x in Chain(node, edge, rank, n)
    ensures x in node && rank[x] <= rank[n]
    decreases rank[n]
  {
    assert Falls(node, edge, rank, n);
    if x != n {
      ChainInNodes(node, edge, rank, BackingOf(node, edge, n).value, x);
    }
  }

  /** `bdrv_chain_contains`. */
  method ChainContains(node: Nodes, edge: Edges, ghost rank: map<nat, nat>, top: Option<nat>, base: nat) returns (found: bool)
    requires Ranked(node, edge, rank) && (top.Some? ==> top.value in node)
    ensures found <==> top.Some? && base in Chain(node, edge, rank, top.value)
  {
    var t := top;
    while t.Some? && t.value != base
      invariant t.Some? ==> t.value in node
      invariant (top.Some? && base in Chain(node, edge, rank, top.value)) <==> (t.Some? && base in Chain(node, edge, rank, t.value))
      decreases t.Some?, if t.Some? then rank[t.value] else 0
    {
      assert Falls(node, edge, rank, t.value);
      t := BackingOf(node, edge, t.value);
    }
    found := t.Some?;
  }

  // ------------------------------------------------------------ changing one backing link

  /** Only the backing link of `bs` changes; it now leads to `target`. */
  ghost predicate Relinked(node: Nodes, edge: Edges, node': Nodes, edge': Edges, bs: nat, target: Option<nat>) {
    && node'.Keys == node.Keys && bs in node && (target.Some? ==> target.value in node)
    && BackingOf(node', edge', bs) == target
    && forall n {:trigger SameAt(node, edge, node', edge', n)} :: n in node && n != bs ==> SameAt(node, edge, node', edge', n)
  }

  /** The backing link of one node is as it was. */
  ghost predicate SameAt(node: Nodes, edge: Edges, node': Nodes, edge': Edges, n: nat) {
    n in node && n in node' && node'[n].backing == node[n].backing && BackingOf(node', edge', n) == BackingOf(node, edge, n)
  }

  /** Ranks with everything above `bs` moved up. */
  ghost function Raised(node: Nodes, edge: Edges, rank: map<nat, nat>, bs: nat, delta: nat): map<nat, nat>
    requires Ranked(node, edge, rank)
  {
    map n | n in node :: if n in rank then rank[n] + (if bs in Chain(node, edge, rank, n) then delta else 0) else 0
  }

  lemma RaisedRanks(node: Nodes, edge: Edges, node': Nodes, edge': Edges, rank: map<nat, nat>, bs: nat, target: Option<nat>)
    requires Ranked(node, edge, rank) && Relinked(node, edge, node', edge', bs, target)
    requires target.Some? ==> bs !in Chain(node, edge, rank, target.value)
    ensures Ranked(node', edge', Raised(node, edge, rank, bs, if target.Some? then rank[target.value] + 1 else 0))
  {
    assert target.Some? ==> Falls(node, edge, rank, target.value);
    var rank' := Raised(node, edge, rank, bs, if target.Some? then rank[target.value] + 1 else 0);
    forall n | n in node'
      ensures Falls(node', edge', rank', n)
    {
      assert Falls(node, edge, rank, n);
      assert n != bs ==> SameAt(node, edge, node', edge', n);
      assert Chain(node, edge, rank, n) ==
             if BackingOf(node, edge, n).None? then [n] else [n] + Chain(node, edge, rank, BackingOf(node, edge, n).value);
    }
  }

  /** Below `bs` nothing changed, so a walk down to it is still there. */
  lemma {:induction false} StillAbove(node: Nodes, edge: Edges, node': Nodes, edge': Edges, rank: map<nat, nat>, rank': map<nat, nat>,
                                      bs: nat, target: Option<nat>, n: nat)
    requires Ranked(node, edge, rank) && Relinked(node, edge, node', edge', bs, target) && Ranked(node', edge', rank')
    requires n in node && bs in Chain(node, edge, rank, n)
    ensures n in rank' && bs in rank' && rank'[bs] <= rank'[n]
    decreases rank[n]
  {
    assert Falls(node, edge, rank, n) && Falls(node', edge', rank', n);
    if n != bs {
      assert SameAt(node, edge, node', edge', n);
      StillAbove(node, edge, node', edge', rank, rank', bs, target, BackingOf(node, edge, n).value);
    }
  }

  /** A new backing link keeps the graph free of cycles exactly when the node is not below its new backing node. */
  lemma RelinkAcyclicIff(node: Nodes, edge: Edges, node': Nodes, edge': Edges, rank: map<nat, nat>, bs: nat, target: Option<nat>)
    requires Ranked(node, edge, rank) && Relinked(node, edge, node', edge', bs, target)
    ensures Acyclic(node', edge') <==> !(target.Some? && bs in Chain(node, edge, rank, target.value))
  {
    if target.Some? && bs in Chain(node, edge, rank, target.value) {
      if Acyclic(node', edge') {
        var rank' :| Ranked(node', edge', rank');
        assert Falls(node', edge', rank', bs);
        StillAbove(node, edge, node', edge', rank, rank', bs, target, target.value);
      }
    } else {
      RaisedRanks(node, edge, node', edge', rank, bs, target);
    }
  }

  lemma {:induction false} ChainKept(node: Nodes, edge: Edges, node': Nodes, edge': Edges, rank: map<nat, nat>, rank': map<nat, nat>,
                                     bs: nat, target: Option<nat>, n: nat)
    requires Ranked(node, edge, rank) && Relinked(node, edge, node', edge', bs, target) && Ranked(node', edge', rank')
    requires n in node && bs !in Chain(node, edge, rank, n)
    ensures Chain(node', edge', rank', n) == Chain(node, edge, rank, n)
    decreases rank[n]
  {
    assert Falls(node, edge, rank, n) && Falls(node', edge', rank', n) && SameAt(node, edge, node', edge', n);
    if BackingOf(node, edge, n).Some? {
      ChainKept(node, edge, node', edge', rank, rank', bs, target, BackingOf(node, edge, n).value);
    }
  }

  // ------------------------------------------------------------ single updates

  /** Remove the backing edge `e` of `bs`. */
  function WithoutBacking(node: Nodes, edge: Edges, bs: nat): (Nodes, Edges)
    requires bs in node && node[bs].backing.Some? && node[bs].backing.value in edge && edge[node[bs].backing.value].bs in node
  {
    var e := node[bs].backing.value;
    var below := edge[e].bs;
    var node1 := node[below := node[below].(parents := node[below].parents - {e})];
    (node1[bs := node1[bs].(backing := None)], edge - {e})
  }

  /** Give `bs` the backing edge `e` to `b`. */
  function WithBacking(node: Nodes, edge: Edges, bs: nat, b: nat, e: nat): (Nodes, Edges)
    requires bs in node && b in node
  {
    var node1 := node[b := node[b].(parents := node[b].parents + {e})];
    (node1[bs := node1[bs].(backing := Some(e))], edge[e := Edge(b, Some(bs), Backing)])
  }

  lemma WithoutBackingLinked(node: Nodes, edge: Edges, bs: nat)
    requires Linked(node, edge) && bs in node && node[bs].backing.Some?
    ensures IsBackingEdge(edge, node[bs].backing.value, bs) && EdgeOk(node, edge, node[bs].backing.value)
    ensures var (node', edge') := WithoutBacking(node, edge, bs);
            Linked(node', edge') && Relinked(node, edge, node', edge', bs, None)
  {
    var e := node[bs].backing.value;
    assert NodeOk(node, edge, bs);
    assert EdgeOk(node, edge, e);
    var (node', edge') := WithoutBacking(node, edge, bs);
    forall x | x in edge'
      ensures EdgeOk(node', edge', x)
    {
      assert EdgeOk(node, edge, x);
    }
    forall n | n in node'
      ensures NodeOk(node', edge', n)
      ensures n != bs ==> SameAt(node, edge, node', edge', n)
    {
      assert NodeOk(node, edge, n);
    }
  }

  lemma WithBackingLinked(node: Nodes, edge: Edges, bs: nat, b: nat, e: nat)
    requires Linked(node, edge) && bs in node && b in node && node[bs].backing.None? && e !in edge
    ensures var (node', edge') := WithBacking(node, edge, bs, b, e);
            Linked(node', edge') && Relinked(node, edge, node', edge', bs, Some(b))
  {
    var (node', edge') := WithBacking(node, edge, bs, b, e);
    forall x | x in edge'
      ensures EdgeOk(node', edge', x)
    {
      if x != e { assert EdgeOk(node, edge, x); }
    }
    forall n | n in node'
      ensures NodeOk(node', edge', n)
      ensures n != bs ==> SameAt(node, edge, node', edge', n)
    {
      assert NodeOk(node, edge, n);
    }
  }

  /** Move edge `c` from `from` to `to`. */
  function Moved(node: Nodes, edge: Edges, c: nat, from: nat, to: nat): (Nodes, Edges)
    requires from in node && to in node && c in edge
  {
    var node1 := node[from := node[from].(parents := node[from].parents - {c})];
    (node1[to := node1[to].(parents := node1[to].parents + {c})], edge[c := edge[c].(bs := to)])
  }

  lemma MovedLinked(node: Nodes, edge: Edges, c: nat, from: nat, to: nat)
    requires Linked(node, edge) && from in node && to in node && c in node[from].parents
    ensures c in edge && edge[c].bs == from
    ensures edge[c].role != Backing ==> var (node', edge') := Moved(node, edge, c, from, to);
                                        Linked(node', edge') && SameBacking(node, edge, node', edge')
  {
    assert NodeOk(node, edge, from);
    var (node', edge') := Moved(node, edge, c, from, to);
    if edge[c].role != Backing {
      forall x | x in edge'
        ensures EdgeOk(node', edge', x)
      {
        assert EdgeOk(node, edge, x);
      }
      forall n | n in node'
        ensures NodeOk(node', edge', n) && SameAt(node, edge, node', edge', n)
      {
        assert NodeOk(node, edge, n);
      }
    }
  }

  ghost predicate SameBacking(node: Nodes, edge: Edges, node': Nodes, edge': Edges) {
    node'.Keys == node.Keys && forall n {:trigger SameAt(node, edge, node', edge', n)} :: n in node ==> SameAt(node, edge, node', edge', n)
  }

  lemma SameBackingRanked(node: Nodes, edge: Edges, node': Nodes, edge': Edges, rank: map<nat, nat>)
    requires SameBacking(node, edge, node', edge') && Ranked(node, edge, rank)
    ensures Ranked(node', edge', rank)
  {
    forall n | n in node'
      ensures Falls(node', edge', rank, n)
    {
      assert Falls(node, edge, rank, n) && SameAt(node, edge, node', edge', n);
    }
  }

  lemma {:induction false} SameBackingChain(node: Nodes, edge: Edges, node': Nodes, edge': Edges, rank: map<nat, nat>, n: nat)
    requires SameBacking(node, edge, node', edge') && Ranked(node, edge, rank) && Ranked(node', edge', rank) && n in node
    ensures Chain(node', edge', rank, n) == Chain(node, edge, rank, n)
    decreases rank[n]
  {
    assert Falls(node, edge, rank, n) && Falls(node', edge', rank, n) && SameAt(node, edge, node', edge', n);
    if BackingOf(node, edge, n).Some? {
      SameBackingChain(node, edge, node', edge', rank, BackingOf(node, edge, n).value);
    }
  }

  /** Only a reference count differs. */
  function WithCount(node: Nodes, n: nat, refcnt: nat): Nodes
    requires n in node
  {
    node[n := node[n].(refcnt := refcnt)]
  }

  lemma WithCountLinked(node: Nodes, edge: Edges, n: nat, refcnt: nat)
    requires Linked(node, edge) && n in node
    ensures Linked(WithCount(node, n, refcnt), edge) && SameBacking(node, edge, WithCount(node, n, refcnt), edge)
  {
    var node' := WithCount(node, n, refcnt);
    forall x | x in edge
      ensures EdgeOk(node', edge, x)
    {
      assert EdgeOk(node, edge, x);
    }
    forall m | m in node'
      ensures NodeOk(node', edge, m) && SameAt(node, edge, node', edge, m)
    {
      assert NodeOk(node, edge, m);
    }
  }

  lemma CountMoves(node: Nodes, n: nat, outside: map<nat, nat>, refcnt: nat, o: nat)
    requires Counted(node, outside) && n in node && refcnt - node[n].refcnt == o - outside[n]
    ensures Counted(WithCount(node, n, refcnt), outside[n := o])
  {
    forall m | m in node
      ensures CountOk(WithCount(node, n, refcnt), outside[n := o], m)
    {
      assert CountOk(node, outside, m);
    }
  }

  lemma RelinkedBySteps(n0: Nodes, e0: Edges, n1: Nodes, e1: Edges, n2: Nodes, e2: Edges, bs: nat, target: Option<nat>)
    requires SameBacking(n0, e0, n1, e1) && Relinked(n1, e1, n2, e2, bs, target)
    ensures Relinked(n0, e0, n2, e2, bs, target)
  {
    forall n | n in n0 && n != bs
      ensures SameAt(n0, e0, n2, e2, n)
    {
      assert SameAt(n0, e0, n1, e1, n) && SameAt(n1, e1, n2, e2, n);
    }
  }

  lemma RelinkedThenSame(n0: Nodes, e0: Edges, n1: Nodes, e1: Edges, n2: Nodes, e2: Edges, bs: nat, target: Option<nat>)
    requires Relinked(n0, e0, n1, e1, bs, target) && SameBacking(n1, e1, n2, e2)
    ensures Relinked(n0, e0, n2, e2, bs, target)
  {
    assert SameAt(n1, e1, n2, e2, bs);
    forall n | n in n0 && n != bs
      ensures SameAt(n0, e0, n2, e2, n)
    {
      assert SameAt(n0, e0, n1, e1, n) && SameAt(n1, e1, n2, e2, n);
    }
  }

  /** Every edge is as it was, except that the old backing edge of `bs` may be gone and a new one there. */
  predicate EdgesKept(edge: Edges, edge': Edges, gone: Option<nat>) {
    forall c :: c in edge && gone != Some(c) ==> c in edge' && edge'[c] == edge[c]
  }

  lemma WithoutBackingCounted(node: Nodes, edge: Edges, bs: nat, outside: map<nat, nat>)
    requires Linked(node, edge) && bs in node && node[bs].backing.Some? && Counted(node, outside)
    ensures IsBackingEdge(edge, node[bs].backing.value, bs) && EdgeOk(node, edge, node[bs].backing.value)
    ensures var below := edge[node[bs].backing.value].bs;
            Counted(WithoutBacking(node, edge, bs).0, outside[below := outside[below] + 1])
  {
    WithoutBackingLinked(node, edge, bs);
    var e := node[bs].backing.value;
    var below, node' := edge[e].bs, WithoutBacking(node, edge, bs).0;
    forall n | n in node
      ensures CountOk(node', outside[below := outside[below] + 1], n)
    {
      assert CountOk(node, outside, n);
      if n == below {
        assert node[below].parents == node'[below].parents + {e} && e !in node'[below].parents;
      }
    }
  }

  lemma WithBackingCounted(node: Nodes, edge: Edges, bs: nat, b: nat, e: nat, outside: map<nat, nat>)
    requires Linked(node, edge) && bs in node && b in node && e !in edge && Counted(node, outside) && outside[b] > 0
    ensures Counted(WithBacking(node, edge, bs, b, e).0, outside[b := outside[b] - 1])
  {
    var node' := WithBacking(node, edge, bs, b, e).0;
    assert NodeOk(node, edge, b);
    forall n | n in node
      ensures CountOk(node', outside[b := outside[b] - 1], n)
    {
      assert CountOk(node, outside, n);
      if n == b {
        assert node'[b].parents == node[b].parents + {e} && e !in node[b].parents;
      }
    }
  }

  ghost predicate Consistent(node: Nodes, edge: Edges, outside: map<nat, nat>, nextEdge: nat) {
    Linked(node, edge) && Counted(node, outside) && forall e :: e in edge ==> e < nextEdge
  }

  lemma UnlinkOk(node: Nodes, edge: Edges, bs: nat, outside: map<nat, nat>, nextEdge: nat, node': Nodes, edge': Edges, below: nat)
    requires Consistent(node, edge, outside, nextEdge) && bs in node && node[bs].backing.Some?
    requires IsBackingEdge(edge, node[bs].backing.value, bs) && EdgeOk(node, edge, node[bs].backing.value)
    requires (node', edge') == WithoutBacking(node, edge, bs) && below == edge[node[bs].backing.value].bs
    ensures Consistent(node', edge', outside[below := outside[below] + 1], nextEdge) && Relinked(node, edge, node', edge', bs, None)
    ensures node'[bs].backing.None? && EdgesKept(edge, edge', node[bs].backing)
  {
    WithoutBackingLinked(node, edge, bs);
    WithoutBackingCounted(node, edge, bs, outside);
  }

  lemma LinkOk(node: Nodes, edge: Edges, bs: nat, b: nat, outside: map<nat, nat>, e: nat, node': Nodes, edge': Edges)
    requires Consistent(node, edge, outside, e) && bs in node && b in node && node[bs].backing.None? && outside[b] > 0
    requires (node', edge') == WithBacking(node, edge, bs, b, e)
    ensures Consistent(node', edge', outside[b := outside[b] - 1], e + 1) && Relinked(node, edge, node', edge', bs, Some(b))
    ensures EdgesKept(edge, edge', None)
  {
    assert e !in edge;
    WithBackingLinked(node, edge, bs, b, e);
    WithBackingCounted(node, edge, bs, b, e, outside);
  }

  /** One round of `change_parent_backing_link`: the edge moves, and its reference with it. */
  function MoveStep(node: Nodes, edge: Edges, c: nat, from: nat, to: nat): (Nodes, Edges)
    requires from in node && to in node && c in edge
    requires WithCount(Moved(node, edge, c, from, to).0, to, Moved(node, edge, c, from, to).0[to].refcnt + 1)[from].refcnt > 0
  {
    var (node1, edge1) := Moved(node, edge, c, from, to);
    var node2 := WithCount(node1, to, node1[to].refcnt + 1);
    (WithCount(node2, from, node2[from].refcnt - 1), edge1)
  }

  lemma MoveStepOk(node: Nodes, edge: Edges, c: nat, from: nat, to: nat, outside: map<nat, nat>)
    requires Linked(node, edge) && Counted(node, outside) && from in node && to in node && c in node[from].parents && outside[from] > 0
    requires c in edge && edge[c].role == Other
    ensures node[from].refcnt > 1
    ensures var (node', edge') := MoveStep(node, edge, c, from, to);
            && Linked(node', edge') && Counted(node', outside) && SameBacking(node, edge, node', edge')
            && edge' == edge[c := edge[c].(bs := to)] && c in node'[to].parents
            && (from != to ==> node'[from].parents == node[from].parents - {c} && node'[to].parents == node[to].parents + {c})
            && (from == to ==> node'[to].parents == node[to].parents)
            && (forall n :: n in node && n != from && n != to ==> node'[n] == node[n])
  {
    MovedLinked(node, edge, c, from, to);
    var (node1, edge1) := Moved(node, edge, c, from, to);
    WithCountLinked(node1, edge1, to, node1[to].refcnt + 1);
    var node2 := WithCount(node1, to, node1[to].refcnt + 1);
    MoveCounts(node, edge, c, from, to, outside);
    WithCountLinked(node2, edge1, from, node2[from].refcnt - 1);
    var node3 := WithCount(node2, from, node2[from].refcnt - 1);
    SameBackingTrans(node, edge, node1, edge1, node2, edge1);
    SameBackingTrans(node, edge, node2, edge1, node3, edge1);
  }

  lemma MoveCounts(node: Nodes, edge: Edges, c: nat, from: nat, to: nat, outside: map<nat, nat>)
    requires Linked(node, edge) && Counted(node, outside) && from in node && to in node && c in node[from].parents && outside[from] > 0
    requires c in edge
    ensures node[from].refcnt > 1 && Counted(MoveStep(node, edge, c, from, to).0, outside)
  {
    assert NodeOk(node, edge, from) && NodeOk(node, edge, to);
    assert CountOk(node, outside, from) && CountOk(node, outside, to);
    assert node[from].parents == (node[from].parents - {c}) + {c};
    var node' := MoveStep(node, edge, c, from, to).0;
    forall n | n in node
      ensures CountOk(node', outside, n)
    {
      assert CountOk(node, outside, n);
      if from == to {
        assert node'[to].parents == node[to].parents;
      } else if n == to {
        assert c !in node[to].parents && node'[to].parents == node[to].parents + {c};
      }
    }
  }

  // ------------------------------------------------------------ deletion

  /** Exactly the nodes that are being deleted have no reference left. */
  ghost predicate Live(node: Nodes, dying: set<nat>) {
    forall n {:trigger LiveAt(node, dying, n)} :: n in node ==> LiveAt(node, dying, n)
  }

  ghost predicate LiveAt(node: Nodes, dying: set<nat>, n: nat)
    requires n in node
  {
    node[n].refcnt > 0 <==> n !in dying
  }

  /** The nodes that go when one reference to `n` goes: `n` itself if it was the last, and then down the chain. */
  ghost function Freed(node: Nodes, edge: Edges, rank: map<nat, nat>, n: nat): set<nat>
    decreases if n in rank then rank[n] else 0
  {
    if n !in node || node[n].refcnt > 1 then {} else {n} + FreedBelow(node, edge, rank, n)
  }

  /** The nodes that go when `bs` loses its backing edge. */
  ghost function FreedBelow(node: Nodes, edge: Edges, rank: map<nat, nat>, bs: nat): set<nat>
    requires bs in node
    decreases if bs in rank then rank[bs] else 0, 0
  {
    match BackingOf(node, edge, bs)
    case Some(m) => if bs in rank && m in rank && rank[m] < rank[bs] then Freed(node, edge, rank, m) else {}
    case None => {}
  }

  /** What goes is not above where the deletion starts. */
  lemma {:induction false} FreedRanks(node: Nodes, edge: Edges, rank: map<nat, nat>, n: nat)
    requires Ranked(node, edge, rank) && n in node
    ensures forall x :: x in Freed(node, edge, rank, n) ==> x in node && rank[x] <= rank[n]
    decreases rank[n]
  {
    assert Falls(node, edge, rank, n);
    if BackingOf(node, edge, n).Some? {
      FreedRanks(node, edge, rank, BackingOf(node, edge, n).value);
    }
  }

  /** Only what is at or below `n` decides what goes. */
  lemma {:induction false} FreedSame(node: Nodes, edge: Edges, node': Nodes, edge': Edges, rank: map<nat, nat>, n: nat)
    requires Ranked(node, edge, rank) && n in node
    requires forall x {:trigger SameAt(node, edge, node', edge', x)} :: x in node && rank[x] <= rank[n] ==>
               SameAt(node, edge, node', edge', x) && node'[x].refcnt == node[x].refcnt
    ensures Freed(node', edge', rank, n) == Freed(node, edge, rank, n)
    decreases rank[n]
  {
    assert Falls(node, edge, rank, n) && SameAt(node, edge, node', edge', n);
    if BackingOf(node, edge, n).Some? {
      FreedSame(node, edge, node', edge', rank, BackingOf(node, edge, n).value);
    }
  }

  lemma {:induction false} FreedCounts(node: Nodes, edge: Edges, rank: map<nat, nat>, n: nat)
    ensures forall x :: x in Freed(node, edge, rank, n) ==> x in node && node[x].refcnt <= 1
    decreases if n in rank then rank[n] else 0
  {
    if n in node && node[n].refcnt <= 1 {
      match BackingOf(node, edge, n)
      case None =>
      case Some(m) =>
        if n in rank && m in rank && rank[m] < rank[n] { FreedCounts(node, edge, rank, m); }
    }
  }

  lemma BelowRanks(node: Nodes, edge: Edges, rank: map<nat, nat>, n: nat)
    requires Ranked(node, edge, rank) && n in node
    ensures n !in FreedBelow(node, edge, rank, n)
  {
    assert Falls(node, edge, rank, n);
    if BackingOf(node, edge, n).Some? {
      FreedRanks(node, edge, rank, BackingOf(node, edge, n).value);
    }
  }

  /** The count of `n` has no part in what goes below it. */
  lemma BelowSame(node: Nodes, node': Nodes, edge: Edges, rank: map<nat, nat>, n: nat)
    requires Ranked(node, edge, rank) && n in node && SameBacking(node, edge, node', edge)
    requires forall x :: x in node && x != n ==> node'[x].refcnt == node[x].refcnt
    ensures FreedBelow(node', edge, rank, n) == FreedBelow(node, edge, rank, n)
  {
    assert Falls(node, edge, rank, n) && SameAt(node, edge, node', edge, n);
    if BackingOf(node, edge, n).Some? {
      FreedSame(node, edge, node', edge, rank, BackingOf(node, edge, n).value);
    }
  }

  lemma UnlinkedBelow(node: Nodes, edge: Edges, node': Nodes, edge': Edges, rank: map<nat, nat>, bs: nat, below: nat)
    requires Ranked(node, edge, rank) && Relinked(node, edge, node', edge', bs, None) && BackingOf(node, edge, bs) == Some(below)
    requires forall x :: x in node ==> node'[x].refcnt == node[x].refcnt
    ensures Ranked(node', edge', rank) && Freed(node', edge', rank, below) == FreedBelow(node, edge, rank, bs)
  {
    assert Falls(node, edge, rank, bs);
    forall n | n in node'
      ensures Falls(node', edge', rank, n)
    {
      assert Falls(node, edge, rank, n);
      assert n != bs ==> SameAt(node, edge, node', edge', n);
    }
    FreedSame(node, edge, node', edge', rank, below);
  }

  /** The nodes `gone` are gone, with the edges from them; every other node has the backing link it had. */
  ghost predicate Pruned(node: Nodes, edge: Edges, node': Nodes, edge': Edges, gone: set<nat>) {
    && node'.Keys == node.Keys - gone
    && (forall n {:trigger SameAt(node, edge, node', edge', n)} :: n in node' ==> SameAt(node, edge, node', edge', n))
    && edge'.Keys <= edge.Keys && forall c :: c in edge ==> if FromGone(edge[c], gone) then c !in edge' else c in edge' && edge'[c] == edge[c]
  }

  predicate FromGone(e: Edge, gone: set<nat>) { e.parent.Some? && e.parent.value in gone }

  lemma PrunedNone(node: Nodes, edge: Edges, node': Nodes, edge': Edges)
    requires Pruned(node, edge, node', edge', {})
    ensures SameBacking(node, edge, node', edge') && edge' == edge
  {
  }

  lemma PrunedAfterSame(n0: Nodes, n1: Nodes, edge: Edges, n2: Nodes, e2: Edges, gone: set<nat>)
    requires SameBacking(n0, edge, n1, edge) && Pruned(n1, edge, n2, e2, gone)
    ensures Pruned(n0, edge, n2, e2, gone)
  {
    forall n | n in n2
      ensures SameAt(n0, edge, n2, e2, n)
    {
      assert SameAt(n0, edge, n1, edge, n) && SameAt(n1, edge, n2, e2, n);
    }
  }

  /** Like `Pruned`, and `bs` has lost its backing edge. */
  ghost predicate Dropped(node: Nodes, edge: Edges, node': Nodes, edge': Edges, bs: nat, gone: set<nat>) {
    && node'.Keys == node.Keys - gone && bs in node' && bs in node && node'[bs].backing.None?
    && (forall n {:trigger SameAt(node, edge, node', edge', n)} :: n in node' && n != bs ==> SameAt(node, edge, node', edge', n))
    && edge'.Keys <= edge.Keys
    && forall c :: c in edge ==> if FromGone(edge[c], gone) || node[bs].backing == Some(c) then c !in edge' else c in edge' && edge'[c] == edge[c]
  }

  lemma DroppedBySteps(n0: Nodes, e0: Edges, n1: Nodes, e1: Edges, n2: Nodes, e2: Edges, bs: nat, gone: set<nat>)
    requires bs in n0 && n0[bs].backing.Some? && n0[bs].backing.value in e0 && bs !in gone
    requires Relinked(n0, e0, n1, e1, bs, None) && n1[bs].backing.None? && e1 == e0 - {n0[bs].backing.value}
    requires Pruned(n1, e1, n2, e2, gone)
    ensures Dropped(n0, e0, n2, e2, bs, gone)
  {
    assert SameAt(n1, e1, n2, e2, bs);
    forall n | n in n2 && n != bs
      ensures SameAt(n0, e0, n2, e2, n)
    {
      assert SameAt(n0, e0, n1, e1, n) && SameAt(n1, e1, n2, e2, n);
    }
  }

  lemma DroppedAfterSame(n0: Nodes, n1: Nodes, edge: Edges, n2: Nodes, e2: Edges, bs: nat, gone: set<nat>)
    requires SameBacking(n0, edge, n1, edge) && Dropped(n1, edge, n2, e2, bs, gone)
    ensures Dropped(n0, edge, n2, e2, bs, gone)
  {
    assert SameAt(n0, edge, n1, edge, bs);
    forall n | n in n2 && n != bs
      ensures SameAt(n0, edge, n2, e2, n)
    {
      assert SameAt(n0, edge, n1, edge, n) && SameAt(n1, edge, n2, e2, n);
    }
  }

  lemma DroppedThenRemoved(n0: Nodes, e0: Edges, n1: Nodes, e1: Edges, n2: Nodes, bs: nat, gone: set<nat>)
    requires Dropped(n0, e0, n1, e1, bs, gone) && n2 == n1 - {bs} && Linked(n0, e0)
    ensures Pruned(n0, e0, n2, e1, {bs} + gone)
  {
    assert NodeOk(n0, e0, bs);
    forall c | c in e0
      ensures e0[c].parent == Some(bs) <==> n0[bs].backing == Some(c)
    {
      assert EdgeOk(n0, e0, c);
    }
    forall n | n in n2
      ensures SameAt(n0, e0, n2, e1, n)
    {
      assert SameAt(n0, e0, n1, e1, n);
    }
  }

  /** A node without backing link and without references can be removed. */
  lemma RemoveOk(node: Nodes, edge: Edges, outside: map<nat, nat>, nextEdge: nat, rank: map<nat, nat>, n: nat)
    requires Consistent(node, edge, outside, nextEdge) && Ranked(node, edge, rank)
    requires n in node && node[n].backing.None? && node[n].refcnt == 0
    ensures Consistent(node - {n}, edge, outside - {n}, nextEdge) && Ranked(node - {n}, edge, rank)
  {
    var node', outside' := node - {n}, outside - {n};
    assert CountOk(node, outside, n);
    assert node[n].parents == {};
    forall e | e in edge
      ensures EdgeOk(node', edge, e)
    {
      assert EdgeOk(node, edge, e);
    }
    forall m | m in node'
      ensures NodeOk(node', edge, m) && CountOk(node', outside', m) && Falls(node', edge, rank, m)
    {
      assert NodeOk(node, edge, m) && CountOk(node, outside, m) && Falls(node, edge, rank, m);
      if node[m].backing.Some? { assert EdgeOk(node, edge, node[m].backing.value); }
    }
  }

  lemma LiveUpdate(node: Nodes, node': Nodes, dying: set<nat>)
    requires Live(node, dying)
    requires forall n :: n in node' ==> (n in node && node'[n].refcnt == node[n].refcnt) || (n !in dying && node'[n].refcnt > 0)
    ensures Live(node', dying)
  {
    forall n | n in node'
      ensures LiveAt(node', dying, n)
    {
      if n in node { assert LiveAt(node, dying, n); }
    }
  }

  lemma DyingUpdate(node: Nodes, node': Nodes, dying: set<nat>, dying': set<nat>, n: nat)
    requires Live(node, dying) && n in node && node[n].refcnt > 0 && node' == WithCount(node, n, node[n].refcnt - 1)
    requires dying' == if node'[n].refcnt == 0 then dying + {n} else dying
    ensures Live(node', dying')
  {
    forall m | m in node'
      ensures LiveAt(node', dying', m)
    {
      assert LiveAt(node, dying, m);
    }
  }

  lemma LiveRemoved(node: Nodes, node': Nodes, dying: set<nat>, n: nat)
    requires Live(node, dying) && node' == node - {n}
    ensures Live(node', dying - {n})
  {
    forall m | m in node'
      ensures LiveAt(node', dying - {n}, m)
    {
      assert LiveAt(node, dying, m);
    }
  }

  // ------------------------------------------------------------ a new backing node

  /** One more reference to the node that is to back another. */
  function WithRef(node: Nodes, target: Option<nat>): Nodes
    requires target.Some? ==> target.value in node
  {
    if target.Some? then WithCount(node, target.value, node[target.value].refcnt + 1) else node
  }

  /** The nodes `gone` are gone and `bs` is backed by `target`; every other node has the backing link it had. */
  ghost predicate Rebacked(node: Nodes, edge: Edges, node': Nodes, edge': Edges, bs: nat, target: Option<nat>, gone: set<nat>) {
    && node'.Keys == node.Keys - gone && bs in node && bs in node' && (target.Some? ==> target.value in node')
    && BackingOf(node', edge', bs) == target
    && (forall n {:trigger SameAt(node, edge, node', edge', n)} :: n in node' && n != bs ==> SameAt(node, edge, node', edge', n))
    && forall c :: c in edge && !FromGone(edge[c], gone) && node[bs].backing != Some(c) ==> c in edge' && edge'[c] == edge[c]
  }

  lemma RebackedNone(node: Nodes, edge: Edges, node': Nodes, edge': Edges, bs: nat, target: Option<nat>, outside: map<nat, nat>)
    requires Rebacked(node, edge, node', edge', bs, target, {})
    ensures Relinked(node, edge, node', edge', bs, target) && EdgesKept(edge, edge', node[bs].backing)
    ensures outside - {} == outside
  {
  }

  lemma RebackedBySteps(n0: Nodes, e0: Edges, n1: Nodes, e1: Edges, n2: Nodes, e2: Edges, bs: nat, b: nat, gone: set<nat>)
    requires Dropped(n0, e0, n1, e1, bs, gone) && Relinked(n1, e1, n2, e2, bs, Some(b)) && EdgesKept(e1, e2, None)
    ensures Rebacked(n0, e0, n2, e2, bs, Some(b), gone)
  {
    forall n | n in n2 && n != bs
      ensures SameAt(n0, e0, n2, e2, n)
    {
      assert SameAt(n0, e0, n1, e1, n) && SameAt(n1, e1, n2, e2, n);
    }
  }

  /** Neither the node nor its new backing node, which has its reference by then, goes with the old edge. */
  lemma TargetStays(node: Nodes, edge: Edges, rank: map<nat, nat>, bs: nat, target: Option<nat>)
    requires Linked(node, edge) && Ranked(node, edge, rank) && Live(node, {}) && bs in node && (target.Some? ==> target.value in node)
    ensures var gone := FreedBelow(WithRef(node, target), edge, rank, bs);
            bs !in gone && (target.Some? ==> target.value !in gone)
  {
    var node' := WithRef(node, target);
    if target.Some? {
      WithCountLinked(node, edge, target.value, node[target.value].refcnt + 1);
      SameBackingRanked(node, edge, node', edge, rank);
      assert LiveAt(node, {}, target.value);
    }
    BelowRanks(node', edge, rank, bs);
    if BackingOf(node', edge, bs).Some? {
      FreedCounts(node', edge, rank, BackingOf(node', edge, bs).value);
    }
  }

  /** A walk that comes to `bs` does so with or without what was below it. */
  lemma {:induction false} AboveKept(node: Nodes, edge: Edges, node': Nodes, edge': Edges, rank: map<nat, nat>, bs: nat, gone: set<nat>, n: nat)
    requires Ranked(node, edge, rank) && Ranked(node', edge', rank) && Dropped(node, edge, node', edge', bs, gone) && n in node'
    ensures n in node && (bs in Chain(node', edge', rank, n) <==> bs in Chain(node, edge, rank, n))
    decreases rank[n]
  {
    assert Falls(node', edge', rank, n);
    if n != bs {
      assert SameAt(node, edge, node', edge', n);
      assert Falls(node, edge, rank, n);
      if BackingOf(node, edge, n).Some? {
        AboveKept(node, edge, node', edge', rank, bs, gone, BackingOf(node, edge, n).value);
      }
    }
  }

  lemma GivenBack(outside: map<nat, nat>, b: nat, gone: set<nat>)
    requires b in outside && b !in gone
    ensures var mid := outside[b := outside[b] + 1] - gone; b in mid && mid[b := mid[b] - 1] == outside - gone
  {
  }

  // ------------------------------------------------------------ nothing leaks

  /** Somebody outside the graph uses the node, through a reference or an edge. */
  ghost predicate Rooted(node: Nodes, edge: Edges, held: map<nat, nat>, n: nat)
    requires n in node
  {
    (n in held && held[n] > 0) || exists e :: e in node[n].parents && e in edge && edge[e].role == Other
  }

  /** The node is on the backing chain of a node that somebody uses. */
  ghost predicate InUse(node: Nodes, edge: Edges, held: map<nat, nat>, n: nat) {
    exists path :: IsPath(node, edge, path) && path[|path| - 1] == n && Rooted(node, edge, held, path[0])
  }

  lemma NothingLeaks(node: Nodes, edge: Edges, rank: map<nat, nat>, held: map<nat, nat>)
    requires Linked(node, edge) && Counted(node, held) && Live(node, {}) && Ranked(node, edge, rank)
    ensures forall n :: n in node ==> InUse(node, edge, held, n)
  {
    forall n | n in node
      ensures InUse(node, edge, held, n)
    {
      var path := PathFromUser(node, edge, rank, held, n, node.Keys);
    }
  }

  lemma {:induction false} PathFromUser(node: Nodes, edge: Edges, rank: map<nat, nat>, held: map<nat, nat>, n: nat, above: set<nat>) returns (path: seq<nat>)
    requires Linked(node, edge) && Counted(node, held) && Live(node, {}) && Ranked(node, edge, rank) && n in node
    requires above <= node.Keys && forall m :: m in node && rank[m] > rank[n] ==> m in above
    ensures IsPath(node, edge, path) && path[|path| - 1] == n && Rooted(node, edge, held, path[0])
    decreases above
  {
    assert LiveAt(node, {}, n) && CountOk(node, held, n) && NodeOk(node, edge, n);
    if Rooted(node, edge, held, n) {
      path := [n];
    } else {
      assert node[n].parents != {};
      var e :| e in node[n].parents;
      assert EdgeOk(node, edge, e);
      var m := edge[e].parent.value;
      assert BackingOf(node, edge, m) == Some(n) && Falls(node, edge, rank, m);
      var up := PathFromUser(node, edge, rank, held, m, above - {m});
      path := up + [n];
      PathExtends(node, edge, up, n);
    }
  }

  lemma {:induction false} PathExtends(node: Nodes, edge: Edges, path: seq<nat>, n: nat)
    requires IsPath(node, edge, path) && path[|path| - 1] in node && BackingOf(node, edge, path[|path| - 1]) == Some(n) && n in node
    ensures IsPath(node, edge, path + [n])
  {
    if |path| > 1 {
      PathExtends(node, edge, path[1..], n);
      assert (path + [n])[1..] == path[1..] + [n];
    } else {
      assert path + [n] == [path[0], n] && (path + [n])[1..] == [n];
    }
  }

  // ------------------------------------------------------------ the operations

  /** A user outside the graph has an edge of its own to `n`. */
  predicate RootAttached(node: Nodes, edge: Edges, node': Nodes, edge': Edges, n: nat, e: nat)
    requires n in node
  {
    e !in edge && edge' == edge[e := Edge(n, None, Other)] && node' == node[n := node[n].(parents := node[n].parents + {e})]
  }

  /** `added` stands on top of the chain of `top`, its users are those `top` had, and other chains are as they were. */
  ghost predicate TopAdded(node: Nodes, edge: Edges, rank: map<nat, nat>, node': Nodes, edge': Edges, rank': map<nat, nat>, added: nat, top: nat)
    requires Ranked(node, edge, rank) && Ranked(node', edge', rank') && added in node && top in node && node'.Keys == node.Keys
  {
    && Chain(node', edge', rank', added) == [added] + Chain(node, edge, rank, top)
    && (forall n :: n in node && added !in Chain(node, edge, rank, n) ==> Chain(node', edge', rank', n) == Chain(node, edge, rank, n))
    && forall c :: c in edge ==> c in edge' && edge'[c] == if c in node[top].parents then edge[c].(bs := added) else edge[c]
  }

  /** The users of `leaving` use `coming`. */
  predicate UsersMoved(node: Nodes, edge: Edges, edge': Edges, leaving: nat, coming: nat)
    requires leaving in node
  {
    forall c :: c in edge && edge[c].role == Other ==> c in edge' && edge'[c] == if c in node[leaving].parents then edge[c].(bs := coming) else edge[c]
  }

  /** The node that comes in has no backing link and is not below the one that leaves. */
  ghost predicate TakesOver(node: Nodes, edge: Edges, rank: map<nat, nat>, leaving: nat, coming: nat)
    requires Ranked(node, edge, rank) && leaving in node && coming in node
  {
    node[coming].backing.None? && coming !in Chain(node, edge, rank, leaving)[1..]
  }

  /** A node that takes over has what was below the one that leaves, which has nothing; otherwise all chains are as they were. */
  ghost predicate HandedOver(node: Nodes, edge: Edges, rank: map<nat, nat>, node': Nodes, edge': Edges, rank': map<nat, nat>, leaving: nat, coming: nat)
    requires Ranked(node, edge, rank) && Ranked(node', edge', rank') && leaving in node && coming in node && node'.Keys == node.Keys
  {
    if TakesOver(node, edge, rank, leaving, coming)
    then && Chain(node', edge', rank', coming) == [coming] + Chain(node, edge, rank, leaving)[1..]
         && (leaving != coming ==> Chain(node', edge', rank', leaving) == [leaving])
         && (forall n :: n in node && coming !in Chain(node, edge, rank, n) && leaving !in Chain(node, edge, rank, n)
               ==> Chain(node', edge', rank', n) == Chain(node, edge, rank, n))
    else forall n :: n in node ==> Chain(node', edge', rank', n) == Chain(node, edge, rank, n)
  }

  class Graph {
    var node: Nodes
    var edge: Edges
    var nextEdge: nat
    ghost var outside: map<nat, nat>
    ghost var rank: map<nat, nat>
    ghost var dying: set<nat>

    /** Well linked and well counted, and no node without a reference but those being deleted. */
    ghost predicate Valid()
      reads this
    {
      Consistent(node, edge, outside, nextEdge) && Live(node, dying)
    }

    /** Also without a backing cycle. */
    ghost predicate Settled()
      reads this
    {
      Valid() && Ranked(node, edge, rank)
    }

    /** Also with no deletion in progress. */
    ghost predicate Sound()
      reads this
    {
      Settled() && dying == {}
    }

    constructor ()
      ensures Sound() && node == map[] && edge == map[] && outside == map[]
    {
      node, edge, nextEdge, outside, rank, dying := map[], map[], 0, map[], map[], {};
    }

    /** A new node, with the reference its creator holds. */
    method Create(n: nat)
      requires Sound() && n !in node
      modifies this
      ensures Sound() && node == old(node)[n := Node(None, {}, 1)] && outside == old(outside)[n := 1] && edge == old(edge)
    {
      CreateOk(node, edge, outside, nextEdge, rank, n);
      node, outside, rank := node[n := Node(None, {}, 1)], outside[n := 1], rank[n := 0];
      LiveUpdate(old(node), node, dying);
    }

    /** `bdrv_root_attach_child`: a user outside the graph turns its reference into an edge. */
    method AttachRoot(n: nat)
      requires Sound() && n in node && outside[n] > 0
      modifies this
      ensures Sound() && SameBacking(old(node), old(edge), node, edge) && outside == old(outside)[n := old(outside)[n] - 1]
      ensures RootAttached(old(node), old(edge), node, edge, n, old(nextEdge))
    {
      AttachOk(node, edge, outside, nextEdge, rank, n);
      node, edge := node[n := node[n].(parents := node[n].parents + {nextEdge})], edge[nextEdge := Edge(n, None, Other)];
      outside, nextEdge := outside[n := outside[n] - 1], nextEdge + 1;
      LiveUpdate(old(node), node, dying);
    }

    /** `bdrv_ref`. */
    method Ref(n: nat)
      requires Valid() && n in node && n !in dying
      modifies this`node, this`outside
      ensures Valid() && node == WithCount(old(node), n, old(node)[n].refcnt + 1)
      ensures outside == old(outside)[n := old(outside)[n] + 1] && SameBacking(old(node), edge, node, edge)
    {
      WithCountLinked(node, edge, n, node[n].refcnt + 1);
      CountMoves(node, n, outside, node[n].refcnt + 1, outside[n] + 1);
      LiveUpdate(node, WithCount(node, n, node[n].refcnt + 1), dying);
      node := WithCount(node, n, node[n].refcnt + 1);
      outside := outside[n := outside[n] + 1];
    }

    /** The decrement in `bdrv_unref`. */
    method Decrement(n: nat)
      requires Valid() && n in node && outside[n] > 0
      modifies this`node, this`outside, this`dying
      ensures old(node)[n].refcnt > 0
      ensures Valid() && node == WithCount(old(node), n, old(node)[n].refcnt - 1)
      ensures outside == old(outside)[n := old(outside)[n] - 1] && SameBacking(old(node), edge, node, edge)
      ensures n !in old(dying) && dying == if old(node)[n].refcnt == 1 then old(dying) + {n} else old(dying)
    {
      assert CountOk(node, outside, n) && LiveAt(node, dying, n);
      WithCountLinked(node, edge, n, node[n].refcnt - 1);
      CountMoves(node, n, outside, node[n].refcnt - 1, outside[n] - 1);
      node := WithCount(node, n, node[n].refcnt - 1);
      outside := outside[n := outside[n] - 1];
      dying := if node[n].refcnt == 0 then dying + {n} else dying;
      DyingUpdate(old(node), node, old(dying), dying, n);
    }

    /** `bdrv_unref`: the last reference to a node takes the node with it, and so on down the chain. */
    method Unref(n: nat)
      requires Settled() && n in node && outside[n] > 0
      modifies this`node, this`edge, this`outside, this`dying
      ensures Settled() && dying == old(dying)
      ensures var gone := old(Freed(node, edge, rank, n));
              && Pruned(old(node), old(edge), node, edge, gone)
              && outside == old(outside)[n := old(outside)[n] - 1] - gone
      ensures old(node)[n].refcnt > 1 ==> node == WithCount(old(node), n, old(node)[n].refcnt - 1)
      decreases rank[n], 2
    {
      ghost var node0, edge0 := node, edge;
      ghost var gone := Freed(node, edge, rank, n);
      Decrement(n);
      ghost var node1 := node;
      SameBackingRanked(node0, edge, node, edge, rank);
      if node[n].refcnt == 0 {
        BelowSame(node0, node1, edge0, rank, n);
        Delete(n);
        PrunedAfterSame(node0, node1, edge0, node, edge, gone);
      } else {
        assert outside - {} == outside;
      }
    }

    /** `bdrv_delete`, with what `bdrv_close` does to the backing link. */
    method Delete(n: nat)
      requires Settled() && n in node && n in dying
      modifies this`node, this`edge, this`outside, this`dying
      ensures Settled() && dying == old(dying) - {n}
      ensures var gone := {n} + old(FreedBelow(node, edge, rank, n));
              && Pruned(old(node), old(edge), node, edge, gone)
              && outside == old(outside) - gone
      decreases rank[n], 1
    {
      ghost var gone := FreedBelow(node, edge, rank, n);
      BelowRanks(node, edge, rank, n);
      if node[n].backing.Some? {
        DropBacking(n);
      }
      assert LiveAt(node, dying, n);
      ghost var node1 := node;
      RemoveOk(node, edge, outside, nextEdge, rank, n);
      LiveRemoved(node, node - {n}, dying, n);
      node, outside, dying := node - {n}, outside - {n}, dying - {n};
      DroppedThenRemoved(old(node), old(edge), node1, edge, node, n, gone);
    }

    /** `bdrv_unref_child` on the backing edge: the edge goes, and then its reference. */
    method DropBacking(bs: nat)
      requires Settled() && bs in node && node[bs].backing.Some?
      modifies this`node, this`edge, this`outside, this`dying
      ensures Settled() && dying == old(dying)
      ensures var gone := old(FreedBelow(node, edge, rank, bs));
              && Dropped(old(node), old(edge), node, edge, bs, gone)
              && outside == old(outside) - gone
      decreases rank[bs], 0
    {
      ghost var node0, edge0, gone := node, edge, FreedBelow(node, edge, rank, bs);
      BackingIsEdge(node, edge, bs);
      BelowRanks(node, edge, rank, bs);
      assert Falls(node, edge, rank, bs);
      var below := edge[node[bs].backing.value].bs;
      Unlink(bs);
      ghost var node1, edge1 := node, edge;
      UnlinkedBelow(node0, edge0, node1, edge1, rank, bs, below);
      Unref(below);
      DroppedBySteps(node0, edge0, node1, edge1, node, edge, bs, gone);
      PutBack(old(outside), below, old(outside)[below] + 1);
    }

    /** `bdrv_detach_child` on the backing edge; its reference goes to the caller. */
    method Unlink(bs: nat)
      requires Valid() && bs in node && node[bs].backing.Some?
      requires IsBackingEdge(edge, node[bs].backing.value, bs) && EdgeOk(node, edge, node[bs].backing.value)
      modifies this`node, this`edge, this`outside
      ensures Valid() && (node, edge) == WithoutBacking(old(node), old(edge), bs)
      ensures Relinked(old(node), old(edge), node, edge, bs, None)
      ensures var below := old(edge)[old(node)[bs].backing.value].bs;
              outside == old(outside)[below := old(outside)[below] + 1]
      ensures node[bs].backing.None?
    {
      var below := edge[node[bs].backing.value].bs;
      var (node', edge') := WithoutBacking(node, edge, bs);
      UnlinkOk(node, edge, bs, outside, nextEdge, node', edge', below);
      LiveUpdate(node, node', dying);
      node, edge := node', edge';
      outside := outside[below := outside[below] + 1];
    }

    /** `bdrv_attach_child` for a backing edge; a reference the caller has taken goes to the edge. */
    method AddBacking(bs: nat, b: nat)
      requires Valid() && bs in node && b in node && node[bs].backing.None? && outside[b] > 0
      modifies this`node, this`edge, this`outside, this`nextEdge
      ensures Valid() && Relinked(old(node), old(edge), node, edge, bs, Some(b)) && outside == old(outside)[b := old(outside)[b] - 1]
      ensures EdgesKept(old(edge), edge, None)
    {
      var e := nextEdge;
      var (node', edge') := WithBacking(node, edge, bs, b, e);
      LinkOk(node, edge, bs, b, outside, e, node', edge');
      LiveUpdate(node, node', dying);
      node, edge, nextEdge := node', edge', nextEdge + 1;
      outside := outside[b := outside[b] - 1];
    }

    /**
     * `bdrv_set_backing_hd`.  The reference for the new edge is taken before the old edge goes, so the
     * new backing node stays; whatever had its last reference through the old edge goes.  Nothing
     * refuses a link that closes a loop.
     */
    method SetBacking(bs: nat, target: Option<nat>)
      requires Sound() && bs in node && (target.Some? ==> target.value in node)
      modifies this
      ensures Valid() && dying == {}
      ensures var gone := old(FreedBelow(WithRef(node, target), edge, rank, bs));
              && Rebacked(old(node), old(edge), node, edge, bs, target, gone)
              && outside == old(outside) - gone
      ensures Acyclic(node, edge) <==> !old(ClosesLoop(bs, target))
      ensures !old(ClosesLoop(bs, target)) ==> Sound()
    {
      ghost var node0, edge0, rank0 := node, edge, rank;
      ghost var gone := FreedBelow(WithRef(node, target), edge, rank, bs);
      TargetStays(node, edge, rank, bs, target);
      if target.Some? {
        Ref(target.value);
        SameBackingRanked(node0, edge0, node, edge0, rank);
      }
      ClearBacking(bs, node0, target);
      ghost var node2, edge2 := node, edge;
      if target.Some? {
        AboveKept(node0, edge0, node2, edge2, rank0, bs, gone, target.value);
        GivenBack(old(outside), target.value, gone);
        Attach(bs, target.value);
        RebackedBySteps(node0, edge0, node2, edge2, node, edge, bs, target.value, gone);
      }
    }

    /** The old backing edge, if there is one, goes after the new backing node has its reference. */
    method ClearBacking(bs: nat, ghost node0: Nodes, ghost target: Option<nat>)
      requires Settled() && bs in node && SameBacking(node0, edge, node, edge)
      requires (target.Some? ==> target.value in node0) && node == WithRef(node0, target)
      modifies this`node, this`edge, this`outside, this`dying
      ensures Settled() && dying == old(dying)
      ensures var gone := old(FreedBelow(node, edge, rank, bs));
              && Dropped(node0, old(edge), node, edge, bs, gone)
              && outside == old(outside) - gone
    {
      assert SameAt(node0, edge, node, edge, bs);
      if node[bs].backing.Some? {
        ghost var gone := FreedBelow(node, edge, rank, bs);
        DropBacking(bs);
        DroppedAfterSame(node0, old(node), old(edge), node, edge, bs, gone);
      } else {
        assert outside - {} == outside;
      }
    }

    /** The new backing edge, and whether it closes a loop. */
    method Attach(bs: nat, b: nat)
      requires Settled() && bs in node && b in node && node[bs].backing.None? && outside[b] > 0
      modifies this`node, this`edge, this`outside, this`nextEdge, this`rank
      ensures Valid() && Relinked(old(node), old(edge), node, edge, bs, Some(b)) && outside == old(outside)[b := old(outside)[b] - 1]
      ensures EdgesKept(old(edge), edge, None)
      ensures Acyclic(node, edge) <==> bs !in old(Chain(node, edge, rank, b))
      ensures bs !in old(Chain(node, edge, rank, b)) ==> Ranked(node, edge, rank)
    {
      ghost var node0, edge0 := node, edge;
      AddBacking(bs, b);
      RelinkAcyclicIff(node0, edge0, node, edge, rank, bs, Some(b));
      if bs !in Chain(node0, edge0, rank, b) {
        RaisedRanks(node0, edge0, node, edge, rank, bs, Some(b));
        rank := Raised(node0, edge0, rank, bs, rank[b] + 1);
      }
    }

    /** The node is below the one that is to back it. */
    ghost predicate ClosesLoop(bs: nat, target: Option<nat>)
      requires Ranked(node, edge, rank) && (target.Some? ==> target.value in node)
      reads this
    {
      target.Some? && bs in Chain(node, edge, rank, target.value)
    }

    /**
     * `bdrv_append`: `added` becomes the top of the chain of `top`, everything that used `top` uses
     * `added`, and the caller's reference to `added` is given up.
     */
    method Append(added: nat, top: nat)
      requires Sound() && added in node && top in node && added != top
      requires node[added].backing.None? && added !in Chain(node, edge, rank, top)
      requires forall c :: c in node[top].parents ==> c in edge && edge[c].role == Other
      requires outside[added] > 0 && (node[top].parents != {} || outside[added] > 1)
      modifies this
      ensures Sound() && node.Keys == old(node).Keys && outside == old(outside)[added := old(outside)[added] - 1]
      ensures TopAdded(old(node), old(edge), old(rank), node, edge, rank, added, top)
      ensures forall r :: Ranked(node, edge, r) ==> Chain(node, edge, r, added) == Chain(node, edge, rank, added)
    {
      ghost var node0, edge0, rank0 := node, edge, rank;
      MoveUsers(top, added);
      ghost var node2, edge2 := node, edge;
      assert SameAt(node0, edge0, node2, edge2, added);
      ghost var outside2 := outside;
      SetBacking(added, Some(top));
      RebackedNone(node2, edge2, node, edge, added, Some(top), outside2);
      RelinkedBySteps(node0, edge0, node2, edge2, node, edge, added, Some(top));
      Release(added, top, node0, edge0);
      Appended(node0, edge0, rank0, node, edge, rank, added, top);
      PutBackUnder(old(outside), top, old(outside)[top] + 1, added, old(outside)[added] - 1);
      AnyRanks(node, edge, rank, added);
    }

    /** The two references `bdrv_append` gives back at the end. */
    method Release(added: nat, top: nat, ghost node0: Nodes, ghost edge0: Edges)
      requires Sound() && added != top && outside.Keys == node.Keys && Relinked(node0, edge0, node, edge, added, Some(top))
      requires outside[top] > 0 && outside[added] > 0
      requires outside[added] > 1 || exists c :: c in edge && edge[c].bs == added
      modifies this`node, this`edge, this`outside, this`dying
      ensures Sound() && Relinked(node0, edge0, node, edge, added, Some(top)) && node.Keys == old(node).Keys && edge == old(edge)
      ensures outside == old(outside)[top := old(outside)[top] - 1][added := old(outside)[added] - 1]
    {
      PositiveCount(node, edge, added);
      Referenced(node, edge, added);
      CountedAt(node, outside, Some(added));
      CountedAt(node, outside, Some(top));
      assert node[added].refcnt > 1 && node[top].refcnt > 1;
      ghost var node1 := node;
      GiveBack(top);
      RelinkedThenSame(node0, edge0, node1, edge, node, edge, added, Some(top));
      ghost var node2 := node;
      GiveBack(added);
      RelinkedThenSame(node0, edge0, node2, edge, node, edge, added, Some(top));
    }

    /**
     * `bdrv_replace_in_backing_chain`, where the caller keeps a reference to `leaving`: users move to
     * `coming`, and a node that was not in the chain takes over the backing link too.
     */
    method Replace(leaving: nat, coming: nat)
      requires Sound() && leaving in node && coming in node && outside[leaving] > 0
      requires forall c :: c in node[leaving].parents ==> c in edge && edge[c].role == Other
      modifies this
      ensures Sound() && node.Keys == old(node).Keys && outside == old(outside)
      ensures UsersMoved(old(node), old(edge), edge, leaving, coming)
      ensures forall r :: Ranked(node, edge, r) ==> Chain(node, edge, r, coming) == Chain(node, edge, rank, coming)
      ensures forall r :: Ranked(node, edge, r) ==> Chain(node, edge, r, leaving) == Chain(node, edge, rank, leaving)
      ensures HandedOver(old(node), old(edge), old(rank), node, edge, rank, leaving, coming)
    {
      MoveUsers(leaving, coming);
      assert SameAt(old(node), old(edge), node, edge, coming);
      ghost var edge1 := edge;
      HandOver(leaving, coming);
      CountedAt(node, outside, Some(leaving));
      GiveBack(leaving);
      PutBack(old(outside), leaving, old(outside)[leaving] + 1);
      RedirectedKept(old(edge), edge1, edge, old(node)[leaving].parents, coming);
      AnyRanks(node, edge, rank, coming);
      AnyRanks(node, edge, rank, leaving);
    }

    /** The decision of `bdrv_replace_in_backing_chain` about the backing link. */
    method HandOver(leaving: nat, coming: nat)
      requires Sound() && leaving in node && coming in node
      modifies this
      ensures Sound() && node.Keys == old(node).Keys && outside == old(outside) && OthersKept(old(edge), edge)
      ensures HandedOver(old(node), old(edge), old(rank), node, edge, rank, leaving, coming)
    {
      BackingInNodes(node, edge, leaving);
      var below := BackingOf(node, edge, leaving);
      var contains := ChainContains(node, edge, rank, below, coming);
      assert Falls(node, edge, rank, leaving);
      if node[coming].backing.None? && !contains {
        TakeOver(leaving, coming, below);
      }
    }

    /** A reference to `from` for the time being, and the users of `from` moved to `to`. */
    method MoveUsers(from: nat, to: nat)
      requires Sound() && from in node && to in node
      requires forall c :: c in node[from].parents ==> c in edge && edge[c].role == Other
      modifies this`node, this`edge, this`outside
      ensures Sound() && SameBacking(old(node), old(edge), node, edge) && outside == old(outside)[from := old(outside)[from] + 1]
      ensures Redirected(old(edge), edge, old(node)[from].parents, to)
      ensures forall n :: n in node ==> Chain(node, edge, rank, n) == old(Chain(node, edge, rank, n))
    {
      ghost var node0, edge0 := node, edge;
      Ref(from);
      ghost var node1 := node;
      SameBackingRanked(node0, edge0, node1, edge0, rank);
      ChangeParents(from, to);
      SameBackingTrans(node0, edge0, node1, edge0, node, edge);
      SameChains(node0, edge0, node, edge, rank);
    }

    /** A reference that is not the last. */
    method GiveBack(n: nat)
      requires Sound() && n in node && outside[n] > 0 && node[n].refcnt > 1
      modifies this`node, this`edge, this`outside, this`dying
      ensures Sound() && SameBacking(old(node), edge, node, edge) && edge == old(edge) && outside == old(outside)[n := old(outside)[n] - 1]
      ensures node == WithCount(old(node), n, old(node)[n].refcnt - 1)
      ensures forall m :: m in node ==> Chain(node, edge, rank, m) == old(Chain(node, edge, rank, m))
    {
      Unref(n);
      PrunedNone(old(node), old(edge), node, edge);
      SameChains(old(node), edge, node, edge, rank);
    }

    /** The two calls that hand the backing link over. */
    method TakeOver(leaving: nat, coming: nat, below: Option<nat>)
      requires Sound() && leaving in node && coming in node && node[coming].backing.None? && below == BackingOf(node, edge, leaving)
      requires below.Some? ==> below.value in node && coming !in Chain(node, edge, rank, below.value)
      modifies this
      ensures Sound() && node.Keys == old(node).Keys && outside == old(outside)
      ensures OthersKept(old(edge), edge)
      ensures Chain(node, edge, rank, coming) == [coming] + old(Chain(node, edge, rank, leaving))[1..]
      ensures leaving != coming ==> Chain(node, edge, rank, leaving) == [leaving]
      ensures forall n :: n in node && coming !in old(Chain(node, edge, rank, n)) && leaving !in old(Chain(node, edge, rank, n))
                ==> Chain(node, edge, rank, n) == old(Chain(node, edge, rank, n))
    {
      ghost var node0, edge0, rank0 := node, edge, rank;
      SetBacking(coming, below);
      RebackedNone(node0, edge0, node, edge, coming, below, old(outside));
      ghost var node1, edge1, rank1 := node, edge, rank;
      SharedBacking(node, edge, leaving, coming, below);
      CountedAt(node, outside, below);
      assert leaving != coming ==> SameAt(node0, edge0, node1, edge1, leaving);
      SetBacking(leaving, None);
      RebackedNone(node1, edge1, node, edge, leaving, None, old(outside));
      OnlyBackingGone(node0, edge0, node1, edge1, edge, leaving, coming);
      TakenOver(node0, edge0, rank0, node1, edge1, rank1, node, edge, rank, leaving, coming, below);
    }

    /** `change_parent_backing_link`; the caller keeps a reference to `from`. */
    method ChangeParents(from: nat, to: nat)
      requires Sound() && from in node && to in node && outside[from] > 0
      requires forall c :: c in node[from].parents ==> c in edge && edge[c].role == Other
      modifies this`node, this`edge
      ensures Sound() && SameBacking(old(node), old(edge), node, edge)
      ensures Redirected(old(edge), edge, old(node)[from].parents, to)
      ensures from != to ==> node[from].parents == {} && node[to].parents == old(node)[to].parents + old(node)[from].parents
      ensures from == to ==> node[to].parents == old(node)[to].parents
    {
      ghost var node0, edge0, all := node, edge, node[from].parents;
      var todo := node[from].parents;
      while todo != {}
        invariant Valid() && Halfway(node0, edge0, node, edge, from, to, all, todo)
        decreases todo
      {
        var c :| c in todo;
        ghost var node1, edge1 := node, edge;
        MoveOne(c, from, to);
        HalfwayStep(node0, edge0, node1, edge1, node, edge, from, to, all, todo, c);
        todo := todo - {c};
      }
      SameBackingRanked(node0, edge0, node, edge, rank);
    }

    method MoveOne(c: nat, from: nat, to: nat)
      requires Valid() && from in node && to in node && c in node[from].parents && outside[from] > 0 && dying == {}
      requires c in edge && edge[c].role == Other
      modifies this`node, this`edge
      ensures Valid() && SameBacking(old(node), old(edge), node, edge) && edge == old(edge)[c := old(edge)[c].(bs := to)]
      ensures from != to ==> node[from].parents == old(node)[from].parents - {c} && node[to].parents == old(node)[to].parents + {c}
      ensures from == to ==> node[to].parents == old(node)[to].parents
    {
      MoveStepOk(node, edge, c, from, to, outside);
      var (node', edge') := MoveStep(node, edge, c, from, to);
      LiveUpdate(node, node', dying);
      node, edge := node', edge';
    }
  }

  lemma SameBackingTrans(n0: Nodes, e0: Edges, n1: Nodes, e1: Edges, n2: Nodes, e2: Edges)
    requires SameBacking(n0, e0, n1, e1) && SameBacking(n1, e1, n2, e2)
    ensures SameBacking(n0, e0, n2, e2)
  {
    forall n | n in n0
      ensures SameAt(n0, e0, n2, e2, n)
    {
      assert SameAt(n0, e0, n1, e1, n) && SameAt(n1, e1, n2, e2, n);
    }
  }

  lemma Referenced(node: Nodes, edge: Edges, n: nat)
    requires Linked(node, edge) && n in node
    ensures (exists c :: c in edge && edge[c].bs == n) ==> node[n].parents != {}
  {
    forall c | c in edge && edge[c].bs == n
      ensures node[n].parents != {}
    {
      assert EdgeOk(node, edge, c);
    }
  }

  /** The chains after an append. */
  lemma Appended(node: Nodes, edge: Edges, rank: map<nat, nat>, node': Nodes, edge': Edges, rank': map<nat, nat>, added: nat, top: nat)
    requires Ranked(node, edge, rank) && Ranked(node', edge', rank') && Relinked(node, edge, node', edge', added, Some(top))
    requires added !in Chain(node, edge, rank, top)
    ensures Chain(node', edge', rank', added) == [added] + Chain(node, edge, rank, top)
    ensures forall n :: n in node && added !in Chain(node, edge, rank, n) ==> Chain(node', edge', rank', n) == Chain(node, edge, rank, n)
  {
    forall n | n in node && added !in Chain(node, edge, rank, n)
      ensures Chain(node', edge', rank', n) == Chain(node, edge, rank, n)
    {
      ChainKept(node, edge, node', edge', rank, rank', added, Some(top), n);
    }
    assert Falls(node', edge', rank', added);
  }

  lemma SameChains(node: Nodes, edge: Edges, node': Nodes, edge': Edges, rank: map<nat, nat>)
    requires SameBacking(node, edge, node', edge') && Ranked(node, edge, rank) && Ranked(node', edge', rank)
    ensures forall n :: n in node ==> Chain(node', edge', rank, n) == Chain(node, edge, rank, n)
  {
    forall n | n in node
      ensures Chain(node', edge', rank, n) == Chain(node, edge, rank, n)
    {
      SameBackingChain(node, edge, node', edge', rank, n);
    }
  }

  /** Edges that are not backing edges are as they were. */
  predicate OthersKept(edge: Edges, edge': Edges) {
    forall c :: c in edge && edge[c].role == Other ==> c in edge' && edge'[c] == edge[c]
  }

  lemma OnlyBackingGone(node0: Nodes, edge0: Edges, node1: Nodes, edge1: Edges, edge2: Edges, leaving: nat, coming: nat)
    requires Linked(node0, edge0) && Linked(node1, edge1) && leaving in node1 && coming in node0
    requires EdgesKept(edge0, edge1, node0[coming].backing) && EdgesKept(edge1, edge2, node1[leaving].backing)
    ensures OthersKept(edge0, edge2)
  {
    assert NodeOk(node0, edge0, coming) && NodeOk(node1, edge1, leaving);
  }

  lemma RedirectedKept(edge0: Edges, edge1: Edges, edge2: Edges, moved: set<nat>, to: nat)
    requires Redirected(edge0, edge1, moved, to) && OthersKept(edge1, edge2)
    ensures forall c :: c in edge0 && edge0[c].role == Other ==> c in edge2 && edge2[c] == if c in moved then edge0[c].(bs := to) else edge0[c]
  {
    forall c | c in edge0 && edge0[c].role == Other
      ensures c in edge2 && edge2[c] == if c in moved then edge0[c].(bs := to) else edge0[c]
    {
      assert edge1[c] == if c in moved then edge0[c].(bs := to) else edge0[c];
    }
  }

  lemma PutBack(m: map<nat, nat>, k: nat, v: nat)
    requires k in m
    ensures m[k := v][k := m[k]] == m
  {
  }

  lemma PutBackUnder(m: map<nat, nat>, k: nat, v: nat, j: nat, w: nat)
    requires k in m && k != j
    ensures m[k := v][k := m[k]][j := w] == m[j := w]
  {
    PutBack(m, k, v);
  }

  lemma BackingInNodes(node: Nodes, edge: Edges, n: nat)
    requires Linked(node, edge) && n in node
    ensures BackingOf(node, edge, n).Some? ==> BackingOf(node, edge, n).value in node
  {
    if node[n].backing.Some? {
      BackingIsEdge(node, edge, n);
    }
  }

  /** Two nodes with the same backing node hold two references to it. */
  lemma SharedBacking(node: Nodes, edge: Edges, a: nat, b: nat, below: Option<nat>)
    requires Linked(node, edge) && a in node && b in node && BackingOf(node, edge, b) == below
    ensures a != b && below.Some? && BackingOf(node, edge, a) == below ==> below.value in node && |node[below.value].parents| > 1
  {
    if a != b && below.Some? && BackingOf(node, edge, a) == below {
      BackingIsEdge(node, edge, a);
      BackingIsEdge(node, edge, b);
      var x, y, parents := node[a].backing.value, node[b].backing.value, node[below.value].parents;
      assert x != y && x in parents && y in parents;
      assert parents == (parents - {x}) + {x} && y in parents - {x};
    }
  }

  lemma TakenOver(n0: Nodes, e0: Edges, r0: map<nat, nat>, n1: Nodes, e1: Edges, r1: map<nat, nat>, n2: Nodes, e2: Edges, r2: map<nat, nat>,
                  leaving: nat, coming: nat, below: Option<nat>)
    requires Ranked(n0, e0, r0) && Ranked(n1, e1, r1) && Ranked(n2, e2, r2) && leaving in n0 && below == BackingOf(n0, e0, leaving)
    requires BackingOf.requires(n0, e0, coming) && BackingOf(n0, e0, coming).None?
    requires below.Some? ==> below.value in n0 && coming !in Chain(n0, e0, r0, below.value)
    requires Relinked(n0, e0, n1, e1, coming, below) && Relinked(n1, e1, n2, e2, leaving, None)
    ensures Chain(n2, e2, r2, coming) == [coming] + Chain(n0, e0, r0, leaving)[1..]
    ensures leaving != coming ==> Chain(n2, e2, r2, leaving) == [leaving]
    ensures forall n :: n in n0 && coming !in Chain(n0, e0, r0, n) && leaving !in Chain(n0, e0, r0, n)
              ==> Chain(n2, e2, r2, n) == Chain(n0, e0, r0, n)
  {
    assert Falls(n0, e0, r0, leaving) && Falls(n1, e1, r1, coming) && Falls(n2, e2, r2, coming) && Falls(n2, e2, r2, leaving);
    assert coming != leaving ==> SameAt(n1, e1, n2, e2, coming);
    if below.Some? {
      ChainKept(n0, e0, n1, e1, r0, r1, coming, below, below.value);
      if leaving in Chain(n0, e0, r0, below.value) {
        ChainInNodes(n0, e0, r0, below.value, leaving);
      }
      ChainKept(n1, e1, n2, e2, r1, r2, leaving, None, coming);
    }
    forall n | n in n0 && coming !in Chain(n0, e0, r0, n) && leaving !in Chain(n0, e0, r0, n)
      ensures Chain(n2, e2, r2, n) == Chain(n0, e0, r0, n)
    {
      ChainKept(n0, e0, n1, e1, r0, r1, coming, below, n);
      ChainKept(n1, e1, n2, e2, r1, r2, leaving, None, n);
    }
  }

  /** Edges that lead to `from` lead to `to`; the others are as they were. */
  predicate Redirected(edge: Edges, edge': Edges, moved: set<nat>, to: nat) {
    && edge'.Keys == edge.Keys
    && forall c :: c in edge ==> edge'[c] == if c in moved then edge[c].(bs := to) else edge[c]
  }

  /** All edges of `from` but those in `todo` have moved. */
  ghost predicate Halfway(node0: Nodes, edge0: Edges, node: Nodes, edge: Edges, from: nat, to: nat, all: set<nat>, todo: set<nat>) {
    && from in node0 && to in node0 && todo <= all && SameBacking(node0, edge0, node, edge)
    && Redirected(edge0, edge, all - todo, to) && (forall c :: c in all ==> c in edge && edge[c].role == Other)
    && (from != to ==> node[from].parents == todo && node[to].parents == node0[to].parents + (all - todo))
    && (from == to ==> node[to].parents == all)
  }

  lemma HalfwayStep(node0: Nodes, edge0: Edges, node1: Nodes, edge1: Edges, node2: Nodes, edge2: Edges,
                    from: nat, to: nat, all: set<nat>, todo: set<nat>, c: nat)
    requires Halfway(node0, edge0, node1, edge1, from, to, all, todo) && c in todo
    requires SameBacking(node1, edge1, node2, edge2) && edge2 == edge1[c := edge1[c].(bs := to)]
    requires from != to ==> node2[from].parents == node1[from].parents - {c} && node2[to].parents == node1[to].parents + {c}
    requires from == to ==> node2[to].parents == node1[to].parents
    ensures Halfway(node0, edge0, node2, edge2, from, to, all, todo - {c})
  {
    assert all - (todo - {c}) == (all - todo) + {c};
    SameBackingTrans(node0, edge0, node1, edge1, node2, edge2);
  }

  /** The count of a node, if there is one. */
  lemma CountedAt(node: Nodes, outside: map<nat, nat>, n: Option<nat>)
    requires Counted(node, outside)
    ensures n.Some? && n.value in node ==> node[n.value].refcnt == |node[n.value].parents| + outside[n.value]
  {
    if n.Some? && n.value in node {
      assert CountOk(node, outside, n.value);
    }
  }

  /** A backing node is referenced at least by its edge. */
  lemma PositiveCount(node: Nodes, edge: Edges, bs: nat)
    requires Linked(node, edge) && bs in node
    ensures var below := BackingOf(node, edge, bs); below.Some? ==> below.value in node && node[below.value].parents != {}
  {
    if node[bs].backing.Some? {
      BackingIsEdge(node, edge, bs);
    }
  }

  lemma BackingIsEdge(node: Nodes, edge: Edges, bs: nat)
    requires Linked(node, edge) && bs in node && node[bs].backing.Some?
    ensures IsBackingEdge(edge, node[bs].backing.value, bs) && EdgeOk(node, edge, node[bs].backing.value)
    ensures BackingOf(node, edge, bs).Some? && BackingOf(node, edge, bs).value in node
  {
    assert NodeOk(node, edge, bs);
    assert EdgeOk(node, edge, node[bs].backing.value);
  }

  lemma CreateOk(node: Nodes, edge: Edges, outside: map<nat, nat>, nextEdge: nat, rank: map<nat, nat>, n: nat)
    requires Consistent(node, edge, outside, nextEdge) && Ranked(node, edge, rank) && n !in node
    ensures var node' := node[n := Node(None, {}, 1)];
            Consistent(node', edge, outside[n := 1], nextEdge) && Ranked(node', edge, rank[n := 0])
  {
    var node', outside', rank' := node[n := Node(None, {}, 1)], outside[n := 1], rank[n := 0];
    forall e | e in edge
      ensures EdgeOk(node', edge, e)
    {
      assert EdgeOk(node, edge, e);
    }
    forall m | m in node'
      ensures NodeOk(node', edge, m) && CountOk(node', outside', m) && Falls(node', edge, rank', m)
    {
      if m != n {
        assert NodeOk(node, edge, m) && CountOk(node, outside, m) && Falls(node, edge, rank, m);
      }
    }
  }

  lemma AttachOk(node: Nodes, edge: Edges, outside: map<nat, nat>, e: nat, rank: map<nat, nat>, n: nat)
    requires Consistent(node, edge, outside, e) && Ranked(node, edge, rank) && n in node && outside[n] > 0
    ensures var node', edge' := node[n := node[n].(parents := node[n].parents + {e})], edge[e := Edge(n, None, Other)];
            && Consistent(node', edge', outside[n := outside[n] - 1], e + 1) && Ranked(node', edge', rank)
            && SameBacking(node, edge, node', edge')
  {
    var node', edge' := node[n := node[n].(parents := node[n].parents + {e})], edge[e := Edge(n, None, Other)];
    assert e !in edge;
    forall x | x in edge'
      ensures EdgeOk(node', edge', x)
    {
      if x != e { assert EdgeOk(node, edge, x); }
    }
    forall m | m in node'
      ensures NodeOk(node', edge', m) && CountOk(node', outside[n := outside[n] - 1], m) && SameAt(node, edge, node', edge', m)
    {
      assert NodeOk(node, edge, m) && CountOk(node, outside, m);
      if m == n { assert e !in node[n].parents; }
    }
    SameBackingRanked(node, edge, node', edge', rank);
  }

  // ------------------------------------------------------------ whole runs

  datatype GraphOp =
    | CreateOp(n: nat)
    | AttachOp(n: nat)
    | RefOp(n: nat)
    | UnrefOp(n: nat)
    | SetBackingOp(bs: nat, target: Option<nat>)
    | AppendOp(added: nat, top: nat)
    | ReplaceOp(leaving: nat, coming: nat)

  predicate UsersAreNotBacking(node: Nodes, edge: Edges, n: nat)
    requires n in node
  {
    forall c :: c in node[n].parents ==> c in edge && edge[c].role == Other
  }

  /** The graph, and the references held outside it. */
  datatype GraphState = GraphState(node: Nodes, edge: Edges, held: map<nat, nat>)

  ghost predicate StateOk(m: GraphState, rank: map<nat, nat>) { Ranked(m.node, m.edge, rank) && m.held.Keys == m.node.Keys }

  predicate CanSetBacking(m: GraphState, bs: nat, target: Option<nat>) { bs in m.node && (target.Some? ==> target.value in m.node) }

  predicate CanAppend(m: GraphState, added: nat, top: nat) {
    && added in m.node && top in m.node && added in m.held && added != top && m.node[added].backing.None? && UsersAreNotBacking(m.node, m.edge, top)
    && m.held[added] > 0 && (m.node[top].parents != {} || m.held[added] > 1)
  }

  predicate CanReplace(m: GraphState, leaving: nat, coming: nat) {
    leaving in m.node && coming in m.node && leaving in m.held && m.held[leaving] > 0 && UsersAreNotBacking(m.node, m.edge, leaving)
  }

  /** What one operation does.  One that its caller may not make, or that would close a loop, does nothing. */
  ghost predicate OpEffect(m: GraphState, op: GraphOp, m': GraphState, rank: map<nat, nat>, rank': map<nat, nat>)
    requires StateOk(m, rank) && StateOk(m', rank')
  {
    match op
    case CreateOp(n) => if n !in m.node then m' == GraphState(m.node[n := Node(None, {}, 1)], m.edge, m.held[n := 1]) else m' == m
    case AttachOp(n) =>
      if n in m.node && m.held[n] > 0
      then m'.held == m.held[n := m.held[n] - 1] && exists e :: RootAttached(m.node, m.edge, m'.node, m'.edge, n, e)
      else m' == m
    case RefOp(n) =>
      if n in m.node then m' == GraphState(WithCount(m.node, n, m.node[n].refcnt + 1), m.edge, m.held[n := m.held[n] + 1]) else m' == m
    case UnrefOp(n) =>
      if n in m.node && m.held[n] > 0
      then var gone := Freed(m.node, m.edge, rank, n);
           && Pruned(m.node, m.edge, m'.node, m'.edge, gone) && m'.held == m.held[n := m.held[n] - 1] - gone
           && (m.node[n].refcnt > 1 ==> m'.node == WithCount(m.node, n, m.node[n].refcnt - 1))
      else m' == m
    case SetBackingOp(bs, target) =>
      if CanSetBacking(m, bs, target) && !(target.Some? && bs in Chain(m.node, m.edge, rank, target.value))
      then var gone := FreedBelow(WithRef(m.node, target), m.edge, rank, bs);
           Rebacked(m.node, m.edge, m'.node, m'.edge, bs, target, gone) && m'.held == m.held - gone
      else m' == m
    case AppendOp(added, top) =>
      if CanAppend(m, added, top) && added !in Chain(m.node, m.edge, rank, top)
      then m'.node.Keys == m.node.Keys && m'.held == m.held[added := m.held[added] - 1]
           && TopAdded(m.node, m.edge, rank, m'.node, m'.edge, rank', added, top)
      else m' == m
    case ReplaceOp(leaving, coming) =>
      if CanReplace(m, leaving, coming)
      then m'.node.Keys == m.node.Keys && m'.held == m.held && UsersMoved(m.node, m.edge, m'.edge, leaving, coming)
           && HandedOver(m.node, m.edge, rank, m'.node, m'.edge, rank', leaving, coming)
      else m' == m
  }

  ghost predicate GraphMoves(m: GraphState, op: GraphOp, m': GraphState) {
    exists rank, rank' :: StateOk(m, rank) && StateOk(m', rank') && OpEffect(m, op, m', rank, rank')
  }

  /** One operation, if its caller may make it. */
  method Perform(g: Graph, op: GraphOp, held: map<nat, nat>) returns (held': map<nat, nat>)
    requires g.Sound() && held == g.outside
    modifies g
    ensures g.Sound() && held' == g.outside
    ensures GraphMoves(GraphState(old(g.node), old(g.edge), held), op, GraphState(g.node, g.edge, held'))
  {
    ghost var m, rank := GraphState(g.node, g.edge, held), g.rank;
    held' := held;
    match op {
    case CreateOp(n) =>
      if n !in g.node {
        g.Create(n);
        held' := held[n := 1];
      }
    case AttachOp(n) =>
      if n in g.node && held[n] > 0 {
        g.AttachRoot(n);
        held' := held[n := held[n] - 1];
      }
    case RefOp(n) =>
      if n in g.node {
        ghost var node := g.node;
        g.Ref(n);
        SameBackingRanked(node, g.edge, g.node, g.edge, g.rank);
        held' := held[n := held[n] + 1];
      }
    case UnrefOp(n) =>
      if n in g.node && held[n] > 0 {
        g.Unref(n);
        held' := Surviving(g.node, held[n := held[n] - 1]);
      }
    case SetBackingOp(bs, target) =>
      held' := PerformSetBacking(g, bs, target, held);
    case AppendOp(added, top) =>
      held' := PerformAppend(g, added, top, held);
    case ReplaceOp(leaving, coming) =>
      if leaving in g.node && coming in g.node && held[leaving] > 0 && UsersAreNotBacking(g.node, g.edge, leaving) {
        g.Replace(leaving, coming);
      }
    }
    MovesWith(m, op, GraphState(g.node, g.edge, held'), rank, g.rank);
  }

  method PerformAppend(g: Graph, added: nat, top: nat, held: map<nat, nat>) returns (held': map<nat, nat>)
    requires g.Sound() && held == g.outside
    modifies g
    ensures g.Sound() && held' == g.outside
    ensures OpEffect(GraphState(old(g.node), old(g.edge), held), AppendOp(added, top), GraphState(g.node, g.edge, held'), old(g.rank), g.rank)
  {
    held' := held;
    if added in g.node && top in g.node {
      var below := ChainContains(g.node, g.edge, g.rank, Some(top), added);
      if added != top && g.node[added].backing.None? && !below && UsersAreNotBacking(g.node, g.edge, top)
         && held[added] > 0 && (g.node[top].parents != {} || held[added] > 1) {
        g.Append(added, top);
        held' := held[added := held[added] - 1];
      }
    }
  }

  /** References to the nodes that are left. */
  function Surviving(node: Nodes, held: map<nat, nat>): map<nat, nat> {
    map n | n in held && n in node :: held[n]
  }

  method PerformSetBacking(g: Graph, bs: nat, target: Option<nat>, held: map<nat, nat>) returns (held': map<nat, nat>)
    requires g.Sound() && held == g.outside
    modifies g
    ensures g.Sound() && held' == g.outside
    ensures OpEffect(GraphState(old(g.node), old(g.edge), held), SetBackingOp(bs, target), GraphState(g.node, g.edge, held'), old(g.rank), g.rank)
  {
    held' := held;
    if bs in g.node && (target.None? || target.value in g.node) {
      var cycle := ChainContains(g.node, g.edge, g.rank, target, bs);
      if !cycle {
        g.SetBacking(bs, target);
        held' := Surviving(g.node, held);
      }
    }
  }

  /** The links agree, no backing chain loops, every count is edges plus outside references, and every node is below one that somebody uses. */
  ghost predicate GraphOk(m: GraphState) {
    && Linked(m.node, m.edge) && Acyclic(m.node, m.edge)
    && m.held.Keys == m.node.Keys && (forall n :: n in m.node ==> m.node[n].refcnt == |m.node[n].parents| + m.held[n])
    && forall n :: n in m.node ==> InUse(m.node, m.edge, m.held, n)
  }

  lemma SoundGraph(m: GraphState, rank: map<nat, nat>, nextEdge: nat)
    requires Consistent(m.node, m.edge, m.held, nextEdge) && Live(m.node, {}) && Ranked(m.node, m.edge, rank)
    ensures GraphOk(m)
  {
    assert forall n :: n in m.node ==> CountOk(m.node, m.held, n);
    NothingLeaks(m.node, m.edge, rank, m.held);
  }

  lemma MovesWith(m: GraphState, op: GraphOp, m': GraphState, rank: map<nat, nat>, rank': map<nat, nat>)
    requires StateOk(m, rank) && StateOk(m', rank') && OpEffect(m, op, m', rank, rank')
    ensures GraphMoves(m, op, m')
  {
  }

  /**
   * In any run each operation does what it should, and in every state the links agree, no backing chain loops,
   * every count is edges plus outside references, and every node that is left is below one that somebody uses.
   */
  method DriveGraph(ops: seq<GraphOp>) returns (run: seq<GraphState>)
    ensures Follows(run, ops, GraphMoves) && run[0] == GraphState(map[], map[], map[]) && Always(run, |run|, GraphOk)
  {
    var g := new Graph();
    var held: map<nat, nat> := map[];
    run := [GraphState(g.node, g.edge, held)];
    SoundGraph(run[0], g.rank, g.nextEdge);
    for i := 0 to |ops|
      invariant fresh(g) && g.Sound() && held == g.outside
      invariant Follows(run, ops[..i], GraphMoves) && run[0] == GraphState(map[], map[], map[]) && Always(run, i + 1, GraphOk)
      invariant run[i] == GraphState(g.node, g.edge, held)
    {
      held := Perform(g, ops[i], held);
      var m := GraphState(g.node, g.edge, held);
      SoundGraph(m, g.rank, g.nextEdge);
      assert ops[..i + 1] == ops[..i] + [ops[i]];
      FollowsNext(run, ops[..i], ops[i], m, GraphMoves);
      AlwaysNext(run, i + 1, m, GraphOk);
      run := run + [m];
    }
    assert ops[..|ops|] == ops;
  }

  /** Two new nodes that are made to back each other: both calls go through, counts and links agree, and the chain has no end. */
  method BackingLoop() returns (node: Nodes, edge: Edges)
    ensures Linked(node, edge) && !Acyclic(node, edge)
  {
    var g := new Graph();
    g.Create(0);
    g.Create(1);
    ghost var node0, edge0 := g.node, g.edge;
    assert Falls(g.node, g.edge, g.rank, 1);
    g.SetBacking(0, Some(1));
    assert SameAt(node0, edge0, g.node, g.edge, 1) && Falls(g.node, g.edge, g.rank, 0) && Falls(g.node, g.edge, g.rank, 1);
    assert Chain(g.node, g.edge, g.rank, 0) == [0] + Chain(g.node, g.edge, g.rank, 1);
    g.SetBacking(1, Some(0));
    node, edge := g.node, g.edge;
  }
}
