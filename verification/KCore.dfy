/** Core numbers of the relation graph by peeling with a work queue.
    The specification is extremal: the nodes whose core number is at least k form the
    greatest set in which every node keeps at least k neighbours inside the set. */
module KCore {

  import opened RelationGraph
  import opened Sums

  type Graph = map<Node, set<Node>>

  function Adjacent(g: Graph, n: Node): set<Node> {
    if n in g then g[n] else {}
  }

  /** Some edge of positive weight joins `a` and `b`, in either direction. */
  ghost predicate Linked(edges: seq<Edge>, a: Node, b: Node) {
    exists e :: e in edges && e.weight > 0.0 && ((e.source == a && e.target == b) || (e.source == b && e.target == a))
  }

  /** The undirected graph of the edges of positive weight; self-loops are kept. */
  ghost predicate IsGraphOf(g: Graph, edges: seq<Edge>) {
    forall a, b :: b in Adjacent(g, a) <==> Linked(edges, a, b)
  }

  ghost predicate Undirected(g: Graph) {
    forall a, b :: b in Adjacent(g, a) ==> a in Adjacent(g, b)
  }

  ghost predicate NoneIsolated(g: Graph) {
    forall a :: a in g ==> Adjacent(g, a) != {}
  }

  /** Every node of `s` has at least `k` neighbours inside `s`. */
  ghost predicate Dense(g: Graph, s: set<Node>, k: int) {
    s <= g.Keys && forall n :: n in s ==> |Adjacent(g, n) * s| >= k
  }

  ghost function AtLeast(core: map<Node, int>, k: int): set<Node> {
    set n | n in core && core[n] >= k
  }

  /** For every k, the nodes of core number at least k are the greatest dense set. */
  ghost predicate IsCoreNumbering(g: Graph, core: map<Node, int>) {
    && core.Keys == g.Keys
    && (forall n :: n in core ==> core[n] >= 0)
    && (forall k :: Dense(g, AtLeast(core, k), k))
    && (forall k, s :: Dense(g, s, k) ==> s <= AtLeast(core, k))
  }

  // ---- the specification determines the answer ---------------------------

  /** Two core numberings of one graph agree, so queue and set order cannot matter. */
  lemma CoreNumbersAreUnique(g: Graph, a: map<Node, int>, b: map<Node, int>)
    requires IsCoreNumbering(g, a) && IsCoreNumbering(g, b)
    ensures a == b
  {
    forall n | n in g ensures a[n] == b[n] {
      assert n in AtLeast(a, a[n]) && Dense(g, AtLeast(a, a[n]), a[n]);
      assert AtLeast(a, a[n]) <= AtLeast(b, a[n]);
      assert n in AtLeast(b, b[n]) && Dense(g, AtLeast(b, b[n]), b[n]);
      assert AtLeast(b, b[n]) <= AtLeast(a, b[n]);
    }
  }

  lemma GraphIsUnique(e1: seq<Edge>, g1: Graph, e2: seq<Edge>, g2: Graph)
    requires IsGraphOf(g1, e1) && NoneIsolated(g1) && IsGraphOf(g2, e2) && NoneIsolated(g2)
    requires forall a, b :: Linked(e1, a, b) <==> Linked(e2, a, b)
    ensures g1 == g2
  {
    hide Linked;
    forall a ensures Adjacent(g1, a) == Adjacent(g2, a) {
      forall b ensures b in Adjacent(g1, a) <==> b in Adjacent(g2, a) {
        assert Linked(e1, a, b) <==> Linked(e2, a, b);
      }
    }
    assert g1.Keys == g2.Keys by {
      forall a ensures a in g1 <==> a in g2 {
        assert Adjacent(g1, a) == Adjacent(g2, a);
      }
    }
    forall a | a in g1 ensures g1[a] == g2[a] {
      assert Adjacent(g1, a) == Adjacent(g2, a);
    }
  }

  /** The core numbers of the graph of the edges. */
  ghost predicate AreCoreNumbersOf(edges: seq<Edge>, core: map<Node, int>) {
    exists g :: IsGraphOf(g, edges) && NoneIsolated(g) && IsCoreNumbering(g, core)
  }

  /** Core numbers depend only on which pairs are linked: not on edge order, repetition, direction or weight. */
  lemma CoreNumbersDependOnLinksOnly(e1: seq<Edge>, c1: map<Node, int>, e2: seq<Edge>, c2: map<Node, int>)
    requires AreCoreNumbersOf(e1, c1) && AreCoreNumbersOf(e2, c2)
    requires forall a, b :: Linked(e1, a, b) <==> Linked(e2, a, b)
    ensures c1 == c2
  {
    hide IsGraphOf, NoneIsolated, IsCoreNumbering, Linked;
    var g1 :| IsGraphOf(g1, e1) && NoneIsolated(g1) && IsCoreNumbering(g1, c1);
    var g2 :| IsGraphOf(g2, e2) && NoneIsolated(g2) && IsCoreNumbering(g2, c2);
    GraphIsUnique(e1, g1, e2, g2);
    CoreNumbersAreUnique(g1, c1, c2);
  }

  /** A node's core number is the largest k for which some dense set contains it. */
  lemma CoreNumberIsLargestDenseMembership(g: Graph, core: map<Node, int>, n: Node, k: int)
    requires IsCoreNumbering(g, core) && n in g
    ensures k <= core[n] <==> exists s :: Dense(g, s, k) && n in s
  {
    if k <= core[n] {
      assert n in AtLeast(core, k) && Dense(g, AtLeast(core, k), k);
    }
    if s :| Dense(g, s, k) && n in s {
      assert s <= AtLeast(core, k);
    }
  }

  /** Edges without weight do not count: two lists with the same edges of positive weight have the same core numbers. */
  lemma WeightlessEdgesDoNotCount(e1: seq<Edge>, c1: map<Node, int>, e2: seq<Edge>, c2: map<Node, int>)
    requires AreCoreNumbersOf(e1, c1) && AreCoreNumbersOf(e2, c2)
    requires forall e: Edge :: e.weight > 0.0 ==> (e in e1 <==> e in e2)
    ensures c1 == c2
  {
    hide AreCoreNumbersOf;
    CoreNumbersDependOnLinksOnly(e1, c1, e2, c2);
  }

  /** The nodes joined to `n`. */
  function Neighbours(edges: seq<Edge>, n: Node): set<Node> {
    (set e | e in edges && e.weight > 0.0 && e.source == n :: e.target) + (set e | e in edges && e.weight > 0.0 && e.target == n :: e.source)
  }

  lemma AdjacentAre(g: Graph, edges: seq<Edge>, n: Node)
    requires IsGraphOf(g, edges)
    ensures Adjacent(g, n) == Neighbours(edges, n)
  {
    forall m ensures m in Adjacent(g, n) <==> m in Neighbours(edges, n) {
      assert m in Adjacent(g, n) <==> Linked(edges, n, m);
    }
  }

  /** Exactly the nodes with a neighbour have a core number; it is at least one, and at most the number of neighbours. */
  lemma CoreBounds(edges: seq<Edge>, core: map<Node, int>, n: Node)
    requires AreCoreNumbersOf(edges, core)
    ensures n in core <==> Neighbours(edges, n) != {}
    ensures n in core ==> 1 <= core[n] <= |Neighbours(edges, n)|
  {
    hide IsGraphOf, NoneIsolated, IsCoreNumbering, Neighbours;
    var g :| IsGraphOf(g, edges) && NoneIsolated(g) && IsCoreNumbering(g, core);
    AdjacentAre(g, edges, n);
    AllAreOneDense(g, edges);
    CoreNodes(g, core, n);
  }

  lemma CoreNodes(g: Graph, core: map<Node, int>, n: Node)
    requires IsCoreNumbering(g, core) && NoneIsolated(g) && Dense(g, g.Keys, 1)
    ensures n in core <==> Adjacent(g, n) != {}
    ensures n in core ==> 1 <= core[n] <= |Adjacent(g, n)|
  {
    if n in core {
      assert g.Keys <= AtLeast(core, 1);
      var s := AtLeast(core, core[n]);
      assert n in s && Dense(g, s, core[n]);
      SubsetSize(Adjacent(g, n) * s, Adjacent(g, n));
    }
    hide IsCoreNumbering, Dense;
  }

  lemma AllAreOneDense(g: Graph, edges: seq<Edge>)
    requires IsGraphOf(g, edges) && NoneIsolated(g)
    ensures Dense(g, g.Keys, 1)
  {
    forall n | n in g ensures |Adjacent(g, n) * g.Keys| >= 1 {
      var m :| m in Adjacent(g, n);
      assert Linked(edges, n, m) && Linked(edges, m, n);
      assert n in Adjacent(g, m);
      assert m in Adjacent(g, n) * g.Keys;
    }
  }

  // ---- building the graph ------------------------------------------------

  function Link(g: Graph, a: Node, b: Node): Graph {
    g[a := Adjacent(g, a) + {b}]
  }

  lemma LinkBothWays(g: Graph, edges: seq<Edge>, e: Edge)
    requires IsGraphOf(g, edges) && Undirected(g) && NoneIsolated(g) && e.weight > 0.0
    ensures var h := Link(Link(g, e.source, e.target), e.target, e.source);
            IsGraphOf(h, edges + [e]) && Undirected(h) && NoneIsolated(h)
  {
    hide IsGraphOf;
    var h := Link(Link(g, e.source, e.target), e.target, e.source);
    forall a, b
      ensures b in Adjacent(h, a) <==> b in Adjacent(g, a) || (e.source == a && e.target == b) || (e.source == b && e.target == a)
    {}
    GraphGrows(g, h, edges, e);
    assert NoneIsolated(h) by {
      forall a | a in h ensures Adjacent(h, a) != {} {
        assert a == e.source ==> e.target in Adjacent(h, a);
        assert a == e.target ==> e.source in Adjacent(h, a);
      }
    }
  }

  lemma GraphGrows(g: Graph, h: Graph, edges: seq<Edge>, e: Edge)
    requires IsGraphOf(g, edges) && e.weight > 0.0
    requires forall a, b ::
               b in Adjacent(h, a) <==> b in Adjacent(g, a) || (e.source == a && e.target == b) || (e.source == b && e.target == a)
    ensures IsGraphOf(h, edges + [e])
  {
    hide Linked, Adjacent;
    forall a, b ensures b in Adjacent(h, a) <==> Linked(edges + [e], a, b) {
      LinkedAppend(edges, e, a, b);
    }
  }

  lemma LinkedAppend(edges: seq<Edge>, e: Edge, a: Node, b: Node)
    ensures Linked(edges + [e], a, b) <==>
            Linked(edges, a, b) || (e.weight > 0.0 && ((e.source == a && e.target == b) || (e.source == b && e.target == a)))
  {
    assert forall x :: x in edges + [e] <==> x in edges || x == e;
    assert e in edges + [e];
  }

  method BuildGraph(edges: seq<Edge>) returns (g: Graph)
    ensures IsGraphOf(g, edges) && Undirected(g) && NoneIsolated(g)
  {
    g := map[];
    for i := 0 to |edges|
      invariant IsGraphOf(g, edges[..i]) && Undirected(g) && NoneIsolated(g)
    {
      var e := edges[i];
      assert edges[..i + 1] == edges[..i] + [e];
      if e.weight > 0.0 {
        LinkBothWays(g, edges[..i], e);
        g := Link(g, e.source, e.target);
        g := Link(g, e.target, e.source);
      } else {
        forall a, b ensures Linked(edges[..i + 1], a, b) <==> Linked(edges[..i], a, b) {
          LinkedAppend(edges[..i], e, a, b);
        }
      }
    }
    assert edges[..|edges|] == edges;
  }

  // ---- peeling -----------------------------------------------------------

  /** The peeled graph at level k: what remains, and what was removed at level k or above. */
  ghost function Level(remaining: set<Node>, core: map<Node, int>, k: int): set<Node> {
    remaining + AtLeast(core, k)
  }

  ghost predicate DegreesExact(g: Graph, degree: map<Node, int>, remaining: set<Node>) {
    degree.Keys == g.Keys && forall n :: n in remaining ==> n in g && degree[n] == |g[n] * remaining|
  }

  /** Every level up to `k` is dense. */
  ghost predicate LevelsDense(g: Graph, remaining: set<Node>, core: map<Node, int>, k: int) {
    forall j :: 0 <= j <= k ==> Dense(g, Level(remaining, core, j), j)
  }

  /** No dense set lost a node at a level below its own density. */
  ghost predicate NoEarlyRemoval(g: Graph, remaining: set<Node>, core: map<Node, int>) {
    forall j, s, n :: Dense(g, s, j) && n in s && n !in remaining ==> n in core && core[n] >= j
  }

  ghost predicate Peeling(g: Graph, remaining: set<Node>, core: map<Node, int>, k: int) {
    core.Keys == g.Keys && remaining <= g.Keys && 0 <= k && forall n :: n in core ==> 0 <= core[n] <= k
  }

  /** What every removal keeps. */
  ghost predicate PeelInvariant(g: Graph, remaining: set<Node>, core: map<Node, int>, k: int) {
    && Peeling(g, remaining, core, k)
    && LevelsDense(g, remaining, core, k)
    && NoEarlyRemoval(g, remaining, core)
  }

  lemma LevelUnchanged(remaining: set<Node>, core: map<Node, int>, k: int, node: Node, j: int)
    requires node in remaining && j <= k
    ensures Level(remaining - {node}, core[node := k], j) == Level(remaining, core, j)
  {
    var a, b := Level(remaining - {node}, core[node := k], j), Level(remaining, core, j);
    forall n ensures n in a <==> n in b {}
  }

  lemma RemovalKeepsLevels(g: Graph, remaining: set<Node>, core: map<Node, int>, k: int, node: Node)
    requires LevelsDense(g, remaining, core, k) && node in remaining
    ensures LevelsDense(g, remaining - {node}, core[node := k], k)
  {
    hide Dense, Level;
    var rest, core' := remaining - {node}, core[node := k];
    forall j | 0 <= j <= k ensures Dense(g, Level(rest, core', j), j) {
      LevelUnchanged(remaining, core, k, node, j);
      assert Dense(g, Level(remaining, core, j), j);
    }
  }

  /** A set denser than the current level lies wholly inside what remains, where a node of low
      remaining degree cannot belong to it. */
  lemma LowNodeInNoDenserSet(g: Graph, remaining: set<Node>, core: map<Node, int>, k: int, node: Node, s: set<Node>, j: int)
    requires Peeling(g, remaining, core, k) && NoEarlyRemoval(g, remaining, core)
    requires node in remaining && |g[node] * remaining| <= k
    requires Dense(g, s, j) && node in s
    ensures j <= k
  {
    if j > k {
      forall n | n in s ensures n in remaining {
        assert n in core;
      }
      assert Adjacent(g, node) == g[node];
      SubsetSize(g[node] * s, g[node] * remaining);
    }
  }

  lemma RemovalKeepsInvariant(g: Graph, remaining: set<Node>, core: map<Node, int>, k: int, node: Node)
    requires PeelInvariant(g, remaining, core, k)
    requires node in remaining && |g[node] * remaining| <= k
    ensures PeelInvariant(g, remaining - {node}, core[node := k], k)
  {
    RemovalKeepsLevels(g, remaining, core, k, node);
    forall j, s, n | Dense(g, s, j) && n in s && n !in remaining - {node} ensures core[node := k][n] >= j {
      if n == node {
        LowNodeInNoDenserSet(g, remaining, core, k, node, s, j);
      }
    }
  }

  lemma RaisingKeepsInvariant(g: Graph, remaining: set<Node>, core: map<Node, int>, k: int, k': int)
    requires PeelInvariant(g, remaining, core, k) && k <= k'
    requires forall n :: n in remaining ==> |g[n] * remaining| >= k'
    ensures PeelInvariant(g, remaining, core, k')
  {
    forall j | 0 <= j <= k' ensures Dense(g, Level(remaining, core, j), j) {
      if j <= k {
        assert Dense(g, Level(remaining, core, j), j);
      } else {
        assert Level(remaining, core, j) == remaining;
      }
    }
  }

  lemma NothingPeeled(g: Graph)
    ensures PeelInvariant(g, g.Keys, map n | n in g :: 0, 0)
  {
    var core := map n | n in g :: 0;
    assert Level(g.Keys, core, 0) == g.Keys;
    assert Dense(g, g.Keys, 0);
  }

  lemma PeeledIsCoreNumbering(g: Graph, core: map<Node, int>, k: int)
    requires PeelInvariant(g, {}, core, k)
    ensures IsCoreNumbering(g, core)
  {
    forall j ensures Dense(g, AtLeast(core, j), j) {
      if 0 <= j <= k {
        assert Level({}, core, j) == AtLeast(core, j);
        assert Dense(g, Level({}, core, j), j);
      } else if j > k {
        assert AtLeast(core, j) == {};
      }
    }
    forall j, s | Dense(g, s, j) ensures s <= AtLeast(core, j) {
      forall n | n in s ensures n in AtLeast(core, j) {
        assert n in g;
      }
    }
  }

  method InitialDegrees(g: Graph) returns (degree: map<Node, int>)
    requires Undirected(g)
    ensures DegreesExact(g, degree, g.Keys)
  {
    degree := map n | n in g :: |g[n]|;
    forall n | n in g ensures g[n] * g.Keys == g[n] {
      forall b | b in g[n] ensures b in g {
        assert b in Adjacent(g, n) && n in Adjacent(g, b);
      }
    }
  }

  /** The nodes of `s` whose degree is at most `k`, in some order. */
  method LowDegree(s: set<Node>, degree: map<Node, int>, k: int) returns (queue: seq<Node>)
    requires s <= degree.Keys
    ensures forall n :: n in queue <==> n in s && degree[n] <= k
  {
    queue := [];
    var todo := s;
    while todo != {}
      invariant todo <= s
      invariant forall n :: n in queue <==> n in s - todo && degree[n] <= k
    {
      var n :| n in todo;
      todo := todo - {n};
      if degree[n] <= k {
        queue := queue + [n];
      }
    }
  }

  method MinimumDegree(s: set<Node>, degree: map<Node, int>) returns (low: int)
    requires s != {} && s <= degree.Keys
    ensures exists n :: n in s && degree[n] == low
    ensures forall n :: n in s ==> low <= degree[n]
  {
    var first :| first in s;
    low := degree[first];
    var todo := s - {first};
    while todo != {}
      invariant todo <= s
      invariant exists n :: n in s && degree[n] == low
      invariant forall n :: n in s - todo ==> low <= degree[n]
    {
      var n :| n in todo;
      todo := todo - {n};
      if degree[n] < low {
        low := degree[n];
      }
    }
  }

  lemma DegreesAfterRemoval(g: Graph, node: Node, remaining: set<Node>, degree: map<Node, int>, degree': map<Node, int>)
    requires Undirected(g) && node in g && node !in remaining && degree'.Keys == g.Keys
    requires DegreesExact(g, degree, remaining + {node})
    requires forall n :: n in remaining ==> n in degree' && degree'[n] == (if n in g[node] then degree[n] - 1 else degree[n])
    ensures DegreesExact(g, degree', remaining)
  {
    forall n | n in remaining ensures degree'[n] == |g[n] * remaining| {
      assert n in remaining + {node};
      assert node in Adjacent(g, n) <==> n in Adjacent(g, node);
      if n in g[node] {
        assert g[n] * (remaining + {node}) == g[n] * remaining + {node};
      } else {
        assert g[n] * (remaining + {node}) == g[n] * remaining;
      }
    }
  }

  /** After `node` left the remaining set, take one from the degree of each neighbour still there
      and queue the neighbours that fell to `k` or below. */
  method RelaxNeighbours(g: Graph, node: Node, remaining: set<Node>, degree: map<Node, int>, queue: seq<Node>, k: int)
    returns (degree': map<Node, int>, queue': seq<Node>)
    requires Undirected(g) && node in g && node !in remaining && remaining <= g.Keys
    requires degree.Keys == g.Keys && DegreesExact(g, degree, remaining + {node})
    requires forall n :: n in queue && n in remaining ==> degree[n] <= k
    ensures DegreesExact(g, degree', remaining)
    ensures forall n :: n in queue' && n in remaining ==> degree'[n] <= k
  {
    hide DegreesExact, Undirected;
    degree', queue' := degree, queue;
    var todo := g[node];
    while todo != {}
      invariant todo <= g[node]
      invariant degree'.Keys == g.Keys
      invariant forall n :: n in remaining ==> degree'[n] == (if n in g[node] && n !in todo then degree[n] - 1 else degree[n])
      invariant forall n :: n in queue' && n in remaining ==> degree'[n] <= k
    {
      var n :| n in todo;
      todo := todo - {n};
      if n in remaining {
        degree' := degree'[n := degree'[n] - 1];
        if degree'[n] <= k {
          queue' := queue' + [n];
        }
      }
    }
    DegreesAfterRemoval(g, node, remaining, degree, degree');
  }

  /** Remove queued nodes, and the neighbours they pull down, at level `k`. The queue may name a node
      twice or name one already removed. */
  method Drain(g: Graph, k: int, queue: seq<Node>, remaining: set<Node>, core: map<Node, int>, degree: map<Node, int>)
    returns (remaining': set<Node>, core': map<Node, int>, degree': map<Node, int>)
    requires Undirected(g) && DegreesExact(g, degree, remaining) && PeelInvariant(g, remaining, core, k)
    requires queue != [] && forall n :: n in queue ==> n in remaining && degree[n] <= k
    ensures DegreesExact(g, degree', remaining') && PeelInvariant(g, remaining', core', k)
    ensures remaining' < remaining
  {
    hide LevelsDense, NoEarlyRemoval;
    remaining', core', degree' := remaining, core, degree;
    var removable := queue;
    while removable != []
      invariant DegreesExact(g, degree', remaining') && PeelInvariant(g, remaining', core', k)
      invariant forall n :: n in removable && n in remaining' ==> degree'[n] <= k
      invariant remaining' <= remaining
      invariant remaining' < remaining || (removable != [] && removable[0] in remaining')
      decreases remaining', |removable|
    {
      var node := removable[0];
      assert node in removable;
      removable := removable[1..];
      if node in remaining' {
        RemovalKeepsInvariant(g, remaining', core', k, node);
        ghost var wide := remaining';
        remaining' := remaining' - {node};
        core' := core'[node := k];
        assert remaining' + {node} == wide;
        degree', removable := RelaxNeighbours(g, node, remaining', degree', removable, k);
      }
    }
  }

  /** The nodes to remove next. When none is at or below the level, the level rises to the least remaining degree. */
  method NextQueue(g: Graph, k: int, remaining: set<Node>, ghost core: map<Node, int>, degree: map<Node, int>)
    returns (k': int, removable: seq<Node>)
    requires remaining != {} && DegreesExact(g, degree, remaining) && PeelInvariant(g, remaining, core, k)
    ensures PeelInvariant(g, remaining, core, k')
    ensures removable != [] && forall n :: n in removable <==> n in remaining && degree[n] <= k'
    ensures k' == k || (k' > k && forall n :: n in remaining ==> degree[n] >= k')
  {
    hide LevelsDense, NoEarlyRemoval;
    k' := k;
    removable := LowDegree(remaining, degree, k);
    if removable == [] {
      k' := MinimumDegree(remaining, degree);
      assert forall n :: n in remaining ==> n !in removable;
      RaisingKeepsInvariant(g, remaining, core, k, k');
      removable := LowDegree(remaining, degree, k');
      assert exists n :: n in remaining && n in removable;
    }
  }

  /** Peel level by level. */
  method CoreNumbers(edges: seq<Edge>) returns (core: map<Node, int>)
    ensures AreCoreNumbersOf(edges, core)
  {
    hide DegreesExact, LevelsDense, NoEarlyRemoval, IsGraphOf, NoneIsolated, IsCoreNumbering;
    var adjacency := BuildGraph(edges);
    var degree := InitialDegrees(adjacency);
    var remaining := adjacency.Keys;
    core := map n | n in adjacency :: 0;
    var k := 0;
    NothingPeeled(adjacency);
    while remaining != {}
      invariant DegreesExact(adjacency, degree, remaining) && PeelInvariant(adjacency, remaining, core, k)
      decreases remaining
    {
      var removable: seq<Node>;
      k, removable := NextQueue(adjacency, k, remaining, core, degree);
      remaining, core, degree := Drain(adjacency, k, removable, remaining, core, degree);
    }
    PeeledIsCoreNumbering(adjacency, core, k);
  }
}
