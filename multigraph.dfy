/** The networkx `MultiDiGraph` that backs the knowledge graph, modelled directly:
    node names in insertion order, one attribute dictionary per node, and every
    edge as a record in one flat sequence in the order the edges were added.

    networkx keeps, per node, a successor dictionary and a predecessor dictionary
    whose keys appear in the order the first edge to (from) that neighbour was
    added, and per ordered pair a dictionary of parallel edges in key order.  The
    functions below derive exactly those orders from the flat edge sequence. */
module MultiGraph {
  import opened Values

  datatype Edge = Edge(src: string, tgt: string, attrs: Attrs)

  datatype MultiDiGraph = MultiDiGraph(order: seq<string>, nodes: map<string, Attrs>, edges: seq<Edge>)

  /** `nx.MultiDiGraph()` */
  const Empty: MultiDiGraph := MultiDiGraph([], map[], [])

  predicate Distinct<T(==)>(s: seq<T>) {
    forall i, j :: 0 <= i < j < |s| ==> s[i] != s[j]
  }

  /** Node names are listed once each, the listed names are exactly the nodes,
      and both endpoints of every edge are nodes. */
  ghost predicate Valid(g: MultiDiGraph) {
    && Distinct(g.order)
    && (forall n :: n in g.nodes <==> n in g.order)
    && (forall e :: e in g.edges ==> e.src in g.nodes && e.tgt in g.nodes)
  }

  lemma EmptyValid()
    ensures Valid(Empty) && Empty.nodes == map[] && Empty.edges == []
  {
  }

  /** `G.add_node(n, **attrs)`: a new node goes to the end of the node order; an
      existing node keeps its place and its attributes are updated with `attrs`. */
  function AddNode(g: MultiDiGraph, n: string, attrs: Attrs): (r: MultiDiGraph)
    ensures Valid(g) ==> Valid(r)
    ensures n in r.nodes && r.nodes[n] == (if n in g.nodes then g.nodes[n] + attrs else attrs)
    ensures forall m :: m != n ==> (m in r.nodes <==> m in g.nodes)
    ensures forall m :: m != n && m in g.nodes ==> r.nodes[m] == g.nodes[m]
    ensures r.order == (if n in g.nodes then g.order else g.order + [n])
    ensures r.edges == g.edges
  {
    if n in g.nodes then g.(nodes := g.nodes[n := g.nodes[n] + attrs])
    else g.(order := g.order + [n], nodes := g.nodes[n := attrs])
  }

  /** The implicit node creation of `add_edge`: a missing endpoint becomes a node
      with no attributes; a present one is left alone. */
  function EnsureNode(g: MultiDiGraph, n: string): (r: MultiDiGraph)
    ensures Valid(g) ==> Valid(r)
    ensures n in r.nodes && (n !in g.nodes ==> r.nodes[n] == map[])
    ensures forall m :: m in g.nodes ==> m in r.nodes && r.nodes[m] == g.nodes[m]
    ensures forall m :: m in r.nodes ==> m in g.nodes || m == n
    ensures r.order == (if n in g.nodes then g.order else g.order + [n])
    ensures r.edges == g.edges
  {
    if n in g.nodes then g else AddNode(g, n, map[])
  }

  /** `G.add_edge(u, v, **attrs)`: never merges with an existing edge; creates
      `u` and then `v` when missing. */
  function AddEdge(g: MultiDiGraph, u: string, v: string, attrs: Attrs): (r: MultiDiGraph)
    ensures Valid(g) ==> Valid(r)
    ensures r.edges == g.edges + [Edge(u, v, attrs)]
    ensures u in r.nodes && v in r.nodes
    ensures forall m :: m in g.nodes ==> m in r.nodes && r.nodes[m] == g.nodes[m]
    ensures forall m :: m in r.nodes ==> m in g.nodes || m == u || m == v
    ensures forall m :: m in r.nodes && m !in g.nodes ==> r.nodes[m] == map[]
    ensures g.order <= r.order
  {
    var g2 := EnsureNode(EnsureNode(g, u), v);
    g2.(edges := g2.edges + [Edge(u, v, attrs)])
  }

  /** An edge between two existing nodes adds no node. */
  lemma AddEdgeBetweenNodes(g: MultiDiGraph, u: string, v: string, attrs: Attrs)
    requires u in g.nodes && v in g.nodes
    ensures AddEdge(g, u, v, attrs).nodes == g.nodes && AddEdge(g, u, v, attrs).order == g.order
  {
  }

  /** The elements of `s` in the order of their first occurrence. */
  function Dedup(s: seq<string>): (r: seq<string>)
    ensures Distinct(r)
    ensures forall x :: x in r <==> x in s
  {
    if s == [] then []
    else
      var d := Dedup(s[..|s| - 1]);
      assert forall x :: x in s <==> x in s[..|s| - 1] || x == s[|s| - 1];
      if s[|s| - 1] in d then d else d + [s[|s| - 1]]
  }

  /** The targets of the edges leaving `u`, one per edge, in edge order. */
  function OutTargets(es: seq<Edge>, u: string): (r: seq<string>)
    ensures forall x :: x in r <==> exists e :: e in es && e.src == u && e.tgt == x
  {
    if es == [] then []
    else
      var e := es[|es| - 1];
      assert forall f :: f in es <==> f in es[..|es| - 1] || f == e;
      OutTargets(es[..|es| - 1], u) + (if e.src == u then [e.tgt] else [])
  }

  /** The sources of the edges entering `v`, one per edge, in edge order. */
  function InSources(es: seq<Edge>, v: string): (r: seq<string>)
    ensures forall x :: x in r <==> exists e :: e in es && e.tgt == v && e.src == x
  {
    if es == [] then []
    else
      var e := es[|es| - 1];
      assert forall f :: f in es <==> f in es[..|es| - 1] || f == e;
      InSources(es[..|es| - 1], v) + (if e.tgt == v then [e.src] else [])
  }

  /** `G.successors(u)`: each target of an edge from `u` once, in the order the
      first such edge was added. */
  function Successors(g: MultiDiGraph, u: string): (r: seq<string>)
    ensures Distinct(r)
    ensures forall x :: x in r <==> exists e :: e in g.edges && e.src == u && e.tgt == x
  {
    Dedup(OutTargets(g.edges, u))
  }

  /** `G.predecessors(v)`: each source of an edge into `v` once, in the order the
      first such edge was added. */
  function Predecessors(g: MultiDiGraph, v: string): (r: seq<string>)
    ensures Distinct(r)
    ensures forall x :: x in r <==> exists e :: e in g.edges && e.tgt == v && e.src == x
  {
    Dedup(InSources(g.edges, v))
  }

  /** The parallel edges from `u` to `v`, in the order they were added. */
  function PairEdges(es: seq<Edge>, u: string, v: string): (r: seq<Edge>)
    ensures forall e :: e in r <==> e in es && e.src == u && e.tgt == v
  {
    if es == [] then []
    else
      var e := es[|es| - 1];
      assert forall f :: f in es <==> f in es[..|es| - 1] || f == e;
      PairEdges(es[..|es| - 1], u, v) + (if e.src == u && e.tgt == v then [e] else [])
  }

  /** The attribute dictionaries of `p`, in order. */
  function AttrsOf(p: seq<Edge>): (r: seq<Attrs>)
    ensures |r| == |p| && forall k :: 0 <= k < |p| ==> r[k] == p[k].attrs
  {
    seq(|p|, k requires 0 <= k < |p| => p[k].attrs)
  }

  /** `G.get_edge_data(u, v).values()`: the attributes of the parallel edges from
      `u` to `v`, in key order. */
  function EdgeData(g: MultiDiGraph, u: string, v: string): (r: seq<Attrs>)
    ensures forall d :: d in r <==> Edge(u, v, d) in g.edges
  {
    var p := PairEdges(g.edges, u, v);
    var r := AttrsOf(p);
    assert forall d :: d in r ==> Edge(u, v, d) in p by {
      forall d | d in r ensures Edge(u, v, d) in p {
        var k :| 0 <= k < |r| && r[k] == d;
        assert p[k] in p;
      }
    }
    assert forall d :: Edge(u, v, d) in p ==> d in r by {
      forall d | Edge(u, v, d) in p ensures d in r {
        var k :| 0 <= k < |p| && p[k] == Edge(u, v, d);
        assert r[k] == d;
      }
    }
    r
  }

  /** The edges leaving `u`, grouped by target in the order of `vs`: what
      `G.edges(u, data=True)` lists when `vs` is `G.successors(u)`. */
  function GroupedOut(es: seq<Edge>, u: string, vs: seq<string>): (r: seq<Edge>)
    ensures forall e :: e in r ==> e in es
  {
    if vs == [] then []
    else GroupedOut(es, u, vs[..|vs| - 1]) + PairEdges(es, u, vs[|vs| - 1])
  }

  /** The edges leaving `u`, in networkx's iteration order. */
  function OutEdges(g: MultiDiGraph, u: string): (r: seq<Edge>)
    ensures forall e :: e in r ==> e in g.edges
  {
    GroupedOut(g.edges, u, Successors(g, u))
  }

  /** The edges entering `v`, grouped by source in the order of `us`: what the
      loop over `G.predecessors(v)` and `G.get_edge_data(u, v)` visits. */
  function GroupedIn(es: seq<Edge>, v: string, us: seq<string>): (r: seq<Edge>)
    ensures forall e :: e in r ==> e in es
  {
    if us == [] then []
    else GroupedIn(es, v, us[..|us| - 1]) + PairEdges(es, us[|us| - 1], v)
  }

  /** The edges entering `v`, grouped by predecessor. */
  function InEdges(g: MultiDiGraph, v: string): (r: seq<Edge>)
    ensures forall e :: e in r ==> e in g.edges
  {
    GroupedIn(g.edges, v, Predecessors(g, v))
  }

  /** The edges of `es` leaving `u`, in edge order. */
  function Leaving(es: seq<Edge>, u: string): (r: seq<Edge>)
    ensures |r| == |OutTargets(es, u)|
  {
    if es == [] then []
    else
      var e := es[|es| - 1];
      Leaving(es[..|es| - 1], u) + (if e.src == u then [e] else [])
  }

  /** The edges of `es` entering `v`, in edge order. */
  function Entering(es: seq<Edge>, v: string): (r: seq<Edge>)
    ensures |r| == |InSources(es, v)|
  {
    if es == [] then []
    else
      var e := es[|es| - 1];
      Entering(es[..|es| - 1], v) + (if e.tgt == v then [e] else [])
  }

  /** `G.degree(n)` of a multigraph: edges leaving plus edges entering `n` (a self
      loop counts twice). */
  function Degree(g: MultiDiGraph, n: string): nat {
    |OutTargets(g.edges, n)| + |InSources(g.edges, n)|
  }

  /** `n in G` */
  predicate HasNode(g: MultiDiGraph, n: string) {
    n in g.nodes
  }

  /** `G.nodes[n].get(key)`, `None` also for a name that is not a node. */
  function NodeGet(g: MultiDiGraph, n: string, key: string): Option<Value> {
    if n in g.nodes then Get(g.nodes[n], key) else None
  }

  /** `G.nodes[n].get('entity_type') == kind` */
  predicate IsKind(g: MultiDiGraph, n: string, kind: string) {
    NodeGet(g, n, "entity_type") == Some(Text(kind))
  }

  /** `edge_data.get('relationship_type') == kind` */
  predicate HasType(d: Attrs, kind: string) {
    Get(d, "relationship_type") == Some(Text(kind))
  }

  // ---------------------------------------------------------------------------
  // Adding an edge never disturbs the edges that were there.

  lemma {:induction false} PairEdgesAppend(es: seq<Edge>, e: Edge, u: string, v: string)
    ensures PairEdges(es + [e], u, v) == PairEdges(es, u, v) + (if e.src == u && e.tgt == v then [e] else [])
  {
    assert (es + [e])[..|es + [e]| - 1] == es;
  }

  /** `add_edge` keeps every parallel edge already between `u` and `v` and puts the
      new one after them; the edges between any other pair are untouched. */
  lemma AddEdgeKeepsParallelEdges(g: MultiDiGraph, u: string, v: string, attrs: Attrs, x: string, y: string)
    ensures EdgeData(AddEdge(g, u, v, attrs), x, y)
         == EdgeData(g, x, y) + (if x == u && y == v then [attrs] else [])
  {
    var r := AddEdge(g, u, v, attrs);
    PairEdgesAppend(g.edges, Edge(u, v, attrs), x, y);
  }

  // ---------------------------------------------------------------------------
  // Grouping by target lists every leaving edge exactly once.

  lemma {:induction false} PairEdgesCount(es: seq<Edge>, u: string, v: string, e: Edge)
    ensures multiset(PairEdges(es, u, v))[e] == if e.src == u && e.tgt == v then multiset(es)[e] else 0
  {
    if es != [] {
      var init, last := es[..|es| - 1], es[|es| - 1];
      PairEdgesCount(init, u, v, e);
      var tail := if last.src == u && last.tgt == v then [last] else [];
      assert PairEdges(es, u, v) == PairEdges(init, u, v) + tail;
      assert multiset(PairEdges(es, u, v)) == multiset(PairEdges(init, u, v)) + multiset(tail);
      InitLast(es);
      assert multiset(es) == multiset(init) + multiset([last]);
    }
  }

  lemma {:induction false} GroupedOutCount(es: seq<Edge>, u: string, vs: seq<string>, e: Edge)
    requires Distinct(vs)
    ensures multiset(GroupedOut(es, u, vs))[e] == if e.src == u && e.tgt in vs then multiset(es)[e] else 0
  {
    if vs != [] {
      var init := vs[..|vs| - 1];
      var v := vs[|vs| - 1];
      assert Distinct(init);
      GroupedOutCount(es, u, init, e);
      PairEdgesCount(es, u, v, e);
      assert GroupedOut(es, u, vs) == GroupedOut(es, u, init) + PairEdges(es, u, v);
      assert multiset(GroupedOut(es, u, vs)) == multiset(GroupedOut(es, u, init)) + multiset(PairEdges(es, u, v));
      InitLast(vs);
      assert e.tgt in vs <==> e.tgt in init || e.tgt == v;
      assert v !in init;
    }
  }

  /** The edges listed for `u` are exactly the edges leaving `u`, each as often as
      it occurs in the graph. */
  lemma OutEdgesArePermutation(g: MultiDiGraph, u: string, e: Edge)
    ensures multiset(OutEdges(g, u))[e] == if e.src == u then multiset(g.edges)[e] else 0
  {
    var vs := Successors(g, u);
    GroupedOutCount(g.edges, u, vs, e);
    if e.src == u && e.tgt !in vs {
      assert e !in g.edges;
    }
  }

  lemma {:induction false} GroupedInCount(es: seq<Edge>, v: string, us: seq<string>, e: Edge)
    requires Distinct(us)
    ensures multiset(GroupedIn(es, v, us))[e] == if e.tgt == v && e.src in us then multiset(es)[e] else 0
  {
    if us != [] {
      var init := us[..|us| - 1];
      var u := us[|us| - 1];
      assert Distinct(init);
      GroupedInCount(es, v, init, e);
      PairEdgesCount(es, u, v, e);
      assert GroupedIn(es, v, us) == GroupedIn(es, v, init) + PairEdges(es, u, v);
      assert multiset(GroupedIn(es, v, us)) == multiset(GroupedIn(es, v, init)) + multiset(PairEdges(es, u, v));
      InitLast(us);
      assert e.src in us <==> e.src in init || e.src == u;
      assert u !in init;
    }
  }

  /** The edges listed for `v` by source are exactly the edges entering `v`, each
      as often as it occurs in the graph. */
  lemma InEdgesArePermutation(g: MultiDiGraph, v: string, e: Edge)
    ensures multiset(InEdges(g, v))[e] == if e.tgt == v then multiset(g.edges)[e] else 0
  {
    var us := Predecessors(g, v);
    GroupedInCount(g.edges, v, us, e);
    if e.tgt == v && e.src !in us {
      assert e !in g.edges;
    }
  }

  lemma {:induction false} LeavingCount(es: seq<Edge>, u: string, e: Edge)
    ensures multiset(Leaving(es, u))[e] == if e.src == u then multiset(es)[e] else 0
  {
    if es != [] {
      var init := es[..|es| - 1];
      LeavingCount(init, u, e);
      InitLast(es);
    }
  }

  lemma {:induction false} EnteringCount(es: seq<Edge>, v: string, e: Edge)
    ensures multiset(Entering(es, v))[e] == if e.tgt == v then multiset(es)[e] else 0
  {
    if es != [] {
      var init := es[..|es| - 1];
      EnteringCount(init, v, e);
      InitLast(es);
    }
  }

  /** Grouping by target loses no edge: there are as many grouped edges leaving
      `u` as the out-degree counts. */
  lemma OutEdgesCount(g: MultiDiGraph, u: string)
    ensures |OutEdges(g, u)| == |OutTargets(g.edges, u)|
  {
    forall e ensures multiset(OutEdges(g, u))[e] == multiset(Leaving(g.edges, u))[e] {
      OutEdgesArePermutation(g, u, e);
      LeavingCount(g.edges, u, e);
    }
    assert multiset(OutEdges(g, u)) == multiset(Leaving(g.edges, u));
  }

  /** Grouping by source loses no edge: there are as many grouped edges entering
      `v` as the in-degree counts. */
  lemma InEdgesCount(g: MultiDiGraph, v: string)
    ensures |InEdges(g, v)| == |InSources(g.edges, v)|
  {
    forall e ensures multiset(InEdges(g, v))[e] == multiset(Entering(g.edges, v))[e] {
      InEdgesArePermutation(g, v, e);
      EnteringCount(g.edges, v, e);
    }
    assert multiset(InEdges(g, v)) == multiset(Entering(g.edges, v));
  }
}
