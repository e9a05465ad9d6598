/** `nx.all_simple_paths(G, source, target, cutoff)` on a multigraph, as a
    depth-first search over the neighbour lists `G.edges(node)` yields.  Because a
    multigraph yields a neighbour once per parallel edge, a node path is produced
    once per distinct sequence of edges that follows it. */
module SimplePaths {
  import opened Values
  import opened MultiGraph

  /** There is at least one edge from `u` to `v`. */
  predicate Linked(g: MultiDiGraph, u: string, v: string) {
    exists e :: e in g.edges && e.src == u && e.tgt == v
  }

  /** The neighbours the search visits from `u`: `v for (u, v) in G.edges(u)`, one
      entry per edge leaving `u`. */
  function EdgeTargets(g: MultiDiGraph, u: string): (r: seq<string>)
    ensures forall x :: x in r <==> Linked(g, u, x)
  {
    var out := OutEdges(g, u);
    var r := seq(|out|, k requires 0 <= k < |out| => out[k].tgt);
    TargetsLinked(g, u, r);
    r
  }

  /** The targets of the edges leaving `u` are the nodes `u` is linked to. */
  lemma TargetsLinked(g: MultiDiGraph, u: string, r: seq<string>)
    requires var out := OutEdges(g, u); |r| == |out| && forall k :: 0 <= k < |out| ==> r[k] == out[k].tgt
    ensures forall x :: x in r <==> Linked(g, u, x)
  {
    var out := OutEdges(g, u);
    forall x | x in r ensures Linked(g, u, x) {
      var k :| 0 <= k < |out| && r[k] == x;
      assert out[k] in g.edges;
      OutEdgesArePermutation(g, u, out[k]);
    }
    forall x | Linked(g, u, x) ensures x in r {
      var e :| e in g.edges && e.src == u && e.tgt == x;
      OutEdgesArePermutation(g, u, e);
      assert e in out;
      var k :| 0 <= k < |out| && out[k] == e;
      assert r[k] == x;
    }
  }

  /** Every consecutive pair of `p` is joined by an edge. */
  predicate Walk(g: MultiDiGraph, p: seq<string>) {
    forall k :: 0 <= k < |p| - 1 ==> Linked(g, p[k], p[k + 1])
  }

  /** `p` is a simple path from `source` to `target` with at least one edge. */
  predicate IsSimplePath(g: MultiDiGraph, p: seq<string>, source: string, target: string) {
    && |p| >= 2
    && p[0] == source
    && p[|p| - 1] == target
    && Distinct(p)
    && Walk(g, p)
  }

  /** `p` is a simple path to `target` that continues the partial path `path`
      and has at most `cutoff` edges. */
  predicate Continues(g: MultiDiGraph, path: seq<string>, target: string, cutoff: nat, p: seq<string>) {
    && |path| < |p| <= cutoff + 1
    && p[..|path|] == path
    && p[|p| - 1] == target
    && Distinct(p)
    && Walk(g, p)
  }

  /** A walk stays a walk when it is extended along an edge. */
  lemma WalkSnoc(g: MultiDiGraph, path: seq<string>, c: string)
    requires 1 <= |path| && Walk(g, path) && Linked(g, path[|path| - 1], c)
    ensures Walk(g, path + [c])
  {
    var path' := path + [c];
    forall k | 0 <= k < |path'| - 1 ensures Linked(g, path'[k], path'[k + 1]) {
      if k < |path| - 1 { assert path'[k] == path[k] && path'[k + 1] == path[k + 1]; }
    }
  }

  /** What continues `path + [c]` continues `path`. */
  lemma ContinuesParent(g: MultiDiGraph, path: seq<string>, c: string, target: string, cutoff: nat, p: seq<string>)
    requires Continues(g, path + [c], target, cutoff, p)
    ensures Continues(g, path, target, cutoff, p)
  {
    assert p[..|path|] == p[..|path| + 1][..|path|];
  }

  /** The search below the partial path `path`, trying `children` (what remains
      of the neighbour list of its last node) in order: a child already on the
      path is skipped, the target closes a path, and any other child is explored
      further while the path has fewer than `cutoff` nodes. */
  function Explore(g: MultiDiGraph, path: seq<string>, target: string, cutoff: nat, children: seq<string>)
    : (r: seq<seq<string>>)
    requires 1 <= |path| <= cutoff
    requires Distinct(path) && target !in path && Walk(g, path)
    requires forall c :: c in children ==> Linked(g, path[|path| - 1], c)
    decreases cutoff - |path|, |children|
    ensures forall p :: p in r ==> Continues(g, path, target, cutoff, p)
  {
    if children == [] then []
    else
      var c := children[0];
      assert c in children;
      assert forall x :: x in children[1..] ==> x in children;
      var rest := Explore(g, path, target, cutoff, children[1..]);
      var here :=
        if c in path then []
        else if c == target then
          WalkSnoc(g, path, c);
          assert (path + [c])[..|path|] == path;
          [path + [c]]
        else if |path| < cutoff then
          WalkSnoc(g, path, c);
          var deeper := Explore(g, path + [c], target, cutoff, EdgeTargets(g, c));
          assert forall p :: p in deeper ==> Continues(g, path, target, cutoff, p) by {
            forall p | p in deeper ensures Continues(g, path, target, cutoff, p) {
              ContinuesParent(g, path, c, target, cutoff, p);
            }
          }
          deeper
        else [];
      assert forall p :: p in here + rest ==> p in here || p in rest;
      here + rest
  }

  /** The paths `all_simple_paths` yields.  A source or a target that is not a
      node, a source equal to the target, and a cutoff below one all give none. */
  function AllSimplePaths(g: MultiDiGraph, source: string, target: string, cutoff: int)
    : (r: seq<seq<string>>)
    ensures forall p :: p in r ==> IsSimplePath(g, p, source, target) && |p| - 1 <= cutoff
    ensures source !in g.nodes || target !in g.nodes || cutoff < 1 ==> r == []
  {
    if source !in g.nodes || target !in g.nodes || source == target || cutoff < 1 then []
    else
      var r := Explore(g, [source], target, cutoff, EdgeTargets(g, source));
      assert forall p :: p in r ==> IsSimplePath(g, p, source, target) && |p| - 1 <= cutoff by {
        forall p | p in r ensures IsSimplePath(g, p, source, target) && |p| - 1 <= cutoff {
          assert Continues(g, [source], target, cutoff, p);
          assert p[..1] == [source];
          assert p[0] == p[..1][0];
        }
      }
      r
  }

  /** Every simple path that extends `path` through one of `children` and stays
      within the cutoff is found by the search. */
  lemma {:induction false} ExploreComplete(g: MultiDiGraph, path: seq<string>, target: string, cutoff: nat,
                                           children: seq<string>, p: seq<string>)
    requires 1 <= |path| <= cutoff
    requires Distinct(path) && target !in path && Walk(g, path)
    requires forall c :: c in children ==> Linked(g, path[|path| - 1], c)
    requires |path| < |p| <= cutoff + 1 && p[..|path|] == path
    requires p[|p| - 1] == target && Distinct(p) && Walk(g, p)
    requires p[|path|] in children
    decreases cutoff - |path|, |children|
    ensures p in Explore(g, path, target, cutoff, children)
  {
    var c := children[0];
    assert forall x :: x in children[1..] ==> x in children;
    if c != p[|path|] {
      assert p[|path|] in children[1..];
      ExploreComplete(g, path, target, cutoff, children[1..], p);
    } else {
      assert c !in path by {
        forall k | 0 <= k < |path| ensures path[k] != c {
          assert path[k] == p[k];
        }
      }
      if c == target {
        assert p[|path|] == p[|p| - 1];
        assert |p| == |path| + 1;
        assert p == path + [c];
      } else {
        assert |p| > |path| + 1;
        var path' := path + [c];
        assert p[..|path'|] == path';
        assert Distinct(path');
        assert target !in path';
        assert Walk(g, path') by {
          forall k | 0 <= k < |path'| - 1 ensures Linked(g, path'[k], path'[k + 1]) {
            assert path'[k] == p[k] && path'[k + 1] == p[k + 1];
          }
        }
        assert Linked(g, c, p[|path'|]);
        ExploreComplete(g, path', target, cutoff, EdgeTargets(g, c), p);
      }
    }
  }

  /** Every simple path from `source` to `target` with at most `cutoff` edges is
      among the paths found. */
  lemma AllSimplePathsComplete(g: MultiDiGraph, source: string, target: string, cutoff: int, p: seq<string>)
    requires IsSimplePath(g, p, source, target) && |p| - 1 <= cutoff
    requires source in g.nodes && target in g.nodes
    ensures p in AllSimplePaths(g, source, target, cutoff)
  {
    assert source != target;
    assert Linked(g, source, p[1]);
    assert p[..1] == [source];
    ExploreComplete(g, [source], target, cutoff, EdgeTargets(g, source), p);
  }
}
