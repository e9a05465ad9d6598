/** What the read-only queries of `CompetitiveKnowledgeGraph` return, as
    functions of the graph.  Each function that mirrors a loop of the source is
    written as a fold over the same sequence, from its end, so that the loops in
    knowledge_graph.dfy can be proved against it; the lemmas say what the
    results mean in terms of the edges of the graph. */
module Queries {
  import opened Values
  import opened MultiGraph
  import opened SimplePaths
  import opened GraphStore

  // ---------------------------------------------------------------------------
  // get_competitors

  /** There is a `competes_with` edge from `a` to `b`. */
  ghost predicate Competes(g: MultiDiGraph, a: string, b: string) {
    exists d :: Edge(a, b, d) in g.edges && HasType(d, "competes_with")
  }

  /** The inner loop over the outgoing edge data to `t`: one copy of `t` per
      `competes_with` dictionary. */
  function CompetingCopies(t: string, ds: seq<Attrs>): (r: seq<string>)
    ensures forall x :: x in r ==> x == t
    ensures r != [] <==> exists d :: d in ds && HasType(d, "competes_with")
  {
    if ds == [] then []
    else
      var d := ds[|ds| - 1];
      assert forall x :: x in ds <==> x in ds[..|ds| - 1] || x == d;
      CompetingCopies(t, ds[..|ds| - 1]) + (if HasType(d, "competes_with") then [t] else [])
  }

  /** A `competes_with` edge makes each endpoint a neighbour of the other. */
  lemma CompetesLinked(g: MultiDiGraph)
    ensures forall a, b :: Competes(g, a, b) ==> b in Successors(g, a) && a in Predecessors(g, b)
  {
    forall a, b | Competes(g, a, b) ensures b in Successors(g, a) && a in Predecessors(g, b) {
      var d :| Edge(a, b, d) in g.edges && HasType(d, "competes_with");
      assert Edge(a, b, d).src == a && Edge(a, b, d).tgt == b;
    }
  }

  /** The copies the inner loop appends for the edges from `c` to `t`. */
  lemma CopiesOfEdges(g: MultiDiGraph, c: string, t: string)
    ensures forall x :: x in CompetingCopies(t, EdgeData(g, c, t)) <==> x == t && Competes(g, c, t)
  {
    var ds := EdgeData(g, c, t);
    var copies := CompetingCopies(t, ds);
    assert copies != [] <==> Competes(g, c, t) by {
      assert (exists d :: d in ds && HasType(d, "competes_with")) <==> Competes(g, c, t);
    }
    if copies != [] {
      assert copies[0] in copies;
    }
  }

  /** The first loop of `get_competitors`, over the targets `ts`. */
  function OutCompetitors(g: MultiDiGraph, c: string, ts: seq<string>): (r: seq<string>)
    ensures forall x :: x in r <==> x in ts && Competes(g, c, x)
  {
    if ts == [] then []
    else
      var t := ts[|ts| - 1];
      var r0 := OutCompetitors(g, c, ts[..|ts| - 1]);
      var copies := CompetingCopies(t, EdgeData(g, c, t));
      CopiesOfEdges(g, c, t);
      assert forall x :: x in ts <==> x in ts[..|ts| - 1] || x == t;
      assert forall x :: x in r0 + copies <==> x in r0 || x in copies;
      r0 + copies
  }

  /** The inner loop over the incoming edge data from `s`: `s` is appended at the
      first `competes_with` dictionary unless it is already listed. */
  function AddIncoming(s: string, ds: seq<Attrs>, acc: seq<string>): (r: seq<string>)
    ensures r == if (exists d :: d in ds && HasType(d, "competes_with")) && s !in acc then acc + [s] else acc
  {
    if ds == [] then acc
    else
      var d := ds[|ds| - 1];
      assert forall x :: x in ds <==> x in ds[..|ds| - 1] || x == d;
      var r := AddIncoming(s, ds[..|ds| - 1], acc);
      if HasType(d, "competes_with") && s !in r then r + [s] else r
  }

  /** What the inner incoming loop does for the edges from `s` to `c`. */
  lemma IncomingStep(g: MultiDiGraph, c: string, s: string, acc: seq<string>)
    ensures AddIncoming(s, EdgeData(g, s, c), acc) == if Competes(g, s, c) && s !in acc then acc + [s] else acc
  {
    var ds := EdgeData(g, s, c);
    assert (exists d :: d in ds && HasType(d, "competes_with")) <==> Competes(g, s, c);
  }

  /** The second loop of `get_competitors`, over the sources `ss`, starting from
      the list `acc` the first loop built. */
  function InCompetitors(g: MultiDiGraph, c: string, ss: seq<string>, acc: seq<string>): (r: seq<string>)
    ensures forall x :: x in r <==> x in acc || (x in ss && Competes(g, x, c))
    ensures |acc| <= |r| && r[..|acc|] == acc
    ensures Distinct(r[|acc|..])
    ensures forall x :: x in r[|acc|..] ==> x !in acc
  {
    if ss == [] then acc
    else
      var s := ss[|ss| - 1];
      var r0 := InCompetitors(g, c, ss[..|ss| - 1], acc);
      IncomingStep(g, c, s, r0);
      var r := AddIncoming(s, EdgeData(g, s, c), r0);
      assert forall x :: x in ss <==> x in ss[..|ss| - 1] || x == s;
      if r != r0 then
        InCompetitorsAppend(acc, r0, s);
        r
      else
        r
  }

  lemma InCompetitorsAppend(acc: seq<string>, r0: seq<string>, s: string)
    requires |acc| <= |r0| && r0[..|acc|] == acc
    requires Distinct(r0[|acc|..]) && forall x :: x in r0[|acc|..] ==> x !in acc
    requires s !in r0
    ensures var r := r0 + [s];
      && |acc| <= |r| && r[..|acc|] == acc
      && Distinct(r[|acc|..])
      && (forall x :: x in r[|acc|..] ==> x !in acc)
  {
    var r := r0 + [s];
    assert r[..|acc|] == r0[..|acc|];
    assert r[|acc|..] == r0[|acc|..] + [s];
    assert forall x :: x in r0[|acc|..] ==> x in r0 by {
      forall x | x in r0[|acc|..] ensures x in r0 {
        var k :| 0 <= k < |r0[|acc|..]| && r0[|acc|..][k] == x;
        assert r0[|acc| + k] == x;
      }
    }
    assert forall x :: x in acc ==> x in r0 by {
      forall x | x in acc ensures x in r0 {
        var k :| 0 <= k < |acc| && acc[k] == x;
        assert r0[k] == x;
      }
    }
  }

  /** `get_competitors(company)`: the outgoing competitors, once per
      `competes_with` edge, followed by the incoming-only competitors, once each. */
  function Competitors(g: MultiDiGraph, c: string): (r: seq<string>)
  {
    InCompetitors(g, c, Predecessors(g, c), OutCompetitors(g, c, Successors(g, c)))
  }

  /** A name is a competitor exactly when a `competes_with` edge joins it to the
      company in either direction. */
  lemma CompetitorsExact(g: MultiDiGraph, c: string, x: string)
    ensures x in Competitors(g, c) <==> Competes(g, c, x) || Competes(g, x, c)
  {
    CompetesLinked(g);
  }

  /** `competes_with` is read in both directions: one edge makes each endpoint a
      competitor of the other. */
  lemma CompetitorsSymmetric(g: MultiDiGraph, e: Edge)
    requires e in g.edges && HasType(e.attrs, "competes_with")
    ensures e.tgt in Competitors(g, e.src) && e.src in Competitors(g, e.tgt)
  {
    assert Edge(e.src, e.tgt, e.attrs) == e;
    CompetitorsExact(g, e.src, e.tgt);
    CompetitorsExact(g, e.tgt, e.src);
  }

  /** The list starts with the outgoing competitors; the incoming-only ones
      after them are listed once each and are not outgoing competitors. */
  lemma CompetitorsShape(g: MultiDiGraph, c: string)
    ensures var out := OutCompetitors(g, c, Successors(g, c));
      var r := Competitors(g, c);
      && |out| <= |r| && r[..|out|] == out
      && Distinct(r[|out|..])
      && (forall x :: x in r[|out|..] ==> x !in out && Competes(g, x, c) && !Competes(g, c, x))
  {
    var out := OutCompetitors(g, c, Successors(g, c));
    var r := Competitors(g, c);
    CompetesLinked(g);
    forall x | x in r[|out|..] ensures x !in out && Competes(g, x, c) && !Competes(g, c, x) {
      var k :| 0 <= k < |r[|out|..]| && r[|out|..][k] == x;
      assert r[|out| + k] == x;
      assert x in r;
    }
  }

  /** The number of `competes_with` edges from `a` to `b` among `es`. */
  function CompetingEdges(es: seq<Edge>, a: string, b: string): nat {
    if es == [] then 0
    else
      var e := es[|es| - 1];
      CompetingEdges(es[..|es| - 1], a, b) + (if e.src == a && e.tgt == b && HasType(e.attrs, "competes_with") then 1 else 0)
  }

  lemma {:induction false} CopiesPerEdge(es: seq<Edge>, a: string, b: string)
    ensures |CompetingCopies(b, AttrsOf(PairEdges(es, a, b)))| == CompetingEdges(es, a, b)
  {
    if es != [] {
      var init := es[..|es| - 1];
      var e := es[|es| - 1];
      CopiesPerEdge(init, a, b);
      var p := PairEdges(init, a, b);
      if e.src == a && e.tgt == b {
        assert PairEdges(es, a, b) == p + [e];
        var ds := AttrsOf(p + [e]);
        assert ds[..|ds| - 1] == AttrsOf(p);
        assert ds[|ds| - 1] == e.attrs;
      } else {
        assert PairEdges(es, a, b) == p;
      }
    }
  }

  lemma {:induction false} OutCompetitorsCount(g: MultiDiGraph, c: string, ts: seq<string>, x: string)
    requires Distinct(ts)
    ensures multiset(OutCompetitors(g, c, ts))[x] == if x in ts then CompetingEdges(g.edges, c, x) else 0
  {
    if ts != [] {
      var init := ts[..|ts| - 1];
      var t := ts[|ts| - 1];
      assert Distinct(init);
      OutCompetitorsCount(g, c, init, x);
      var copies := CompetingCopies(t, EdgeData(g, c, t));
      var r0 := OutCompetitors(g, c, init);
      LastOf(ts);
      OutCompetitorsSnoc(g, c, ts);
      assert multiset(r0 + copies)[x] == multiset(r0)[x] + multiset(copies)[x];
      if x == t {
        EdgeDataIsAttrsOf(g, c, t);
        CopiesPerEdge(g.edges, c, t);
        forall k | 0 <= k < |copies| ensures copies[k] == t {
          assert copies[k] in copies;
        }
        SameCount(copies, t);
        assert multiset(copies)[x] == CompetingEdges(g.edges, c, x);
        assert x in ts;
      } else {
        assert x !in copies;
        assert x !in multiset(copies);
      }
    }
  }

  /** Membership in a non-empty sequence, split at its last element. */
  lemma LastOf(s: seq<string>)
    requires s != []
    ensures forall x :: x in s <==> x in s[..|s| - 1] || x == s[|s| - 1]
    ensures Distinct(s) ==> Distinct(s[..|s| - 1]) && s[|s| - 1] !in s[..|s| - 1]
  {
    InitLast(s);
  }

  lemma OutCompetitorsSnoc(g: MultiDiGraph, c: string, ts: seq<string>)
    requires ts != []
    ensures OutCompetitors(g, c, ts)
         == OutCompetitors(g, c, ts[..|ts| - 1]) + CompetingCopies(ts[|ts| - 1], EdgeData(g, c, ts[|ts| - 1]))
  {
  }

  lemma EdgeDataIsAttrsOf(g: MultiDiGraph, u: string, v: string)
    ensures EdgeData(g, u, v) == AttrsOf(PairEdges(g.edges, u, v))
  {
  }

  lemma {:induction false} SameCount(s: seq<string>, t: string)
    requires forall k :: 0 <= k < |s| ==> s[k] == t
    ensures multiset(s)[t] == |s|
  {
    if s != [] {
      InitLast(s);
      SameCount(s[..|s| - 1], t);
    }
  }

  /** An outgoing competitor is listed once per `competes_with` edge to it. */
  lemma OutgoingCompetitorMultiplicity(g: MultiDiGraph, c: string, x: string)
    requires Competes(g, c, x)
    ensures multiset(OutCompetitors(g, c, Successors(g, c)))[x] == CompetingEdges(g.edges, c, x)
  {
    var d :| Edge(c, x, d) in g.edges && HasType(d, "competes_with");
    assert x in Successors(g, c);
    OutCompetitorsCount(g, c, Successors(g, c), x);
  }

  // ---------------------------------------------------------------------------
  // get_shared_markets, get_company_products

  /** The names in `ns` whose node has the given `entity_type`, in order. */
  function OfKind(g: MultiDiGraph, ns: seq<string>, kind: string): (r: seq<string>)
    ensures forall x :: x in r <==> x in ns && IsKind(g, x, kind)
    ensures |r| <= |ns|
    ensures Distinct(ns) ==> Distinct(r)
  {
    if ns == [] then []
    else
      var n := ns[|ns| - 1];
      assert forall x :: x in ns <==> x in ns[..|ns| - 1] || x == n;
      assert Distinct(ns) ==> Distinct(ns[..|ns| - 1]) && n !in ns[..|ns| - 1];
      OfKind(g, ns[..|ns| - 1], kind) + (if IsKind(g, n, kind) then [n] else [])
  }

  /** `markets1` (or `markets2`) of `get_shared_markets`. */
  function MarketsOf(g: MultiDiGraph, c: string): set<string> {
    set t | t in Successors(g, c) && IsKind(g, t, "market")
  }

  /** `get_shared_markets(company1, company2)`, as a set (the source returns the
      set intersection as a list in no particular order). */
  function SharedMarkets(g: MultiDiGraph, a: string, b: string): set<string> {
    MarketsOf(g, a) * MarketsOf(g, b)
  }

  /** A shared market is a market node that both companies have an edge to. */
  lemma SharedMarketsExact(g: MultiDiGraph, a: string, b: string, m: string)
    ensures m in SharedMarkets(g, a, b) <==> IsKind(g, m, "market") && Linked(g, a, m) && Linked(g, b, m)
  {
    if Linked(g, a, m) {
      var e :| e in g.edges && e.src == a && e.tgt == m;
      assert m in Successors(g, a);
    }
    if Linked(g, b, m) {
      var e :| e in g.edges && e.src == b && e.tgt == m;
      assert m in Successors(g, b);
    }
  }

  lemma SharedMarketsCommute(g: MultiDiGraph, a: string, b: string)
    ensures SharedMarkets(g, a, b) == SharedMarkets(g, b, a)
  {
  }

  /** `get_company_products(company)` */
  function CompanyProducts(g: MultiDiGraph, c: string): (r: seq<string>) {
    OfKind(g, Successors(g, c), "product")
  }

  /** The products of a company are the product nodes it has an edge to, each
      listed once. */
  lemma CompanyProductsExact(g: MultiDiGraph, c: string, p: string)
    ensures p in CompanyProducts(g, c) <==> IsKind(g, p, "product") && Linked(g, c, p)
    ensures Distinct(CompanyProducts(g, c))
  {
    if Linked(g, c, p) {
      var e :| e in g.edges && e.src == c && e.tgt == p;
      assert p in Successors(g, c);
    }
  }

  // ---------------------------------------------------------------------------
  // get_company_leadership

  /** `G.nodes[n]`, and no attributes for a name that is not a node. */
  function NodeAttrs(g: MultiDiGraph, n: string): (r: Attrs)
    ensures n in g.nodes ==> r == g.nodes[n]
  {
    if n in g.nodes then g.nodes[n] else map[]
  }

  /** One entry of the leadership list: `{'name', 'role', 'attributes'}`. */
  datatype Leader = Leader(name: string, role: Value, attributes: Attrs)

  /** The entry for person `n`; the role defaults to `'Unknown'`. */
  function LeaderOf(g: MultiDiGraph, n: string): (r: Leader)
    ensures r.name == n && r.attributes == NodeAttrs(g, n)
    ensures NodeGet(g, n, "role").Some? ==> r.role == NodeGet(g, n, "role").value
    ensures NodeGet(g, n, "role").None? ==> r.role == Text("Unknown")
  {
    Leader(n, match NodeGet(g, n, "role") { case Some(v) => v case None => Text("Unknown") }, NodeAttrs(g, n))
  }

  /** The loop of `get_company_leadership` over the sources `ns`. */
  function Leaders(g: MultiDiGraph, ns: seq<string>): (r: seq<Leader>)
    ensures forall l :: l in r <==> l.name in ns && IsKind(g, l.name, "person") && l == LeaderOf(g, l.name)
    ensures |r| <= |ns|
  {
    if ns == [] then []
    else
      var n := ns[|ns| - 1];
      assert forall x :: x in ns <==> x in ns[..|ns| - 1] || x == n;
      Leaders(g, ns[..|ns| - 1]) + (if IsKind(g, n, "person") then [LeaderOf(g, n)] else [])
  }

  /** `get_company_leadership(company)` */
  function Leadership(g: MultiDiGraph, c: string): (r: seq<Leader>) {
    Leaders(g, Predecessors(g, c))
  }

  /** The leadership of a company lists exactly the person nodes that have an
      edge to it, each with its stored role (or `'Unknown'`) and attributes. */
  lemma LeadershipExact(g: MultiDiGraph, c: string, l: Leader)
    ensures l in Leadership(g, c) <==> IsKind(g, l.name, "person") && Linked(g, l.name, c) && l == LeaderOf(g, l.name)
  {
    if Linked(g, l.name, c) {
      var e :| e in g.edges && e.src == l.name && e.tgt == c;
      assert l.name in Predecessors(g, c);
    }
  }

  // ---------------------------------------------------------------------------
  // find_competitive_threats

  /** One entry of `overlapping_products`. */
  datatype Overlap = Overlap(userProduct: string, competitorProduct: string, category: Option<Value>)

  /** The report `find_competitive_threats` returns; `competitor_advantages` and
      `market_position` are always empty. */
  datatype ThreatReport = ThreatReport(sharedMarkets: set<string>, competitorAdvantages: seq<string>,
                                       overlappingProducts: set<Overlap>, marketPosition: map<string, string>)

  /** The pairs of the nested loop whose `category` values are equal (both
      absent counts as equal). */
  function Overlaps(g: MultiDiGraph, ups: set<string>, cps: set<string>): set<Overlap> {
    set u, c | u in ups && c in cps && NodeGet(g, u, "category") == NodeGet(g, c, "category")
      :: Overlap(u, c, NodeGet(g, u, "category"))
  }

  /** `find_competitive_threats(user_company, competitor)` */
  function Threats(g: MultiDiGraph, user: string, competitor: string): ThreatReport {
    var ups := set p | p in CompanyProducts(g, user);
    var cps := set p | p in CompanyProducts(g, competitor);
    ThreatReport(SharedMarkets(g, user, competitor), [], Overlaps(g, ups, cps), map[])
  }

  /** An overlap pairs a product of the user company with a product of the
      competitor whose categories are equal, and every such pair is reported. */
  lemma ThreatsExact(g: MultiDiGraph, user: string, competitor: string, o: Overlap)
    ensures o in Threats(g, user, competitor).overlappingProducts <==>
      && o.userProduct in CompanyProducts(g, user)
      && o.competitorProduct in CompanyProducts(g, competitor)
      && NodeGet(g, o.userProduct, "category") == NodeGet(g, o.competitorProduct, "category")
      && o.category == NodeGet(g, o.userProduct, "category")
  {
  }

  /** Two products without a `category` attribute count as overlapping. */
  lemma UncategorisedProductsOverlap(g: MultiDiGraph, user: string, competitor: string, p: string, q: string)
    requires p in CompanyProducts(g, user) && q in CompanyProducts(g, competitor)
    requires NodeGet(g, p, "category").None? && NodeGet(g, q, "category").None?
    ensures Overlap(p, q, None) in Threats(g, user, competitor).overlappingProducts
  {
    ThreatsExact(g, user, competitor, Overlap(p, q, None));
  }

  // ---------------------------------------------------------------------------
  // get_company_network

  /** One entry of `relationships`: `{'from', 'to', 'type', 'attributes'}`. */
  datatype Incident = Incident(from: string, to: string, relType: Option<Value>, attributes: Attrs)

  /** The dictionary `get_company_network` returns. */
  datatype Network = Network(company: string, competitors: seq<string>, products: seq<string>,
                             markets: seq<string>, leadership: seq<string>, relationships: seq<Incident>)

  /** The entry listed for edge `e`. */
  function IncidentOf(e: Edge): Incident {
    Incident(e.src, e.tgt, Get(e.attrs, "relationship_type"), e.attrs)
  }

  function Incidents(es: seq<Edge>): (r: seq<Incident>)
    ensures |r| == |es| && forall k :: 0 <= k < |es| ==> r[k] == IncidentOf(es[k])
  {
    seq(|es|, k requires 0 <= k < |es| => IncidentOf(es[k]))
  }

  /** The names of `ls`, in order. */
  function Names(ls: seq<Leader>): (r: seq<string>)
    ensures |r| == |ls| && forall k :: 0 <= k < |ls| ==> r[k] == ls[k].name
  {
    seq(|ls|, k requires 0 <= k < |ls| => ls[k].name)
  }

  /** One copy of `n` per dictionary in `ds` that is not `competes_with`. */
  function OtherCopies(n: string, ds: seq<Attrs>): (r: seq<string>)
    ensures forall x :: x in r ==> x == n
    ensures r != [] <==> exists d :: d in ds && !HasType(d, "competes_with")
  {
    if ds == [] then []
    else
      var d := ds[|ds| - 1];
      assert forall x :: x in ds <==> x in ds[..|ds| - 1] || x == d;
      OtherCopies(n, ds[..|ds| - 1]) + (if HasType(d, "competes_with") then [] else [n])
  }

  /** What the first loop of `get_company_network` lists under `products` (for
      `kind == "product"`) or `markets` (for `kind == "market"`): each successor
      of that type, once per edge to it that is not `competes_with`. */
  function KindListed(g: MultiDiGraph, c: string, ns: seq<string>, kind: string): (r: seq<string>) {
    if ns == [] then []
    else
      var n := ns[|ns| - 1];
      KindListed(g, c, ns[..|ns| - 1], kind) + (if IsKind(g, n, kind) then OtherCopies(n, EdgeData(g, c, n)) else [])
  }

  /** `get_company_network(company)` (the `depth` argument is never read).  The
      first loop visits the successors and, for each, the edges to it: a
      `competes_with` edge lists the successor as a competitor, any other edge to
      a product or a market lists it there, and every edge is a relationship.
      The second loop visits the predecessors: a person is listed in
      `leadership` and every edge from it is a relationship. */
  function CompanyNetwork(g: MultiDiGraph, c: string): Network {
    var succ := Successors(g, c);
    Network(c, OutCompetitors(g, c, succ), KindListed(g, c, succ, "product"), KindListed(g, c, succ, "market"),
            Names(Leadership(g, c)), Incidents(OutEdges(g, c)) + Incidents(InEdges(g, c)))
  }

  /** There is an edge from `a` to `b` that is not `competes_with`. */
  ghost predicate LinkedOtherwise(g: MultiDiGraph, a: string, b: string) {
    exists d :: Edge(a, b, d) in g.edges && !HasType(d, "competes_with")
  }

  lemma {:induction false} KindListedExact(g: MultiDiGraph, c: string, ns: seq<string>, kind: string)
    ensures forall x :: x in KindListed(g, c, ns, kind) <==> x in ns && IsKind(g, x, kind) && LinkedOtherwise(g, c, x)
  {
    if ns != [] {
      var n := ns[|ns| - 1];
      LastOf(ns);
      KindListedExact(g, c, ns[..|ns| - 1], kind);
      var ds := EdgeData(g, c, n);
      assert (exists d :: d in ds && !HasType(d, "competes_with")) <==> LinkedOtherwise(g, c, n);
      var copies := OtherCopies(n, ds);
      if copies != [] {
        assert copies[0] in copies;
      }
    }
  }

  /** The network lists every edge leaving the company, grouped by target, then
      every edge entering it, grouped by source: as many relationships as the
      company's degree.  Its products and markets are the nodes of that type
      reached by an edge other than `competes_with`, so every listed product is
      one of the company's products. */
  lemma NetworkContents(g: MultiDiGraph, c: string, x: string)
    ensures |CompanyNetwork(g, c).relationships| == Degree(g, c)
    ensures x in CompanyNetwork(g, c).products <==> IsKind(g, x, "product") && LinkedOtherwise(g, c, x)
    ensures x in CompanyNetwork(g, c).markets <==> IsKind(g, x, "market") && LinkedOtherwise(g, c, x)
    ensures x in CompanyNetwork(g, c).products ==> x in CompanyProducts(g, c)
    ensures x in CompanyNetwork(g, c).leadership <==> IsKind(g, x, "person") && Linked(g, x, c)
  {
    OutEdgesCount(g, c);
    InEdgesCount(g, c);
    var succ := Successors(g, c);
    KindListedExact(g, c, succ, "product");
    KindListedExact(g, c, succ, "market");
    CompanyProductsExact(g, c, x);
    if LinkedOtherwise(g, c, x) {
      var d :| Edge(c, x, d) in g.edges && !HasType(d, "competes_with");
      assert x in succ;
    }
    var ls := Leadership(g, c);
    LeadershipExact(g, c, LeaderOf(g, x));
    if x in Names(ls) {
      var k :| 0 <= k < |ls| && Names(ls)[k] == x;
      assert ls[k] in ls;
      LeadershipExact(g, c, ls[k]);
    }
    if IsKind(g, x, "person") && Linked(g, x, c) {
      var k :| 0 <= k < |ls| && ls[k] == LeaderOf(g, x);
      assert Names(ls)[k] == x;
    }
  }

  /** The competitors in the network are the outgoing part of `get_competitors`,
      which therefore begins with them. */
  lemma NetworkCompetitorsBeginCompetitors(g: MultiDiGraph, c: string)
    ensures var n := CompanyNetwork(g, c).competitors;
      |n| <= |Competitors(g, c)| && Competitors(g, c)[..|n|] == n
  {
    CompetitorsShape(g, c);
  }

  // ---------------------------------------------------------------------------
  // query_entities_by_attribute

  /** The loop of `query_entities_by_attribute` over the names `ns`; `value` is
      `None` for Python's `None`, which also matches an absent attribute. */
  function Matching(g: MultiDiGraph, ns: seq<string>, kind: string, key: string, value: Option<Value>): (r: seq<string>)
    ensures forall x :: x in r <==> x in ns && IsKind(g, x, kind) && NodeGet(g, x, key) == value
    ensures Distinct(ns) ==> Distinct(r)
  {
    if ns == [] then []
    else
      var n := ns[|ns| - 1];
      LastOf(ns);
      Matching(g, ns[..|ns| - 1], kind, key, value) + (if IsKind(g, n, kind) && NodeGet(g, n, key) == value then [n] else [])
  }

  /** `query_entities_by_attribute(entity_type, attribute, value)` */
  function QueryEntities(g: MultiDiGraph, kind: string, key: string, value: Option<Value>): (r: seq<string>) {
    Matching(g, g.order, kind, key, value)
  }

  /** The query lists each node of the given type whose attribute equals the
      value, once. */
  lemma QueryEntitiesExact(g: MultiDiGraph, kind: string, key: string, value: Option<Value>, x: string)
    requires MultiGraph.Valid(g)
    ensures x in QueryEntities(g, kind, key, value) <==>
      x in g.nodes && Get(g.nodes[x], "entity_type") == Some(Text(kind)) && Get(g.nodes[x], key) == value
    ensures Distinct(QueryEntities(g, kind, key, value))
  {
  }

  /** Querying `entity_type` itself selects the nodes of that type. */
  lemma {:induction false} MatchingKind(g: MultiDiGraph, ns: seq<string>, kind: string)
    ensures Matching(g, ns, kind, "entity_type", Some(Text(kind))) == OfKind(g, ns, kind)
  {
    if ns != [] {
      MatchingKind(g, ns[..|ns| - 1], kind);
    }
  }

  // ---------------------------------------------------------------------------
  // get_market_landscape

  /** One entry of `companies`: `{'name', 'attributes', 'products_in_market'}`. */
  datatype Holding = Holding(name: string, attributes: Attrs, productsInMarket: seq<string>)

  /** The dictionary `get_market_landscape` returns. */
  datatype Landscape = Landscape(market: string, companies: seq<Holding>, marketAttributes: Attrs)

  /** `product_markets`: the market nodes a product has an edge to. */
  function ProductMarkets(g: MultiDiGraph, p: string): (r: seq<string>) {
    OfKind(g, Successors(g, p), "market")
  }

  /** The products among `ps` whose markets include `m`. */
  function ProductsIn(g: MultiDiGraph, m: string, ps: seq<string>): (r: seq<string>)
    ensures forall x :: x in r <==> x in ps && IsKind(g, m, "market") && Linked(g, x, m)
  {
    if ps == [] then []
    else
      var p := ps[|ps| - 1];
      LastOf(ps);
      assert m in ProductMarkets(g, p) <==> IsKind(g, m, "market") && Linked(g, p, m) by {
        if Linked(g, p, m) {
          var e :| e in g.edges && e.src == p && e.tgt == m;
          assert m in Successors(g, p);
        }
      }
      ProductsIn(g, m, ps[..|ps| - 1]) + (if m in ProductMarkets(g, p) then [p] else [])
  }

  /** The entry for company `n`. */
  function HoldingOf(g: MultiDiGraph, m: string, n: string): Holding {
    Holding(n, NodeAttrs(g, n), ProductsIn(g, m, CompanyProducts(g, n)))
  }

  /** The loop of `get_market_landscape` over the sources `ns`. */
  function Holdings(g: MultiDiGraph, m: string, ns: seq<string>): (r: seq<Holding>)
    ensures forall h :: h in r <==> h.name in ns && IsKind(g, h.name, "company") && h == HoldingOf(g, m, h.name)
  {
    if ns == [] then []
    else
      var n := ns[|ns| - 1];
      LastOf(ns);
      Holdings(g, m, ns[..|ns| - 1]) + (if IsKind(g, n, "company") then [HoldingOf(g, m, n)] else [])
  }

  /** `get_market_landscape(market)` */
  function MarketLandscape(g: MultiDiGraph, m: string): Landscape {
    Landscape(m, Holdings(g, m, Predecessors(g, m)), NodeAttrs(g, m))
  }

  /** The landscape lists every company node with an edge to the market, and for
      each the products of that company that have an edge to the market too;
      when `m` is not typed as a market no product is listed. */
  lemma LandscapeExact(g: MultiDiGraph, m: string, h: Holding, p: string)
    ensures h in MarketLandscape(g, m).companies <==>
      IsKind(g, h.name, "company") && Linked(g, h.name, m) && h == HoldingOf(g, m, h.name)
    ensures p in HoldingOf(g, m, h.name).productsInMarket <==>
      IsKind(g, p, "product") && Linked(g, h.name, p) && Linked(g, p, m) && IsKind(g, m, "market")
  {
    CompanyProductsExact(g, h.name, p);
    if Linked(g, h.name, m) {
      var e :| e in g.edges && e.src == h.name && e.tgt == m;
      assert h.name in Predecessors(g, m);
    }
  }

  // ---------------------------------------------------------------------------
  // export_graph_data

  /** One entry of `nodes`: `{'id', 'attributes'}`. */
  datatype NodeRecord = NodeRecord(id: string, attributes: Attrs)

  datatype Stats = Stats(totalNodes: nat, totalEdges: nat, companies: nat, products: nat, markets: nat)

  /** The dictionary `export_graph_data` returns; an edge is exported as its
      source, target and attributes. */
  datatype Export = Export(nodes: seq<NodeRecord>, edges: seq<Edge>, stats: Stats)

  /** `G.edges(data=True)` restricted to the sources `ns`: node by node, the
      edges leaving it grouped by target. */
  function EdgesFrom(g: MultiDiGraph, ns: seq<string>): (r: seq<Edge>) {
    if ns == [] then [] else EdgesFrom(g, ns[..|ns| - 1]) + OutEdges(g, ns[|ns| - 1])
  }

  /** `export_graph_data()` */
  function ExportGraphData(g: MultiDiGraph): (r: Export) {
    Export(seq(|g.order|, k requires 0 <= k < |g.order| => NodeRecord(g.order[k], NodeAttrs(g, g.order[k]))),
           EdgesFrom(g, g.order),
           Stats(|g.nodes|, |g.edges|,
                 |OfKind(g, g.order, "company")|, |OfKind(g, g.order, "product")|, |OfKind(g, g.order, "market")|))
  }

  lemma {:induction false} EdgesFromCount(g: MultiDiGraph, ns: seq<string>, e: Edge)
    requires Distinct(ns)
    ensures multiset(EdgesFrom(g, ns))[e] == if e.src in ns then multiset(g.edges)[e] else 0
  {
    if ns != [] {
      var init := ns[..|ns| - 1];
      var n := ns[|ns| - 1];
      LastOf(ns);
      EdgesFromCount(g, init, e);
      OutEdgesArePermutation(g, n, e);
      assert multiset(EdgesFrom(g, ns)) == multiset(EdgesFrom(g, init)) + multiset(OutEdges(g, n));
    }
  }

  /** The exported edges are exactly the edges of the graph, each as often as it
      occurs, and `total_edges` counts them. */
  lemma ExportEdgesArePermutation(g: MultiDiGraph)
    requires MultiGraph.Valid(g)
    ensures multiset(ExportGraphData(g).edges) == multiset(g.edges)
    ensures |ExportGraphData(g).edges| == ExportGraphData(g).stats.totalEdges
  {
    var r := ExportGraphData(g);
    forall e ensures multiset(r.edges)[e] == multiset(g.edges)[e] {
      EdgesFromCount(g, g.order, e);
      if e !in g.edges {
        assert multiset(g.edges)[e] == 0;
      }
    }
    assert multiset(r.edges) == multiset(g.edges);
  }

  lemma {:induction false} DistinctCard(s: seq<string>)
    requires Distinct(s)
    ensures |set x | x in s| == |s|
  {
    if s != [] {
      var init := s[..|s| - 1];
      LastOf(s);
      DistinctCard(init);
      assert (set x | x in s) == (set x | x in init) + {s[|s| - 1]};
    }
  }

  /** A valid graph has as many nodes as its insertion order has entries. */
  lemma NodeCount(g: MultiDiGraph)
    requires MultiGraph.Valid(g)
    ensures |g.nodes| == |g.order|
  {
    DistinctCard(g.order);
    assert g.nodes.Keys == set x | x in g.order;
  }

  /** Every node is exported once, in node order, with its attributes, and
      `total_nodes` counts the exported nodes. */
  lemma ExportNodesExact(g: MultiDiGraph)
    requires MultiGraph.Valid(g)
    ensures var r := ExportGraphData(g);
      && |r.nodes| == r.stats.totalNodes
      && (forall i, j :: 0 <= i < j < |r.nodes| ==> r.nodes[i].id != r.nodes[j].id)
      && (forall n :: n in g.nodes ==> exists k :: 0 <= k < |r.nodes| && r.nodes[k] == NodeRecord(n, g.nodes[n]))
      && (forall k :: 0 <= k < |r.nodes| ==> r.nodes[k].id in g.nodes)
  {
    var r := ExportGraphData(g);
    NodeCount(g);
    forall n | n in g.nodes ensures exists k :: 0 <= k < |r.nodes| && r.nodes[k] == NodeRecord(n, g.nodes[n]) {
      var k :| 0 <= k < |g.order| && g.order[k] == n;
      assert r.nodes[k] == NodeRecord(n, g.nodes[n]);
    }
  }

  lemma {:induction false} KindsCount(g: MultiDiGraph, ns: seq<string>)
    ensures |OfKind(g, ns, "company")| + |OfKind(g, ns, "product")| + |OfKind(g, ns, "market")| <= |ns|
  {
    if ns != [] {
      KindsCount(g, ns[..|ns| - 1]);
    }
  }

  /** The per-type counts are the sizes of the type queries, and together they
      never exceed the number of nodes. */
  lemma ExportStats(g: MultiDiGraph)
    requires MultiGraph.Valid(g)
    ensures var st := ExportGraphData(g).stats;
      && st.companies == |QueryEntities(g, "company", "entity_type", Some(Text("company")))|
      && st.products == |QueryEntities(g, "product", "entity_type", Some(Text("product")))|
      && st.markets == |QueryEntities(g, "market", "entity_type", Some(Text("market")))|
      && st.companies + st.products + st.markets <= st.totalNodes
  {
    MatchingKind(g, g.order, "company");
    MatchingKind(g, g.order, "product");
    MatchingKind(g, g.order, "market");
    KindsCount(g, g.order);
    ExportNodesExact(g);
  }

  // ---------------------------------------------------------------------------
  // What the mutators make the queries report.

  /** After `import_from_analysis` the two companies are each other's
      competitors. */
  lemma ImportMakesRivals(s: Store, user: string, competitor: string, now: Timestamp)
    ensures var r := ImportFromAnalysis(s, user, competitor, now);
      competitor in Competitors(r.graph, user) && user in Competitors(r.graph, competitor)
  {
    var s1 := AddCompany(s, user, map["is_user_company" := Flag(true)], now);
    var s2 := AddCompany(s1, competitor, map["is_competitor" := Flag(true)], now);
    var d := map["description" := Text(user + " competes with " + competitor)];
    AddRelationshipAppendsOne(s2, user, competitor, "competes_with", d, now);
    var r := AddRelationship(s2, user, competitor, "competes_with", d, now);
    assert r == ImportFromAnalysis(s, user, competitor, now);
    var e := r.graph.edges[|s2.graph.edges|];
    assert e in r.graph.edges;
    CompetitorsSymmetric(r.graph, e);
  }

  /** After an `add_product` that does not raise, the product is among the
      company's products. */
  lemma AddProductListed(s: Store, name: string, company: string, attributes: Attrs, now: Timestamp)
    ensures !NodeCallRaises(attributes) ==>
      name in CompanyProducts(AddProduct(s, name, company, attributes, now).graph, company)
  {
    if !NodeCallRaises(attributes) {
      AddProductEffect(s, name, company, attributes, now);
      var r := AddProduct(s, name, company, attributes, now);
      var e := r.graph.edges[|s.graph.edges|];
      assert e in r.graph.edges;
      CompanyProductsExact(r.graph, company, name);
    }
  }

  /** After an `add_person` that does not raise, the person is in the
      company's leadership with the given role. */
  lemma AddPersonLeads(s: Store, name: string, company: string, role: string, attributes: Attrs, now: Timestamp)
    ensures var r := AddPerson(s, name, company, role, attributes, now);
      !NodeCallRaises(attributes) ==>
      name in r.graph.nodes && Leader(name, Text(role), r.graph.nodes[name]) in Leadership(r.graph, company)
  {
    if !NodeCallRaises(attributes) {
      AddPersonEffect(s, name, company, role, attributes, now);
      var r := AddPerson(s, name, company, role, attributes, now);
      var e := r.graph.edges[|s.graph.edges|];
      assert e in r.graph.edges;
      assert LeaderOf(r.graph, name) == Leader(name, Text(role), r.graph.nodes[name]);
      LeadershipExact(r.graph, company, LeaderOf(r.graph, name));
    }
  }
}
