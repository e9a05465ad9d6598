/** `CompetitiveKnowledgeGraph`: the object whose fields `graph`,
    `entity_attributes` and `relationship_history` the mutators update in
    place.  Each mutator is proved to leave the state that the matching
    function of GraphStore computes; each query is a loop proved to return what
    the matching function of Queries computes; `parse_entity_extraction` is the
    loop-driven splitter and section loops, proved against Extraction.Parse. */
module KnowledgeGraph {
  import opened Values
  import opened Strings
  import MultiGraph
  import opened GraphStore
  import SimplePaths
  import Queries
  import Extraction
  import Summary

  class CompetitiveKnowledgeGraph {
    var graph: MultiGraph.MultiDiGraph
    var entityAttributes: map<string, Attrs>
    var relationshipHistory: seq<HistoryRecord>

    /** The three fields as one value. */
    function State(): Store
      reads this
    {
      Store(graph, entityAttributes, relationshipHistory)
    }

    ghost predicate Valid()
      reads this
    {
      GraphStore.Valid(State())
    }

    /** `__init__`: an empty graph, no entity attributes, no history. */
    constructor()
      ensures Valid() && State() == Init
    {
      graph := MultiGraph.Empty;
      entityAttributes := map[];
      relationshipHistory := [];
      new;
      InitValid();
    }

    /** `add_company(company_name, attributes)`; `raised` when `add_node`
        raises `TypeError`, and then nothing changes. */
    method AddCompany(name: string, attributes: Attrs, now: Timestamp) returns (raised: bool)
      requires Valid()
      modifies this
      ensures Valid()
      ensures raised <==> GraphStore.NodeCallRaises(attributes)
      ensures State() == GraphStore.AddCompany(old(State()), name, attributes, now)
    {
      raised := GraphStore.NodeCallRaises(attributes);
      if raised {
        return;
      }
      var a := GraphStore.CompanyRecord(attributes, now);
      graph := MultiGraph.AddNode(graph, name, a);
      entityAttributes := entityAttributes[name := a];
    }

    /** `add_relationship(source, target, relationship_type, attributes)`;
        `raised` when `add_edge` raises `TypeError`, and then nothing changes. */
    method AddRelationship(source: string, target: string, relType: string, attributes: Attrs, now: Timestamp)
      returns (raised: bool)
      requires Valid() && "key" !in attributes
      modifies this
      ensures Valid()
      ensures raised <==> GraphStore.EdgeCallRaises(attributes)
      ensures State() == GraphStore.AddRelationship(old(State()), source, target, relType, attributes, now)
    {
      raised := GraphStore.EdgeCallRaises(attributes);
      if raised {
        return;
      }
      ghost var s := State();
      var a := GraphStore.EdgeRecord(attributes, relType, now);
      graph := MultiGraph.AddEdge(graph, source, target, a);
      relationshipHistory := relationshipHistory + [HistoryRecord(source, target, relType, now)];
      assert State() == GraphStore.AddRelationship(s, source, target, relType, attributes, now);
    }

    /** `add_product(product_name, company, attributes)`; `raised` when
        `add_node` raises `TypeError`, and then nothing changes. */
    method AddProduct(name: string, company: string, attributes: Attrs, now: Timestamp) returns (raised: bool)
      requires Valid()
      modifies this
      ensures Valid()
      ensures raised <==> GraphStore.NodeCallRaises(attributes)
      ensures State() == GraphStore.AddProduct(old(State()), name, company, attributes, now)
    {
      raised := GraphStore.NodeCallRaises(attributes);
      if raised {
        return;
      }
      var a := GraphStore.EntityRecord(attributes, "product", now);
      graph := MultiGraph.AddNode(graph, name, a);
      entityAttributes := entityAttributes[name := a];
      var _ := AddRelationship(company, name, "produces", map["description" := Text(company + " produces " + name)], now);
    }

    /** `add_market(market_name, attributes)`; `raised` when `add_node`
        raises `TypeError`, and then nothing changes. */
    method AddMarket(name: string, attributes: Attrs, now: Timestamp) returns (raised: bool)
      requires Valid()
      modifies this
      ensures Valid()
      ensures raised <==> GraphStore.NodeCallRaises(attributes)
      ensures State() == GraphStore.AddMarket(old(State()), name, attributes, now)
    {
      raised := GraphStore.NodeCallRaises(attributes);
      if raised {
        return;
      }
      var a := GraphStore.EntityRecord(attributes, "market", now);
      graph := MultiGraph.AddNode(graph, name, a);
      entityAttributes := entityAttributes[name := a];
    }

    /** `add_person(person_name, company, role, attributes)`; `raised` when
        `add_node` raises `TypeError`, and then nothing changes. */
    method AddPerson(name: string, company: string, role: string, attributes: Attrs, now: Timestamp)
      returns (raised: bool)
      requires Valid()
      modifies this
      ensures Valid()
      ensures raised <==> GraphStore.NodeCallRaises(attributes)
      ensures State() == GraphStore.AddPerson(old(State()), name, company, role, attributes, now)
    {
      raised := GraphStore.NodeCallRaises(attributes);
      if raised {
        return;
      }
      var a := GraphStore.PersonRecord(attributes, role, now);
      graph := MultiGraph.AddNode(graph, name, a);
      entityAttributes := entityAttributes[name := a];
      var _ := AddRelationship(name, company, "works_at",
                      map["role" := Text(role), "description" := Text(name + " is " + role + " at " + company)], now);
    }

    /** The first three statements of `import_from_analysis`. */
    method ImportFromAnalysis(userCompany: string, competitor: string, now: Timestamp)
      requires Valid()
      modifies this
      ensures Valid()
      ensures State() == GraphStore.ImportFromAnalysis(old(State()), userCompany, competitor, now)
    {
      var _ := AddCompany(userCompany, map["is_user_company" := Flag(true)], now);
      var _ := AddCompany(competitor, map["is_competitor" := Flag(true)], now);
      var _ := AddRelationship(userCompany, competitor, "competes_with",
                      map["description" := Text(userCompany + " competes with " + competitor)], now);
    }
  
    // -------------------------------------------------------------------------
    // Queries.  networkx raises for `successors`/`predecessors` of a name that
    // is not a node, so those queries require the name to be a node.

    /** `get_competitors(company)` */
    method GetCompetitors(company: string) returns (competitors: seq<string>)
      requires MultiGraph.Valid(graph) && company in graph.nodes
      ensures competitors == Queries.Competitors(graph, company)
    {
      var outgoing := OutgoingCompetitors(company);
      competitors := IncomingCompetitors(company, outgoing);
    }

    /** The first loop of `get_competitors`. */
    method OutgoingCompetitors(company: string) returns (competitors: seq<string>)
      ensures competitors == Queries.OutCompetitors(graph, company, MultiGraph.Successors(graph, company))
    {
      competitors := [];
      var succ := MultiGraph.Successors(graph, company);
      var i := 0;
      while i < |succ|
        invariant 0 <= i <= |succ|
        invariant competitors == Queries.OutCompetitors(graph, company, succ[..i])
      {
        var target := succ[i];
        competitors := AppendCompeting(competitors, target, MultiGraph.EdgeData(graph, company, target));
        PrefixSnoc(succ, i);
        i := i + 1;
      }
      assert succ[..i] == succ;
    }

    /** The second loop of `get_competitors`, continuing the list `outgoing`. */
    method IncomingCompetitors(company: string, outgoing: seq<string>) returns (competitors: seq<string>)
      ensures competitors == Queries.InCompetitors(graph, company, MultiGraph.Predecessors(graph, company), outgoing)
    {
      competitors := outgoing;
      var pred := MultiGraph.Predecessors(graph, company);
      var i := 0;
      while i < |pred|
        invariant 0 <= i <= |pred|
        invariant competitors == Queries.InCompetitors(graph, company, pred[..i], outgoing)
      {
        var source := pred[i];
        competitors := AppendIncoming(source, MultiGraph.EdgeData(graph, source, company), competitors);
        PrefixSnoc(pred, i);
        i := i + 1;
      }
      assert pred[..i] == pred;
    }

    /** The successors of `n` whose `entity_type` is `kind`, in order: the loop
        of `get_company_products` and the `product_markets` comprehension of
        `get_market_landscape`. */
    method SuccessorsOfKind(n: string, kind: string) returns (r: seq<string>)
      requires MultiGraph.Valid(graph)
      ensures r == Queries.OfKind(graph, MultiGraph.Successors(graph, n), kind)
    {
      r := [];
      var succ := MultiGraph.Successors(graph, n);
      var i := 0;
      while i < |succ|
        invariant 0 <= i <= |succ|
        invariant r == Queries.OfKind(graph, succ[..i], kind)
      {
        var target := succ[i];
        assert target in graph.nodes by { NeighboursAreNodes(graph, n); }
        if Get(graph.nodes[target], "entity_type") == Some(Text(kind)) {
          r := r + [target];
        }
        PrefixSnoc(succ, i);
        i := i + 1;
      }
      assert succ[..i] == succ;
    }

    /** The market successors of `n`, collected into a set. */
    method MarketSet(n: string) returns (r: set<string>)
      requires MultiGraph.Valid(graph) && n in graph.nodes
      ensures r == Queries.MarketsOf(graph, n)
    {
      r := {};
      var succ := MultiGraph.Successors(graph, n);
      var i := 0;
      while i < |succ|
        invariant 0 <= i <= |succ|
        invariant r == set t | t in succ[..i] && MultiGraph.IsKind(graph, t, "market")
      {
        var target := succ[i];
        assert target in graph.nodes by { NeighboursAreNodes(graph, n); }
        if Get(graph.nodes[target], "entity_type") == Some(Text("market")) {
          r := r + {target};
        }
        assert forall t :: t in succ[..i + 1] <==> t in succ[..i] || t == target;
        i := i + 1;
      }
      assert succ[..i] == succ;
    }

    /** `get_shared_markets(company1, company2)` */
    method GetSharedMarkets(company1: string, company2: string) returns (shared: set<string>)
      requires MultiGraph.Valid(graph) && company1 in graph.nodes && company2 in graph.nodes
      ensures shared == Queries.SharedMarkets(graph, company1, company2)
    {
      var markets1 := MarketSet(company1);
      var markets2 := MarketSet(company2);
      shared := markets1 * markets2;
    }

    /** `get_company_products(company)` */
    method GetCompanyProducts(company: string) returns (products: seq<string>)
      requires MultiGraph.Valid(graph) && company in graph.nodes
      ensures products == Queries.CompanyProducts(graph, company)
    {
      products := SuccessorsOfKind(company, "product");
    }

    /** `get_company_leadership(company)` */
    method GetCompanyLeadership(company: string) returns (leadership: seq<Queries.Leader>)
      requires MultiGraph.Valid(graph) && company in graph.nodes
      ensures leadership == Queries.Leadership(graph, company)
    {
      leadership := [];
      var pred := MultiGraph.Predecessors(graph, company);
      var i := 0;
      while i < |pred|
        invariant 0 <= i <= |pred|
        invariant leadership == Queries.Leaders(graph, pred[..i])
      {
        var source := pred[i];
        assert source in graph.nodes by { NeighboursAreNodes(graph, company); }
        var data := graph.nodes[source];
        if Get(data, "entity_type") == Some(Text("person")) {
          var role := match Get(data, "role") { case Some(v) => v case None => Text("Unknown") };
          leadership := leadership + [Queries.Leader(source, role, data)];
        }
        PrefixSnoc(pred, i);
        i := i + 1;
      }
      assert pred[..i] == pred;
    }

    /** The inner loop of `find_competitive_threats` for one user product `u`. */
    method OverlapsWith(u: string, competitorProducts: set<string>) returns (found: set<Queries.Overlap>)
      requires MultiGraph.Valid(graph) && u in graph.nodes && forall c :: c in competitorProducts ==> c in graph.nodes
      ensures found == Queries.Overlaps(graph, {u}, competitorProducts)
    {
      found := {};
      var rest := competitorProducts;
      while rest != {}
        invariant rest <= competitorProducts
        invariant found == Queries.Overlaps(graph, {u}, competitorProducts - rest)
        decreases |rest|
      {
        var c :| c in rest;
        var category := Get(graph.nodes[u], "category");
        if category == Get(graph.nodes[c], "category") {
          found := found + {Queries.Overlap(u, c, category)};
        }
        RemoveOne(competitorProducts, rest, c);
        OverlapsAddCompetitor(graph, u, competitorProducts - rest, c);
        rest := rest - {c};
      }
    }

    /** The nested loop of `find_competitive_threats` over the product sets. */
    method AllOverlaps(userProducts: set<string>, competitorProducts: set<string>) returns (overlapping: set<Queries.Overlap>)
      requires MultiGraph.Valid(graph)
      requires forall p :: p in userProducts ==> p in graph.nodes
      requires forall c :: c in competitorProducts ==> c in graph.nodes
      ensures overlapping == Queries.Overlaps(graph, userProducts, competitorProducts)
    {
      overlapping := {};
      var rest := userProducts;
      while rest != {}
        invariant rest <= userProducts
        invariant overlapping == Queries.Overlaps(graph, userProducts - rest, competitorProducts)
        decreases |rest|
      {
        var u :| u in rest;
        var found := OverlapsWith(u, competitorProducts);
        overlapping := overlapping + found;
        RemoveOne(userProducts, rest, u);
        OverlapsAddUser(graph, userProducts - rest, u, competitorProducts);
        rest := rest - {u};
      }
    }

    /** `find_competitive_threats(user_company, competitor)` */
    method FindCompetitiveThreats(userCompany: string, competitor: string) returns (threats: Queries.ThreatReport)
      requires MultiGraph.Valid(graph) && userCompany in graph.nodes && competitor in graph.nodes
      ensures threats == Queries.Threats(graph, userCompany, competitor)
    {
      var shared := GetSharedMarkets(userCompany, competitor);
      var userList := GetCompanyProducts(userCompany);
      var competitorList := GetCompanyProducts(competitor);
      var userProducts := set p | p in userList;
      var competitorProducts := set p | p in competitorList;
      var overlapping := AllOverlaps(userProducts, competitorProducts);
      threats := Queries.ThreatReport(shared, [], overlapping, map[]);
    }

    /** `get_relationship_path(source, target, max_length)`: the paths networkx
        yields, appended one by one. */
    method GetRelationshipPath(source: string, target: string, maxLength: int) returns (paths: seq<seq<string>>)
      ensures paths == SimplePaths.AllSimplePaths(graph, source, target, maxLength)
    {
      paths := AppendEach(SimplePaths.AllSimplePaths(graph, source, target, maxLength));
    }

    /** `get_company_network(company, depth)`; `depth` is never read. */
    method GetCompanyNetwork(company: string, depth: int) returns (network: Queries.Network)
      requires MultiGraph.Valid(graph) && company in graph.nodes
      ensures network == Queries.CompanyNetwork(graph, company)
    {
      var competitors, products, markets, outgoing := OutgoingNetwork(company);
      var leadership, incoming := IncomingNetwork(company);
      network := Queries.Network(company, competitors, products, markets, leadership, outgoing + incoming);
    }

    /** The loop of `get_company_network` over the successors. */
    method OutgoingNetwork(company: string)
      returns (competitors: seq<string>, products: seq<string>, markets: seq<string>, relationships: seq<Queries.Incident>)
      requires MultiGraph.Valid(graph)
      ensures var succ := MultiGraph.Successors(graph, company);
        && competitors == Queries.OutCompetitors(graph, company, succ)
        && products == Queries.KindListed(graph, company, succ, "product")
        && markets == Queries.KindListed(graph, company, succ, "market")
        && relationships == Queries.Incidents(MultiGraph.OutEdges(graph, company))
    {
      competitors, products, markets, relationships := [], [], [], [];
      var g := graph;
      var succ := MultiGraph.Successors(g, company);
      NeighboursAreNodes(g, company);
      var i := 0;
      while i < |succ|
        invariant 0 <= i <= |succ|
        invariant competitors == Queries.OutCompetitors(g, company, succ[..i])
        invariant products == Queries.KindListed(g, company, succ[..i], "product")
        invariant markets == Queries.KindListed(g, company, succ[..i], "market")
        invariant relationships == Queries.Incidents(MultiGraph.GroupedOut(g.edges, company, succ[..i]))
      {
        var neighbor := succ[i];
        var nodeType := Get(g.nodes[neighbor], "entity_type");
        assert nodeType == MultiGraph.NodeGet(g, neighbor, "entity_type");
        var ds := MultiGraph.EdgeData(g, company, neighbor);
        var c, p, m, r := VisitEdges(company, neighbor, nodeType, ds);
        NetworkOutStep(g, company, succ[..i], neighbor);
        PrefixSnoc(succ, i);
        competitors, products, markets, relationships := competitors + c, products + p, markets + m, relationships + r;
        i := i + 1;
      }
      assert succ[..i] == succ;
    }

    /** The loop of `get_company_network` over the predecessors. */
    method IncomingNetwork(company: string) returns (leadership: seq<string>, relationships: seq<Queries.Incident>)
      requires MultiGraph.Valid(graph)
      ensures leadership == Queries.Names(Queries.Leadership(graph, company))
      ensures relationships == Queries.Incidents(MultiGraph.InEdges(graph, company))
    {
      leadership, relationships := [], [];
      var g := graph;
      var pred := MultiGraph.Predecessors(g, company);
      NeighboursAreNodes(g, company);
      var i := 0;
      while i < |pred|
        invariant 0 <= i <= |pred|
        invariant leadership == Queries.OfKind(g, pred[..i], "person")
        invariant relationships == Queries.Incidents(MultiGraph.GroupedIn(g.edges, company, pred[..i]))
      {
        var neighbor := pred[i];
        var nodeType := Get(g.nodes[neighbor], "entity_type");
        assert nodeType == MultiGraph.NodeGet(g, neighbor, "entity_type");
        if nodeType == Some(Text("person")) {
          leadership := leadership + [neighbor];
        }
        var r := IncidentList(neighbor, company, MultiGraph.EdgeData(g, neighbor, company));
        NetworkInStep(g, company, pred[..i], neighbor);
        PrefixSnoc(pred, i);
        relationships := relationships + r;
        i := i + 1;
      }
      assert pred[..i] == pred;
      LeaderNames(g, pred);
    }

    /** `query_entities_by_attribute(entity_type, attribute, value)` */
    method QueryEntitiesByAttribute(kind: string, key: string, value: Option<Value>) returns (results: seq<string>)
      requires MultiGraph.Valid(graph)
      ensures results == Queries.QueryEntities(graph, kind, key, value)
    {
      var g := graph;
      results := [];
      var i := 0;
      while i < |g.order|
        invariant 0 <= i <= |g.order|
        invariant results == Queries.Matching(g, g.order[..i], kind, key, value)
      {
        results := MatchNode(g, i, results, kind, key, value);
        i := i + 1;
      }
      assert g.order[..i] == g.order;
    }

    /** `get_market_landscape(market)`; `predecessors` raises for a market
        that is not a node, so the `{}` fallback for its attributes is never
        returned. */
    method GetMarketLandscape(market: string) returns (landscape: Queries.Landscape)
      requires MultiGraph.Valid(graph) && market in graph.nodes
      ensures landscape == Queries.MarketLandscape(graph, market)
    {
      var marketAttributes := if market in graph.nodes then graph.nodes[market] else map[];
      var companies := [];
      var pred := MultiGraph.Predecessors(graph, market);
      NeighboursAreNodes(graph, market);
      var i := 0;
      while i < |pred|
        invariant 0 <= i <= |pred|
        invariant companies == Queries.Holdings(graph, market, pred[..i])
      {
        var source := pred[i];
        if Get(graph.nodes[source], "entity_type") == Some(Text("company")) {
          var inMarket := ProductsInMarket(source, market);
          companies := companies + [Queries.Holding(source, graph.nodes[source], inMarket)];
        }
        PrefixSnoc(pred, i);
        i := i + 1;
      }
      assert pred[..i] == pred;
      landscape := Queries.Landscape(market, companies, marketAttributes);
    }

    /** The products of `company` whose market successors include `market`. */
    method ProductsInMarket(company: string, market: string) returns (inMarket: seq<string>)
      requires MultiGraph.Valid(graph) && company in graph.nodes
      ensures inMarket == Queries.ProductsIn(graph, market, Queries.CompanyProducts(graph, company))
    {
      var products := GetCompanyProducts(company);
      inMarket := [];
      var j := 0;
      while j < |products|
        invariant 0 <= j <= |products|
        invariant inMarket == Queries.ProductsIn(graph, market, products[..j])
      {
        var product := products[j];
        var productMarkets := SuccessorsOfKind(product, "market");
        if market in productMarkets {
          inMarket := inMarket + [product];
        }
        ProductsInStep(graph, market, products[..j], product);
        PrefixSnoc(products, j);
        j := j + 1;
      }
      assert products[..j] == products;
    }

    /** The ranking of `get_graph_summary`: the companies with their degree in
        node order, sorted in place by degree, highest first, and cut to five. */
    method TopCompanies() returns (top: seq<Summary.Ranked>)
      requires MultiGraph.Valid(graph)
      ensures top == Summary.TopCompanies(graph)
    {
      var companies := CompanyDegreeList();
      var a := new Summary.Ranked[|companies|](k requires 0 <= k < |companies| => companies[k]);
      assert a[..] == companies;
      Summary.SortByDegree(a);
      top := if a.Length <= 5 then a[..] else a[..5];
    }

    /** `[(n, G.degree(n)) for n, d in G.nodes(data=True) if d.get('entity_type') == 'company']` */
    method CompanyDegreeList() returns (companies: seq<Summary.Ranked>)
      requires MultiGraph.Valid(graph)
      ensures companies == Summary.CompanyDegrees(graph, graph.order)
    {
      companies := [];
      var i := 0;
      while i < |graph.order|
        invariant 0 <= i <= |graph.order|
        invariant companies == Summary.CompanyDegrees(graph, graph.order[..i])
      {
        var n := graph.order[i];
        if Get(graph.nodes[n], "entity_type") == Some(Text("company")) {
          companies := companies + [Summary.Ranked(n, MultiGraph.Degree(graph, n))];
        }
        PrefixSnoc(graph.order, i);
        i := i + 1;
      }
      assert graph.order[..i] == graph.order;
    }

    // -------------------------------------------------------------------------
    // parse_entity_extraction

    /** `parse_entity_extraction(extracted_text, user_company, competitor)`:
        the anchors first, then the sections in a fixed order. */
    method ParseEntityExtraction(text: string, userCompany: string, competitor: string, now: Timestamp, ev: Extraction.Evaluator)
      requires Valid()
      modifies this
      ensures Valid()
      ensures State() == Extraction.Parse(old(State()), text, userCompany, competitor, now, ev)
    {
      AddAnchors(userCompany, competitor, now);
      var sections := SplitIntoSections(Extraction.NormalizeLines(text));
      ProcessCompanies(Extraction.SectionLines(sections, Extraction.Companies), now, ev);
      ProcessProducts(Extraction.SectionLines(sections, Extraction.Products), userCompany, competitor, now);
      ProcessMarkets(Extraction.SectionLines(sections, Extraction.Markets), userCompany, competitor, now, ev);
      ProcessPeople(Extraction.SectionLines(sections, Extraction.People), userCompany, competitor, now);
      ProcessRelationships(Extraction.SectionLines(sections, Extraction.Relationships), now);
    }

    /** The opening of `parse_entity_extraction`: the user's company and the
        competitor are added when missing, and a newly added competitor is
        linked to the user's company by `competes_with`. */
    method AddAnchors(userCompany: string, competitor: string, now: Timestamp)
      requires Valid()
      modifies this
      ensures Valid()
      ensures State() == Extraction.Bootstrap(old(State()), userCompany, competitor, now)
    {
      if userCompany !in graph.nodes {
        var _ := AddCompany(userCompany, map["is_user_company" := Flag(true)], now);
      }
      if competitor !in graph.nodes {
        var _ := AddCompany(competitor, map["is_competitor" := Flag(true)], now);
        var _ := AddRelationship(userCompany, competitor, "competes_with", map["identified_at" := Text(now)], now);
      }
    }

    /** The loop over the COMPANIES section. */
    method ProcessCompanies(lines: seq<string>, now: Timestamp, ev: Extraction.Evaluator)
      requires Valid()
      modifies this
      ensures Valid()
      ensures State() == Extraction.CompanyLines(old(State()), lines, now, ev)
    {
      var i := 0;
      while i < |lines|
        invariant 0 <= i <= |lines| && Valid()
        invariant Extraction.CompanyLines(State(), lines[i..], now, ev) == Extraction.CompanyLines(old(State()), lines, now, ev)
      {
        SuffixTail(lines, i);
        ProcessCompanyLine(lines[i], now, ev);
        i := i + 1;
      }
    }

    /** The loop over the PRODUCTS section. */
    method ProcessProducts(lines: seq<string>, userCompany: string, competitor: string, now: Timestamp)
      requires Valid()
      modifies this
      ensures Valid()
      ensures State() == Extraction.ProductLines(old(State()), lines, userCompany, competitor, now)
    {
      var i := 0;
      while i < |lines|
        invariant 0 <= i <= |lines| && Valid()
        invariant Extraction.ProductLines(State(), lines[i..], userCompany, competitor, now) ==
                  Extraction.ProductLines(old(State()), lines, userCompany, competitor, now)
      {
        SuffixTail(lines, i);
        ProcessProductLine(lines[i], userCompany, competitor, now);
        i := i + 1;
      }
    }

    /** The loop over the MARKETS section. */
    method ProcessMarkets(lines: seq<string>, userCompany: string, competitor: string, now: Timestamp, ev: Extraction.Evaluator)
      requires Valid()
      modifies this
      ensures Valid()
      ensures State() == Extraction.MarketLines(old(State()), lines, userCompany, competitor, now, ev)
    {
      var i := 0;
      while i < |lines|
        invariant 0 <= i <= |lines| && Valid()
        invariant Extraction.MarketLines(State(), lines[i..], userCompany, competitor, now, ev) ==
                  Extraction.MarketLines(old(State()), lines, userCompany, competitor, now, ev)
      {
        SuffixTail(lines, i);
        ProcessMarketLine(lines[i], userCompany, competitor, now, ev);
        i := i + 1;
      }
    }

    /** The loop over the PEOPLE section. */
    method ProcessPeople(lines: seq<string>, userCompany: string, competitor: string, now: Timestamp)
      requires Valid()
      modifies this
      ensures Valid()
      ensures State() == Extraction.PersonLines(old(State()), lines, userCompany, competitor, now)
    {
      var i := 0;
      while i < |lines|
        invariant 0 <= i <= |lines| && Valid()
        invariant Extraction.PersonLines(State(), lines[i..], userCompany, competitor, now) ==
                  Extraction.PersonLines(old(State()), lines, userCompany, competitor, now)
      {
        SuffixTail(lines, i);
        ProcessPersonLine(lines[i], userCompany, competitor, now);
        i := i + 1;
      }
    }

    /** The loop over the RELATIONSHIPS section. */
    method ProcessRelationships(lines: seq<string>, now: Timestamp)
      requires Valid()
      modifies this
      ensures Valid()
      ensures State() == Extraction.RelationshipLines(old(State()), lines, now)
    {
      var i := 0;
      while i < |lines|
        invariant 0 <= i <= |lines| && Valid()
        invariant Extraction.RelationshipLines(State(), lines[i..], now) == Extraction.RelationshipLines(old(State()), lines, now)
      {
        SuffixTail(lines, i);
        ProcessRelationshipLine(lines[i], now);
        i := i + 1;
      }
    }

    /** One line of the COMPANIES section: the company is added unless a node
        of that name exists. */
    method ProcessCompanyLine(line: string, now: Timestamp, ev: Extraction.Evaluator)
      requires Valid()
      modifies this
      ensures Valid()
      ensures State() == Extraction.CompanyLine(old(State()), line, now, ev)
    {
      var entry := ReadCompanyLine(line, ev);
      if entry.Some? && entry.value.name !in graph.nodes {
        var _ := AddCompany(entry.value.name, TextAttrs(entry.value.attrs), now);
      }
    }

    /** One line of the PRODUCTS section: the product is added when it has an
        owner. */
    method ProcessProductLine(line: string, userCompany: string, competitor: string, now: Timestamp)
      requires Valid()
      modifies this
      ensures Valid()
      ensures State() == Extraction.ProductLine(old(State()), line, userCompany, competitor, now)
    {
      var entry := ReadProductLine(line, userCompany, competitor);
      if entry.Some? && entry.value.owner != [] {
        var _ := AddProduct(entry.value.name, entry.value.owner, TextAttrs(entry.value.attrs), now);
      }
    }

    /** One line of the MARKETS section. */
    method ProcessMarketLine(line: string, userCompany: string, competitor: string, now: Timestamp, ev: Extraction.Evaluator)
      requires Valid()
      modifies this
      ensures Valid()
      ensures State() == Extraction.MarketLine(old(State()), line, userCompany, competitor, now, ev)
    {
      var entry := Extraction.ReadMarket(line, ev);
      if entry.Some? {
        ApplyMarketEntry(entry.value, userCompany, competitor, now);
      }
    }

    /** The body of a MARKETS line once its name and attributes are read: the
        market is added unless a node of that name exists, then linked to the
        listed companies, or to both anchors when none are listed. */
    method ApplyMarketEntry(entry: Extraction.MarketEntry, userCompany: string, competitor: string, now: Timestamp)
      requires Valid()
      modifies this
      ensures Valid()
      ensures State() == Extraction.ApplyMarket(old(State()), entry, userCompany, competitor, now)
    {
      var market := entry.name;
      if market !in graph.nodes {
        var raised := AddMarket(market, TextAttrs(entry.attrs), now);
        if raised {
          return;
        }
      }
      if "companies" in entry.attrs {
        LinkListedCompanies(Extraction.CompanyNames(entry.attrs["companies"]), market, now);
      } else {
        var _ := AddRelationship(userCompany, market, "operates_in", map[], now);
        var _ := AddRelationship(competitor, market, "operates_in", map[], now);
      }
    }

    /** The `operates_in` loop over the listed company names. */
    method LinkListedCompanies(names: seq<string>, market: string, now: Timestamp)
      requires Valid()
      modifies this
      ensures Valid()
      ensures State() == Extraction.LinkCompanies(old(State()), names, market, now)
    {
      var j := 0;
      while j < |names|
        invariant 0 <= j <= |names| && Valid()
        invariant Extraction.LinkCompanies(State(), names[j..], market, now) == Extraction.LinkCompanies(old(State()), names, market, now)
      {
        SuffixTail(names, j);
        if names[j] in graph.nodes {
          var _ := AddRelationship(names[j], market, "operates_in", map[], now);
        }
        j := j + 1;
      }
    }

    /** One line of the PEOPLE section: the person is added when it has an
        employer. */
    method ProcessPersonLine(line: string, userCompany: string, competitor: string, now: Timestamp)
      requires Valid()
      modifies this
      ensures Valid()
      ensures State() == Extraction.PersonLine(old(State()), line, userCompany, competitor, now)
    {
      var entry := ReadPersonLine(line, userCompany, competitor);
      if entry.Some? && entry.value.owner != [] {
        var _ := AddPerson(entry.value.name, entry.value.owner, entry.value.role, map[], now);
      }
    }

    /** One line of the RELATIONSHIPS section: the relationship is added when
        both endpoints are nodes. */
    method ProcessRelationshipLine(line: string, now: Timestamp)
      requires Valid()
      modifies this
      ensures Valid()
      ensures State() == Extraction.RelationshipLine(old(State()), line, now)
    {
      var arrow := Extraction.ReadArrow(line);
      if arrow.Some? && arrow.value.source in graph.nodes && arrow.value.target in graph.nodes {
        var attrs := Extraction.ArrowAttrs(arrow.value);
        var _ := AddRelationship(arrow.value.source, arrow.value.target, arrow.value.relType, attrs, now);
      }
    }
  }

  // ---------------------------------------------------------------------------
  // The loops of parse_entity_extraction that only compute values

  /** Reads a COMPANIES line `- Name: attributes`. */
  method ReadCompanyLine(line: string, ev: Extraction.Evaluator) returns (entry: Option<Extraction.CompanyEntry>)
    ensures entry == Extraction.ReadCompany(line, ev)
  {
    var labelled := Extraction.Labelled(line);
    if labelled.None? {
      return None;
    }
    var (name, attrsText) := labelled.value;
    var attrs := ReadCompanyAttrs(Strip(attrsText), ev);
    entry := Some(Extraction.CompanyEntry(name, attrs));
  }

  /** Reads a PRODUCTS line `- Name: attributes`, inferring the owner when no
      `company=` is given. */
  method ReadProductLine(line: string, userCompany: string, competitor: string) returns (entry: Option<Extraction.ProductEntry>)
    ensures entry == Extraction.ReadProduct(line, userCompany, competitor)
  {
    var labelled := Extraction.Labelled(line);
    if labelled.None? {
      return None;
    }
    var (product, attrsText) := labelled.value;
    var fields := ReadProductFields(Split(attrsText, ","));
    var owner := Extraction.ProductOwner(fields.company, attrsText, userCompany, competitor);
    entry := Some(Extraction.ProductEntry(product, owner, fields.attrs));
  }

  /** Reads a PEOPLE line `- Name: attributes`, inferring the employer when no
      `company=` is given. */
  method ReadPersonLine(line: string, userCompany: string, competitor: string) returns (entry: Option<Extraction.PersonEntry>)
    ensures entry == Extraction.ReadPerson(line, userCompany, competitor)
  {
    var labelled := Extraction.Labelled(line);
    if labelled.None? {
      return None;
    }
    var (person, attrsText) := labelled.value;
    var fields := ReadPersonFields(Split(attrsText, ","));
    var owner := Extraction.PersonOwner(fields.company, attrsText, userCompany, competitor);
    entry := Some(Extraction.PersonEntry(person, owner, fields.role));
  }

  /** The splitter loop over the normalised lines. */
  method SplitIntoSections(lines: seq<string>) returns (sections: map<Extraction.Section, seq<string>>)
    ensures sections == Extraction.SplitSections(lines)
  {
    var current: Option<Extraction.Section> := None;
    var content: seq<string> := [];
    sections := map[];
    var i := 0;
    while i < |lines|
      invariant 0 <= i <= |lines|
      invariant Extraction.Run(Extraction.Splitter(current, content, sections), lines[i..]) ==
                Extraction.Run(Extraction.Start, lines)
    {
      ghost var st := Extraction.Splitter(current, content, sections);
      SuffixTail(lines, i);
      var line := lines[i];
      match Extraction.MarkerOf(line) {
        case Some(sec) =>
          if current.Some? && content != [] {
            sections := sections[current.value := content];
          }
          current := Some(sec);
          content := [];
        case None =>
          if current.Some? {
            content := content + [line];
          }
      }
      assert Extraction.Splitter(current, content, sections) == Extraction.Step(st, line);
      i := i + 1;
    }
    if current.Some? && content != [] {
      sections := sections[current.value := content];
    }
  }

  /** The attributes of a COMPANIES line: what `eval` reads, or else the
      fallback loop over the comma pieces. */
  method ReadCompanyAttrs(attrsText: string, ev: Extraction.Evaluator) returns (attrs: map<string, string>)
    ensures attrs == Extraction.CompanyAttrs(attrsText, ev)
  {
    var evaluated := ev(Extraction.Braced(attrsText));
    if evaluated.Some? {
      attrs := evaluated.value;
    } else {
      attrs := ReadLoosePairs(Split(attrsText, ","), attrsText);
      assert attrs == Extraction.CompanyFallback(attrsText);
    }
  }

  /** The fallback loop of the COMPANIES section over the comma pieces of
      `whole`. */
  method ReadLoosePairs(pieces: seq<string>, whole: string) returns (attrs: map<string, string>)
    ensures attrs == Extraction.LoosePairs(pieces, whole, map[])
  {
    attrs := map[];
    var i := 0;
    while i < |pieces|
      invariant 0 <= i <= |pieces|
      invariant Extraction.LoosePairs(pieces[i..], whole, attrs) == Extraction.LoosePairs(pieces, whole, map[])
    {
      LoosePairsFrom(pieces, i, whole, attrs);
      match Extraction.KeyValue(pieces[i]) {
        case Some(kv) => attrs := attrs[kv.0 := kv.1];
        case None => attrs := attrs["description" := Strip(whole)];
      }
      i := i + 1;
    }
  }

  lemma LoosePairsFrom(pieces: seq<string>, i: int, whole: string, acc: map<string, string>)
    requires 0 <= i < |pieces|
    ensures Extraction.LoosePairs(pieces[i..], whole, acc) ==
      Extraction.LoosePairs(pieces[i + 1..], whole,
        match Extraction.KeyValue(pieces[i])
        case Some(kv) => acc[kv.0 := kv.1]
        case None => acc["description" := Strip(whole)])
  {
    SuffixTail(pieces, i);
  }

  /** The attribute loop of a PRODUCTS line over the comma pieces `parts`. */
  method ReadProductFields(parts: seq<string>) returns (fields: Extraction.ProductFields)
    ensures fields == Extraction.ProductPieces(Extraction.ParsePieces(parts), Extraction.ProductFields(map[], ""))
  {
    fields := Extraction.ProductFields(map[], "");
    var i := 0;
    while i < |parts|
      invariant 0 <= i <= |parts|
      invariant Extraction.ProductPieces(Extraction.ParsePieces(parts[i..]), fields) ==
                Extraction.ProductPieces(Extraction.ParsePieces(parts), Extraction.ProductFields(map[], ""))
    {
      ProductPiecesFrom(parts, i, fields);
      fields := ApplyProductPiece(fields, Extraction.ParsePiece(parts[i]));
      i := i + 1;
    }
  }

  /** One piece of a PRODUCTS line: `company=` names the owner, another
      `key=value` is an attribute, bare text is the description. */
  method ApplyProductPiece(fields: Extraction.ProductFields, piece: Extraction.Piece) returns (r: Extraction.ProductFields)
    ensures r == Extraction.ProductStep(fields, piece)
  {
    r := fields;
    match piece {
      case Pair(key, value) =>
        if key == "company" {
          r := r.(company := value);
        } else {
          r := r.(attrs := r.attrs[key := value]);
        }
      case Plain(text) =>
        r := r.(attrs := r.attrs["description" := text]);
    }
  }

  /** The attribute loop of a PEOPLE line over the comma pieces `parts`, from
      the defaults `role = 'Unknown'` and no company. */
  method ReadPersonFields(parts: seq<string>) returns (fields: Extraction.PersonFields)
    ensures fields == Extraction.PersonPieces(Extraction.ParsePieces(parts), Extraction.PersonFields("Unknown", ""))
  {
    fields := Extraction.PersonFields("Unknown", "");
    var i := 0;
    while i < |parts|
      invariant 0 <= i <= |parts|
      invariant Extraction.PersonPieces(Extraction.ParsePieces(parts[i..]), fields) ==
                Extraction.PersonPieces(Extraction.ParsePieces(parts), Extraction.PersonFields("Unknown", ""))
    {
      PersonPiecesFrom(parts, i, fields);
      fields := ApplyPersonPiece(fields, Extraction.ParsePiece(parts[i]));
      i := i + 1;
    }
  }

  /** One piece of a PEOPLE line: the key, lower-cased, picks the employer or
      the role; anything else is ignored. */
  method ApplyPersonPiece(fields: Extraction.PersonFields, piece: Extraction.Piece) returns (r: Extraction.PersonFields)
    ensures r == Extraction.PersonStep(fields, piece)
  {
    r := fields;
    match piece {
      case Pair(key, value) =>
        var k := Lower(key);
        if k == "company" {
          r := r.(company := value);
        } else if k == "role" || k == "position" || k == "title" {
          r := r.(role := value);
        }
      case Plain(_) =>
    }
  }

  // ---------------------------------------------------------------------------
  // The inner loops of `get_competitors`, over the data of the parallel edges
  // between two nodes, and the facts the query loops rely on.

  /** Appends `t` once per `competes_with` dictionary of `ds`. */
  method AppendCompeting(acc: seq<string>, t: string, ds: seq<Attrs>) returns (r: seq<string>)
    ensures r == acc + Queries.CompetingCopies(t, ds)
  {
    r := acc;
    var j := 0;
    while j < |ds|
      invariant 0 <= j <= |ds|
      invariant r == acc + Queries.CompetingCopies(t, ds[..j])
    {
      if MultiGraph.HasType(ds[j], "competes_with") {
        r := r + [t];
      }
      PrefixSnoc(ds, j);
      j := j + 1;
    }
    assert ds[..j] == ds;
  }

  /** Appends `s` at the first `competes_with` dictionary of `ds` unless it is
      already listed. */
  method AppendIncoming(s: string, ds: seq<Attrs>, acc: seq<string>) returns (r: seq<string>)
    ensures r == Queries.AddIncoming(s, ds, acc)
  {
    r := acc;
    var j := 0;
    while j < |ds|
      invariant 0 <= j <= |ds|
      invariant r == Queries.AddIncoming(s, ds[..j], acc)
    {
      if MultiGraph.HasType(ds[j], "competes_with") && s !in r {
        r := r + [s];
      }
      PrefixSnoc(ds, j);
      j := j + 1;
    }
    assert ds[..j] == ds;
  }

  /** Every neighbour of a node of a well-formed graph is a node. */
  lemma NeighboursAreNodes(g: MultiGraph.MultiDiGraph, n: string)
    requires MultiGraph.Valid(g)
    ensures forall x :: x in MultiGraph.Successors(g, n) ==> x in g.nodes
    ensures forall x :: x in MultiGraph.Predecessors(g, n) ==> x in g.nodes
  {
  }

  lemma OverlapsAddCompetitor(g: MultiGraph.MultiDiGraph, u: string, cs: set<string>, c: string)
    ensures Queries.Overlaps(g, {u}, cs + {c}) ==
      Queries.Overlaps(g, {u}, cs) +
      (if MultiGraph.NodeGet(g, u, "category") == MultiGraph.NodeGet(g, c, "category")
       then {Queries.Overlap(u, c, MultiGraph.NodeGet(g, u, "category"))} else {})
  {
  }

  lemma OverlapsAddUser(g: MultiGraph.MultiDiGraph, us: set<string>, u: string, cs: set<string>)
    ensures Queries.Overlaps(g, us + {u}, cs) == Queries.Overlaps(g, us, cs) + Queries.Overlaps(g, {u}, cs)
  {
  }

  /** Taking `x` out of the part still to visit adds it to the part visited. */
  lemma RemoveOne<T>(all: set<T>, rest: set<T>, x: T)
    requires x in rest && rest <= all
    ensures all - (rest - {x}) == (all - rest) + {x}
  {
  }

  /** The body of the loop of `query_entities_by_attribute`: the `i`-th node
      is appended when its type and attribute match. */
  method MatchNode(g: MultiGraph.MultiDiGraph, i: int, results: seq<string>, kind: string, key: string, value: Option<Value>)
    returns (r: seq<string>)
    requires 0 <= i < |g.order| && g.order[i] in g.nodes
    requires results == Queries.Matching(g, g.order[..i], kind, key, value)
    ensures r == Queries.Matching(g, g.order[..i + 1], kind, key, value)
  {
    var node := g.order[i];
    var attrs := g.nodes[node];
    r := results;
    if Get(attrs, "entity_type") == Some(Text(kind)) && Get(attrs, key) == value {
      r := r + [node];
    }
    MatchingStep(g, g.order, i, kind, key, value);
  }

  /** One more node of `ns` looked at by `query_entities_by_attribute`. */
  lemma MatchingStep(g: MultiGraph.MultiDiGraph, ns: seq<string>, i: int, kind: string, key: string, value: Option<Value>)
    requires 0 <= i < |ns| && ns[i] in g.nodes
    ensures var attrs := g.nodes[ns[i]];
      Queries.Matching(g, ns[..i + 1], kind, key, value) ==
      Queries.Matching(g, ns[..i], kind, key, value) +
        (if Get(attrs, "entity_type") == Some(Text(kind)) && Get(attrs, key) == value then [ns[i]] else [])
  {
    PrefixSnoc(ns, i);
  }

  /** A prefix one longer is the prefix with the next element appended. */
  lemma PrefixSnoc<T>(s: seq<T>, i: int)
    requires 0 <= i < |s|
    ensures s[..i + 1] == s[..i] + [s[i]]
  {
  }

  /** The suffix from `i` starts with `s[i]` and continues with the suffix from
      `i + 1`. */
  lemma SuffixTail<T>(s: seq<T>, i: int)
    requires 0 <= i < |s|
    ensures s[i..][0] == s[i] && s[i..][1..] == s[i + 1..]
  {
  }

  /** One turn of the PRODUCTS attribute loop: the piece at `i` is parsed and
      folded in. */
  lemma ProductPiecesFrom(parts: seq<string>, i: int, acc: Extraction.ProductFields)
    requires 0 <= i < |parts|
    ensures Extraction.ProductPieces(Extraction.ParsePieces(parts[i..]), acc) ==
      Extraction.ProductPieces(Extraction.ParsePieces(parts[i + 1..]), Extraction.ProductStep(acc, Extraction.ParsePiece(parts[i])))
  {
    SuffixTail(parts, i);
  }

  /** One turn of the PEOPLE attribute loop. */
  lemma PersonPiecesFrom(parts: seq<string>, i: int, acc: Extraction.PersonFields)
    requires 0 <= i < |parts|
    ensures Extraction.PersonPieces(Extraction.ParsePieces(parts[i..]), acc) ==
      Extraction.PersonPieces(Extraction.ParsePieces(parts[i + 1..]), Extraction.PersonStep(acc, Extraction.ParsePiece(parts[i])))
  {
    SuffixTail(parts, i);
  }

  // ---------------------------------------------------------------------------
  // The inner loops of `get_company_network` and the step lemmas of its loops

  /** The inner loop of the successor loop of `get_company_network`, over the
      data `ds` of the edges from `from` to `to`, whose `entity_type` is
      `nodeType`. */
  method VisitEdges(from: string, to: string, nodeType: Option<Value>, ds: seq<Attrs>)
    returns (competitors: seq<string>, products: seq<string>, markets: seq<string>, relationships: seq<Queries.Incident>)
    ensures competitors == Queries.CompetingCopies(to, ds)
    ensures products == if nodeType == Some(Text("product")) then Queries.OtherCopies(to, ds) else []
    ensures markets == if nodeType == Some(Text("market")) then Queries.OtherCopies(to, ds) else []
    ensures relationships == Queries.Incidents(EdgesWith(from, to, ds))
  {
    competitors, products, markets, relationships := [], [], [], [];
    var j := 0;
    while j < |ds|
      invariant 0 <= j <= |ds|
      invariant competitors == Queries.CompetingCopies(to, ds[..j])
      invariant products == if nodeType == Some(Text("product")) then Queries.OtherCopies(to, ds[..j]) else []
      invariant markets == if nodeType == Some(Text("market")) then Queries.OtherCopies(to, ds[..j]) else []
      invariant relationships == Queries.Incidents(EdgesWith(from, to, ds[..j]))
    {
      var data := ds[j];
      competitors, products, markets := SortEdge(to, nodeType, data, competitors, products, markets);
      relationships := relationships + [Queries.Incident(from, to, Get(data, "relationship_type"), data)];
      VisitStep(from, to, ds, j);
      j := j + 1;
    }
    assert ds[..j] == ds;
  }

  /** The body of that inner loop: a `competes_with` edge lists `to` as a
      competitor, any other edge as a product or a market by its node type. */
  method SortEdge(to: string, nodeType: Option<Value>, data: Attrs, competitors: seq<string>, products: seq<string>, markets: seq<string>)
    returns (competitors': seq<string>, products': seq<string>, markets': seq<string>)
    ensures var competes := MultiGraph.HasType(data, "competes_with");
      && competitors' == competitors + (if competes then [to] else [])
      && products' == products + (if !competes && nodeType == Some(Text("product")) then [to] else [])
      && markets' == markets + (if !competes && nodeType == Some(Text("market")) then [to] else [])
  {
    competitors', products', markets' := competitors, products, markets;
    var relType := Get(data, "relationship_type");
    if relType == Some(Text("competes_with")) {
      competitors' := competitors + [to];
    } else if nodeType == Some(Text("product")) {
      products' := products + [to];
    } else if nodeType == Some(Text("market")) {
      markets' := markets + [to];
    }
  }

  /** `for x in xs: r.append(x)`, from an empty list. */
  method AppendEach<T>(xs: seq<T>) returns (r: seq<T>)
    ensures r == xs
  {
    r := [];
    var i := 0;
    while i < |xs|
      invariant 0 <= i <= |xs|
      invariant r == xs[..i]
    {
      PrefixSnoc(xs, i);
      r := r + [xs[i]];
      i := i + 1;
    }
    assert xs[..i] == xs;
  }

  /** One turn of the inner loop of `get_company_network`, at the level of the
      functions that specify it. */
  lemma VisitStep(from: string, to: string, ds: seq<Attrs>, j: int)
    requires 0 <= j < |ds|
    ensures var competes := MultiGraph.HasType(ds[j], "competes_with");
      && Queries.CompetingCopies(to, ds[..j + 1]) == Queries.CompetingCopies(to, ds[..j]) + (if competes then [to] else [])
      && Queries.OtherCopies(to, ds[..j + 1]) == Queries.OtherCopies(to, ds[..j]) + (if competes then [] else [to])
      && Queries.Incidents(EdgesWith(from, to, ds[..j + 1])) ==
           Queries.Incidents(EdgesWith(from, to, ds[..j])) + [Queries.Incident(from, to, Get(ds[j], "relationship_type"), ds[j])]
  {
    PrefixSnoc(ds, j);
    assert ds[..j + 1][..j] == ds[..j];
    EdgesWithSnoc(from, to, ds[..j], ds[j]);
  }

  /** The inner loop of the predecessor loop of `get_company_network`. */
  method IncidentList(from: string, to: string, ds: seq<Attrs>) returns (relationships: seq<Queries.Incident>)
    ensures relationships == Queries.Incidents(EdgesWith(from, to, ds))
  {
    relationships := [];
    var j := 0;
    while j < |ds|
      invariant 0 <= j <= |ds|
      invariant relationships == Queries.Incidents(EdgesWith(from, to, ds[..j]))
    {
      var data := ds[j];
      relationships := relationships + [Queries.Incident(from, to, Get(data, "relationship_type"), data)];
      EdgesWithSnoc(from, to, ds[..j], data);
      PrefixSnoc(ds, j);
      j := j + 1;
    }
    assert ds[..j] == ds;
  }

  /** One turn of the successor loop of `get_company_network`, at the level of
      the functions that specify it. */
  lemma NetworkOutStep(g: MultiGraph.MultiDiGraph, c: string, ns: seq<string>, n: string)
    ensures var ds := MultiGraph.EdgeData(g, c, n);
      var nodeType := MultiGraph.NodeGet(g, n, "entity_type");
      && Queries.OutCompetitors(g, c, ns + [n]) == Queries.OutCompetitors(g, c, ns) + Queries.CompetingCopies(n, ds)
      && Queries.KindListed(g, c, ns + [n], "product") ==
           Queries.KindListed(g, c, ns, "product") + (if nodeType == Some(Text("product")) then Queries.OtherCopies(n, ds) else [])
      && Queries.KindListed(g, c, ns + [n], "market") ==
           Queries.KindListed(g, c, ns, "market") + (if nodeType == Some(Text("market")) then Queries.OtherCopies(n, ds) else [])
      && Queries.Incidents(MultiGraph.GroupedOut(g.edges, c, ns + [n])) ==
           Queries.Incidents(MultiGraph.GroupedOut(g.edges, c, ns)) + Queries.Incidents(EdgesWith(c, n, ds))
  {
    assert (ns + [n])[..|ns|] == ns;
    PairEdgesAre(g, c, n);
    IncidentsAppend(MultiGraph.GroupedOut(g.edges, c, ns), MultiGraph.PairEdges(g.edges, c, n));
  }

  /** One turn of the predecessor loop of `get_company_network`. */
  lemma NetworkInStep(g: MultiGraph.MultiDiGraph, c: string, ns: seq<string>, n: string)
    ensures Queries.OfKind(g, ns + [n], "person") ==
      Queries.OfKind(g, ns, "person") + (if MultiGraph.IsKind(g, n, "person") then [n] else [])
    ensures Queries.Incidents(MultiGraph.GroupedIn(g.edges, c, ns + [n])) ==
      Queries.Incidents(MultiGraph.GroupedIn(g.edges, c, ns)) + Queries.Incidents(EdgesWith(n, c, MultiGraph.EdgeData(g, n, c)))
  {
    assert (ns + [n])[..|ns|] == ns;
    PairEdgesAre(g, n, c);
    IncidentsAppend(MultiGraph.GroupedIn(g.edges, c, ns), MultiGraph.PairEdges(g.edges, n, c));
  }

  /** The names in the leadership list are the person nodes among the
      predecessors, in order. */
  lemma {:induction false} LeaderNames(g: MultiGraph.MultiDiGraph, ns: seq<string>)
    ensures Queries.Names(Queries.Leaders(g, ns)) == Queries.OfKind(g, ns, "person")
  {
    if ns != [] {
      var n := ns[|ns| - 1];
      LeaderNames(g, ns[..|ns| - 1]);
      NamesAppend(Queries.Leaders(g, ns[..|ns| - 1]), if MultiGraph.IsKind(g, n, "person") then [Queries.LeaderOf(g, n)] else []);
    }
  }

  /** One turn of the product loop of `get_market_landscape`. */
  lemma ProductsInStep(g: MultiGraph.MultiDiGraph, m: string, ps: seq<string>, p: string)
    ensures Queries.ProductsIn(g, m, ps + [p]) ==
      Queries.ProductsIn(g, m, ps) + (if m in Queries.ProductMarkets(g, p) then [p] else [])
  {
    assert (ps + [p])[..|ps|] == ps;
  }

  /** The edges from `u` to `v` carrying the dictionaries `ds`, in order. */
  function EdgesWith(u: string, v: string, ds: seq<Attrs>): (r: seq<MultiGraph.Edge>)
    ensures |r| == |ds| && forall k :: 0 <= k < |ds| ==> r[k] == MultiGraph.Edge(u, v, ds[k])
  {
    seq(|ds|, k requires 0 <= k < |ds| => MultiGraph.Edge(u, v, ds[k]))
  }

  lemma EdgesWithSnoc(u: string, v: string, ds: seq<Attrs>, d: Attrs)
    ensures Queries.Incidents(EdgesWith(u, v, ds + [d])) ==
      Queries.Incidents(EdgesWith(u, v, ds)) + [Queries.Incident(u, v, Get(d, "relationship_type"), d)]
  {
  }

  /** The parallel edges from `u` to `v` are those edges with the data
      `get_edge_data(u, v)` lists. */
  lemma PairEdgesAre(g: MultiGraph.MultiDiGraph, u: string, v: string)
    ensures MultiGraph.PairEdges(g.edges, u, v) == EdgesWith(u, v, MultiGraph.EdgeData(g, u, v))
  {
    var p := MultiGraph.PairEdges(g.edges, u, v);
    assert MultiGraph.EdgeData(g, u, v) == MultiGraph.AttrsOf(p);
    forall k | 0 <= k < |p| ensures p[k] == MultiGraph.Edge(u, v, p[k].attrs) {
      assert p[k] in p;
    }
  }

  lemma IncidentsAppend(a: seq<MultiGraph.Edge>, b: seq<MultiGraph.Edge>)
    ensures Queries.Incidents(a + b) == Queries.Incidents(a) + Queries.Incidents(b)
  {
  }

  lemma NamesAppend(a: seq<Queries.Leader>, b: seq<Queries.Leader>)
    ensures Queries.Names(a + b) == Queries.Names(a) + Queries.Names(b)
  {
  }
}
