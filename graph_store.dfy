/** The state of a `CompetitiveKnowledgeGraph` as a value, and its mutation
    primitives `add_company`, `add_relationship`, `add_product`, `add_market`,
    `add_person` and the first three statements of `import_from_analysis` as
    functions from the old state to the new one.  The class in
    knowledge_graph.dfy updates its fields in place and is specified by these. */
module GraphStore {
  import opened Values
  import opened MultiGraph

  /** One entry of `relationship_history`. */
  datatype HistoryRecord = HistoryRecord(source: string, target: string, relType: string, timestamp: Timestamp)

  /** `self.graph`, `self.entity_attributes` and `self.relationship_history`. */
  datatype Store = Store(graph: MultiDiGraph, entityAttributes: map<string, Attrs>, history: seq<HistoryRecord>)

  /** The state `__init__` creates. */
  const Init: Store := Store(Empty, map[], [])

  /** The history entry that `add_relationship` wrote together with edge `e`. */
  predicate Records(e: Edge, h: HistoryRecord) {
    && e.src == h.source
    && e.tgt == h.target
    && Get(e.attrs, "relationship_type") == Some(Text(h.relType))
    && Get(e.attrs, "added_at") == Some(Text(h.timestamp))
  }

  /** The graph is well formed, every name with stored entity attributes is a
      node, and the history lists one record per edge, in edge order. */
  ghost predicate Valid(s: Store) {
    && MultiGraph.Valid(s.graph)
    && s.entityAttributes.Keys <= s.graph.nodes.Keys
    && |s.history| == |s.graph.edges|
    && forall k :: 0 <= k < |s.history| ==> Records(s.graph.edges[k], s.history[k])
  }

  lemma InitValid()
    ensures Valid(Init) && Init.graph.nodes == map[] && Init.graph.edges == [] && Init.history == []
  {
  }

  // ---------------------------------------------------------------------------
  // The attributes each primitive stores: the caller's, with its own keys set
  // over them.

  /** The data of an edge: `relationship_type` and `added_at` over `attributes`. */
  function EdgeRecord(attributes: Attrs, relType: string, now: Timestamp): (a: Attrs)
    ensures Get(a, "relationship_type") == Some(Text(relType)) && Get(a, "added_at") == Some(Text(now))
    ensures forall k :: k in attributes && k != "relationship_type" && k != "added_at" ==> Get(a, k) == Some(attributes[k])
  {
    attributes["relationship_type" := Text(relType)]["added_at" := Text(now)]
  }

  /** The attributes of a company node: `added_at`, then `entity_type`. */
  function CompanyRecord(attributes: Attrs, now: Timestamp): (a: Attrs)
    ensures Get(a, "entity_type") == Some(Text("company")) && Get(a, "added_at") == Some(Text(now))
    ensures forall k :: k in attributes && k != "entity_type" && k != "added_at" ==> Get(a, k) == Some(attributes[k])
  {
    attributes["added_at" := Text(now)]["entity_type" := Text("company")]
  }

  /** The attributes of a market or product node: `entity_type`, then
      `added_at`. */
  function EntityRecord(attributes: Attrs, kind: string, now: Timestamp): (a: Attrs)
    ensures Get(a, "entity_type") == Some(Text(kind)) && Get(a, "added_at") == Some(Text(now))
    ensures forall k :: k in attributes && k != "entity_type" && k != "added_at" ==> Get(a, k) == Some(attributes[k])
  {
    attributes["entity_type" := Text(kind)]["added_at" := Text(now)]
  }

  /** The attributes of a person node: `entity_type`, `role`, then `added_at`. */
  function PersonRecord(attributes: Attrs, role: string, now: Timestamp): (a: Attrs)
    ensures Get(a, "entity_type") == Some(Text("person")) && Get(a, "role") == Some(Text(role))
    ensures Get(a, "added_at") == Some(Text(now))
    ensures forall k :: k in attributes && k != "entity_type" && k != "role" && k != "added_at" ==> Get(a, k) == Some(attributes[k])
  {
    attributes["entity_type" := Text("person")]["role" := Text(role)]["added_at" := Text(now)]
  }

  // ---------------------------------------------------------------------------
  // networkx binds a keyword argument that has the name of one of its own
  // parameters to that parameter: `add_node(self, node_for_adding, **attr)` and
  // `add_edge(self, u_for_edge, v_for_edge, key=None, **attr)`, both called as
  // bound methods, so `self` is taken too.  An attribute with
  // such a name makes the call raise `TypeError` (the argument is given twice)
  // before the graph changes.  An attribute named `key` becomes the key of the
  // edge instead of edge data; edge keys are not part of this model.

  /** `add_node(name, **attributes)` raises. */
  predicate NodeCallRaises(attributes: Attrs) {
    "self" in attributes || "node_for_adding" in attributes
  }

  /** `add_edge(source, target, **attributes)` raises. */
  predicate EdgeCallRaises(attributes: Attrs) {
    "self" in attributes || "u_for_edge" in attributes || "v_for_edge" in attributes
  }

  /** Without attributes neither call can raise. */
  lemma EmptyAttributesAccepted()
    ensures !NodeCallRaises(map[]) && !EdgeCallRaises(map[])
  {
  }

  /** `add_relationship(source, target, relationship_type, attributes)`: when
      `add_edge` raises, neither the edge nor the history record is added. */
  function AddRelationship(s: Store, source: string, target: string, relType: string,
                           attributes: Attrs, now: Timestamp): (r: Store)
    requires "key" !in attributes
    ensures Valid(s) ==> Valid(r)
  {
    if EdgeCallRaises(attributes) then s
    else
      var a := EdgeRecord(attributes, relType, now);
      var r := s.(graph := AddEdge(s.graph, source, target, a),
                  history := s.history + [HistoryRecord(source, target, relType, now)]);
      assert Records(Edge(source, target, a), HistoryRecord(source, target, relType, now));
      r
  }

  /** `add_company(name, attributes)`; unchanged when `add_node` raises. */
  function AddCompany(s: Store, name: string, attributes: Attrs, now: Timestamp): (r: Store)
    ensures Valid(s) ==> Valid(r)
  {
    if NodeCallRaises(attributes) then s
    else
      var a := CompanyRecord(attributes, now);
      s.(graph := AddNode(s.graph, name, a), entityAttributes := s.entityAttributes[name := a])
  }

  /** `add_market(name, attributes)`; unchanged when `add_node` raises. */
  function AddMarket(s: Store, name: string, attributes: Attrs, now: Timestamp): (r: Store)
    ensures Valid(s) ==> Valid(r)
  {
    if NodeCallRaises(attributes) then s
    else
      var a := EntityRecord(attributes, "market", now);
      s.(graph := AddNode(s.graph, name, a), entityAttributes := s.entityAttributes[name := a])
  }

  /** `add_product(name, company, attributes)`: the product node, then a
      `produces` edge from the company; unchanged when `add_node` raises. */
  function AddProduct(s: Store, name: string, company: string, attributes: Attrs, now: Timestamp): (r: Store)
    ensures Valid(s) ==> Valid(r)
  {
    if NodeCallRaises(attributes) then s
    else
      var a := EntityRecord(attributes, "product", now);
      var s1 := s.(graph := AddNode(s.graph, name, a), entityAttributes := s.entityAttributes[name := a]);
      AddRelationship(s1, company, name, "produces",
                      map["description" := Text(company + " produces " + name)], now)
  }

  /** `add_person(name, company, role, attributes)`: the person node, then a
      `works_at` edge to the company that carries the role; unchanged when
      `add_node` raises. */
  function AddPerson(s: Store, name: string, company: string, role: string, attributes: Attrs,
                     now: Timestamp): (r: Store)
    ensures Valid(s) ==> Valid(r)
  {
    if NodeCallRaises(attributes) then s
    else
      var a := PersonRecord(attributes, role, now);
      var s1 := s.(graph := AddNode(s.graph, name, a), entityAttributes := s.entityAttributes[name := a]);
      AddRelationship(s1, name, company, "works_at",
                      map["role" := Text(role), "description" := Text(name + " is " + role + " at " + company)], now)
  }

  /** The first three statements of `import_from_analysis`; the keyword loop
      after them has an empty body. */
  function ImportFromAnalysis(s: Store, userCompany: string, competitor: string, now: Timestamp): (r: Store)
    ensures Valid(s) ==> Valid(r)
  {
    var s1 := AddCompany(s, userCompany, map["is_user_company" := Flag(true)], now);
    var s2 := AddCompany(s1, competitor, map["is_competitor" := Flag(true)], now);
    AddRelationship(s2, userCompany, competitor, "competes_with",
                    map["description" := Text(userCompany + " competes with " + competitor)], now)
  }

  // ---------------------------------------------------------------------------
  // What each primitive guarantees.

  /** Without `key` among the attributes, `add_relationship` never merges:
      exactly one edge and exactly one history record are appended, both for
      `source -> target` with the given type, and all earlier edges, records
      and node attributes stay as they were.  When `add_edge` raises, nothing
      changes. */
  lemma AddRelationshipAppendsOne(s: Store, source: string, target: string, relType: string,
                                  attributes: Attrs, now: Timestamp)
    requires "key" !in attributes
    ensures EdgeCallRaises(attributes) ==> AddRelationship(s, source, target, relType, attributes, now) == s
    ensures var r := AddRelationship(s, source, target, relType, attributes, now);
      !EdgeCallRaises(attributes) ==>
      && |r.graph.edges| == |s.graph.edges| + 1
      && r.graph.edges[..|s.graph.edges|] == s.graph.edges
      && var e := r.graph.edges[|s.graph.edges|];
      && e.src == source && e.tgt == target && HasType(e.attrs, relType)
      && (forall k :: k in attributes && k != "relationship_type" && k != "added_at" ==> Get(e.attrs, k) == Some(attributes[k]))
      && r.history == s.history + [HistoryRecord(source, target, relType, now)]
      && source in r.graph.nodes && target in r.graph.nodes
      && (forall n :: n in s.graph.nodes ==> n in r.graph.nodes && r.graph.nodes[n] == s.graph.nodes[n])
      && r.entityAttributes == s.entityAttributes
  {
    var r := AddRelationship(s, source, target, relType, attributes, now);
    if !EdgeCallRaises(attributes) {
      assert r.graph.edges == s.graph.edges + [r.graph.edges[|s.graph.edges|]];
    }
  }

  /** Two relationships of different types between the same ordered pair are
      both kept, in the order they were added. */
  lemma ParallelRelationshipsKept(s: Store, source: string, target: string, t1: string, t2: string,
                                  a1: Attrs, a2: Attrs, now: Timestamp)
    requires "key" !in a1 && "key" !in a2
    ensures var r := AddRelationship(AddRelationship(s, source, target, t1, a1, now), source, target, t2, a2, now);
      var d := EdgeData(r.graph, source, target);
      !EdgeCallRaises(a1) && !EdgeCallRaises(a2) ==>
      && |d| == |EdgeData(s.graph, source, target)| + 2
      && HasType(d[|d| - 2], t1) && HasType(d[|d| - 1], t2)
  {
    if !EdgeCallRaises(a1) && !EdgeCallRaises(a2) {
      var s1 := AddRelationship(s, source, target, t1, a1, now);
      var r := AddRelationship(s1, source, target, t2, a2, now);
      var b1 := EdgeRecord(a1, t1, now);
      var b2 := EdgeRecord(a2, t2, now);
      RelationshipEdgeData(s, source, target, t1, a1, now);
      RelationshipEdgeData(s1, source, target, t2, a2, now);
      assert EdgeData(r.graph, source, target) == EdgeData(s.graph, source, target) + [b1] + [b2];
      assert HasType(b1, t1) && HasType(b2, t2);
    }
  }

  /** The data of the edges between `source` and `target` after a relationship
      between them is added: the earlier data, then the new edge's. */
  lemma RelationshipEdgeData(s: Store, source: string, target: string, relType: string, attributes: Attrs, now: Timestamp)
    requires "key" !in attributes && !EdgeCallRaises(attributes)
    ensures EdgeData(AddRelationship(s, source, target, relType, attributes, now).graph, source, target)
         == EdgeData(s.graph, source, target) + [EdgeRecord(attributes, relType, now)]
  {
    var a := EdgeRecord(attributes, relType, now);
    assert AddRelationship(s, source, target, relType, attributes, now).graph == AddEdge(s.graph, source, target, a);
    AddEdgeKeepsParallelEdges(s.graph, source, target, a, source, target);
  }

  /** After `add_product` the product is a node of type `product` holding the
      other given attributes, and the newest edge is a `produces` edge from the
      company to it.  When `add_node` raises, nothing changes. */
  lemma AddProductEffect(s: Store, name: string, company: string, attributes: Attrs, now: Timestamp)
    ensures NodeCallRaises(attributes) ==> AddProduct(s, name, company, attributes, now) == s
    ensures var r := AddProduct(s, name, company, attributes, now);
      !NodeCallRaises(attributes) ==>
      && name in r.graph.nodes && company in r.graph.nodes
      && IsKind(r.graph, name, "product")
      && (forall k :: k in attributes && k != "entity_type" && k != "added_at" ==>
            NodeGet(r.graph, name, k) == Some(attributes[k]))
      && |r.graph.edges| == |s.graph.edges| + 1
      && r.graph.edges[..|s.graph.edges|] == s.graph.edges
      && var e := r.graph.edges[|s.graph.edges|];
      && e.src == company && e.tgt == name && HasType(e.attrs, "produces")
      && r.history == s.history + [HistoryRecord(company, name, "produces", now)]
  {
    var r := AddProduct(s, name, company, attributes, now);
    if !NodeCallRaises(attributes) {
      assert r.graph.edges == s.graph.edges + [r.graph.edges[|s.graph.edges|]];
    }
  }

  /** After `add_person` the person is a node of type `person` holding the role
      and the other given attributes, and the newest edge is a `works_at` edge
      from the person to the company that carries the same role.  When
      `add_node` raises, nothing changes. */
  lemma AddPersonEffect(s: Store, name: string, company: string, role: string, attributes: Attrs, now: Timestamp)
    ensures NodeCallRaises(attributes) ==> AddPerson(s, name, company, role, attributes, now) == s
    ensures var r := AddPerson(s, name, company, role, attributes, now);
      !NodeCallRaises(attributes) ==>
      && name in r.graph.nodes && company in r.graph.nodes
      && IsKind(r.graph, name, "person")
      && NodeGet(r.graph, name, "role") == Some(Text(role))
      && (forall k :: k in attributes && k != "entity_type" && k != "role" && k != "added_at" ==>
            NodeGet(r.graph, name, k) == Some(attributes[k]))
      && |r.graph.edges| == |s.graph.edges| + 1
      && r.graph.edges[..|s.graph.edges|] == s.graph.edges
      && var e := r.graph.edges[|s.graph.edges|];
      && e.src == name && e.tgt == company && HasType(e.attrs, "works_at")
      && Get(e.attrs, "role") == Some(Text(role))
      && r.history == s.history + [HistoryRecord(name, company, "works_at", now)]
  {
    if !NodeCallRaises(attributes) {
      var a := PersonRecord(attributes, role, now);
      var s1 := s.(graph := AddNode(s.graph, name, a), entityAttributes := s.entityAttributes[name := a]);
      var d := map["role" := Text(role), "description" := Text(name + " is " + role + " at " + company)];
      assert !EdgeCallRaises(d) && "key" !in d;
      AddRelationshipAppendsOne(s1, name, company, "works_at", d, now);
    }
  }


  /** After `add_company` the company is a node of type `company` holding the
      other given attributes, and no edge or history record is added.  When
      `add_node` raises, nothing changes. */
  lemma AddCompanyEffect(s: Store, name: string, attributes: Attrs, now: Timestamp)
    ensures NodeCallRaises(attributes) ==> AddCompany(s, name, attributes, now) == s
    ensures var r := AddCompany(s, name, attributes, now);
      !NodeCallRaises(attributes) ==>
      && name in r.graph.nodes
      && IsKind(r.graph, name, "company")
      && (forall k :: k in attributes && k != "entity_type" && k != "added_at" ==>
            NodeGet(r.graph, name, k) == Some(attributes[k]))
      && r.entityAttributes[name] == CompanyRecord(attributes, now)
      && r.graph.order == (if name in s.graph.nodes then s.graph.order else s.graph.order + [name])
      && r.graph.edges == s.graph.edges && r.history == s.history
  {
  }

  /** After `add_market` the market is a node of type `market` holding the
      other given attributes, and no edge or history record is added.  When
      `add_node` raises, nothing changes. */
  lemma AddMarketEffect(s: Store, name: string, attributes: Attrs, now: Timestamp)
    ensures NodeCallRaises(attributes) ==> AddMarket(s, name, attributes, now) == s
    ensures var r := AddMarket(s, name, attributes, now);
      !NodeCallRaises(attributes) ==>
      && name in r.graph.nodes
      && IsKind(r.graph, name, "market")
      && (forall k :: k in attributes && k != "entity_type" && k != "added_at" ==>
            NodeGet(r.graph, name, k) == Some(attributes[k]))
      && r.entityAttributes[name] == EntityRecord(attributes, "market", now)
      && r.graph.edges == s.graph.edges && r.history == s.history
  {
  }

  /** Re-adding a node keeps its place, keeps its edges and merges the new
      attributes over the old ones in the graph, while `entity_attributes`
      holds the new attributes alone.  When `add_node` raises, nothing
      changes. */
  lemma AddCompanyMerges(s: Store, name: string, attributes: Attrs, now: Timestamp)
    requires name in s.graph.nodes
    ensures NodeCallRaises(attributes) ==> AddCompany(s, name, attributes, now) == s
    ensures var r := AddCompany(s, name, attributes, now);
      var a := CompanyRecord(attributes, now);
      !NodeCallRaises(attributes) ==>
      && r.graph.order == s.graph.order
      && r.graph.edges == s.graph.edges
      && r.graph.nodes[name] == s.graph.nodes[name] + a
      && (forall k :: k in s.graph.nodes[name] && k !in a ==> r.graph.nodes[name][k] == s.graph.nodes[name][k])
      && r.entityAttributes[name] == a
  {
  }

  // ---------------------------------------------------------------------------
  // The state only grows.

  /** `r` is `s` with nodes, edges and history records appended: no node is
      removed or reordered, no edge or record is removed or changed. */
  ghost predicate Extends(s: Store, r: Store) {
    && s.graph.order <= r.graph.order
    && s.graph.nodes.Keys <= r.graph.nodes.Keys
    && s.graph.edges <= r.graph.edges
    && s.history <= r.history
  }

  lemma ExtendsReflexive(s: Store)
    ensures Extends(s, s)
  {
  }

  lemma ExtendsTransitive(s: Store, t: Store, u: Store)
    requires Extends(s, t) && Extends(t, u)
    ensures Extends(s, u)
  {
  }

  lemma AddRelationshipExtends(s: Store, source: string, target: string, relType: string, attributes: Attrs, now: Timestamp)
    requires "key" !in attributes
    ensures Extends(s, AddRelationship(s, source, target, relType, attributes, now))
  {
  }

  lemma AddCompanyExtends(s: Store, name: string, attributes: Attrs, now: Timestamp)
    ensures Extends(s, AddCompany(s, name, attributes, now))
  {
  }

  lemma AddMarketExtends(s: Store, name: string, attributes: Attrs, now: Timestamp)
    ensures Extends(s, AddMarket(s, name, attributes, now))
  {
  }

  lemma AddProductExtends(s: Store, name: string, company: string, attributes: Attrs, now: Timestamp)
    ensures Extends(s, AddProduct(s, name, company, attributes, now))
  {
    if !NodeCallRaises(attributes) {
      var a := EntityRecord(attributes, "product", now);
      var s1 := s.(graph := AddNode(s.graph, name, a), entityAttributes := s.entityAttributes[name := a]);
      var d := map["description" := Text(company + " produces " + name)];
      assert Extends(s, s1);
      AddRelationshipExtends(s1, company, name, "produces", d, now);
      assert AddProduct(s, name, company, attributes, now) == AddRelationship(s1, company, name, "produces", d, now);
      ExtendsTransitive(s, s1, AddProduct(s, name, company, attributes, now));
    }
  }

  lemma AddPersonExtends(s: Store, name: string, company: string, role: string, attributes: Attrs, now: Timestamp)
    ensures Extends(s, AddPerson(s, name, company, role, attributes, now))
  {
    if !NodeCallRaises(attributes) {
      var a := PersonRecord(attributes, role, now);
      var s1 := s.(graph := AddNode(s.graph, name, a), entityAttributes := s.entityAttributes[name := a]);
      var d := map["role" := Text(role), "description" := Text(name + " is " + role + " at " + company)];
      assert Extends(s, s1);
      AddRelationshipExtends(s1, name, company, "works_at", d, now);
      assert AddPerson(s, name, company, role, attributes, now) == AddRelationship(s1, name, company, "works_at", d, now);
      ExtendsTransitive(s, s1, AddPerson(s, name, company, role, attributes, now));
    }
  }
}
