# Competitive knowledge graph, modelled in Dafny

This project models `CompetitiveKnowledgeGraph`, the competitive-intelligence
knowledge graph in `knowledge_graph.py`. The graph stores:

- **Entities:** companies, products, markets and people.
- **Relationships:** `competes_with`, `produces`, `operates_in`, `works_at` and any type read from text.

Both live in a networkx `MultiDiGraph`. The object also keeps two other things:

- a dictionary of the attributes last given for each entity;
- a history of every relationship added.

The model covers:

- the constructor and the five mutators;
- the read-only queries;
- the text parser `parse_entity_extraction`;
- the first statements of `import_from_analysis`;
- the degree ranking inside `get_graph_summary`.

Files, from the bottom up:

- **values.dfy:** attribute values (text or flag), attribute dictionaries and `dict.get`.
- **strings.dfy:** the Python `str` operations the parser relies on:
  - `strip`, `split`, `split(sep, 1)`, `in`, `startswith`;
  - `lower`/`upper`, with ASCII letters only;
  - `split()`, used for counting words.
- **multigraph.dfy:** the networkx `MultiDiGraph`, modelled as:
  - the node names in insertion order;
  - a map from node to its attributes;
  - one flat sequence of edges in insertion order.

  `successors`, `predecessors` and `get_edge_data` are derived from it in networkx's own orders. Adding a node merges its attributes. Parallel edges are kept.
- **simple_paths.dfy:** `nx.all_simple_paths` with a cutoff, as the depth-first enumeration networkx performs. It is proved to return exactly the simple paths within the cutoff.
- **graph_store.dfy:** the object's three fields as one value, `Store`, and each mutator as a function from the old store to the new one. The invariant `Valid` states three things:
  - the graph is well formed;
  - every entity with stored attributes is a node;
  - the history holds one record per edge, in edge order.
- **queries.dfy:** each query as a function of the graph, with lemmas that say what its result means in terms of edges and node types.
- **extraction.dfy:** `parse_entity_extraction` as a function of the store and the text. It covers:
  - line normalisation;
  - the section splitter;
  - the per-line readers for companies, products, markets, people and relationships;
  - the owner inference for products and people;
  - the effect of each line on the store.
- **summary.dfy:** the stable descending sort by degree and the top five companies in `get_graph_summary`. The sort is also an in-place insertion sort on an array.
- **knowledge_graph.dfy:** the class `CompetitiveKnowledgeGraph`.
  - Its fields `graph`, `entityAttributes` and `relationshipHistory` are updated in place.
  - Every mutator is proved to leave exactly the store the matching GraphStore function computes.
  - Every query is a loop proved to return what the matching Queries function computes.
  - `ParseEntityExtraction` is the splitter loop plus one loop per section, proved against `Extraction.Parse`.

The source is dynamically typed Python, so these inputs become parameters:

- **Timestamps:** the clock becomes a parameter `now`, one value per public call.
- **`eval`:** the parser calls `eval('{' + text + '}')` to read company and market attributes. That call runs arbitrary Python. It becomes an `Evaluator` parameter, which gives the dictionary `eval` would produce, or `None` where `eval` raises.

Whenever `eval` fails, the model takes the source's fallback:

- for a company, the `key=value` loop;
- for a market, a single `description`.

networkx binds a keyword argument that has the name of one of its own parameters to that parameter. Its signatures are `add_node(self, node_for_adding, **attr)` and `add_edge(self, u_for_edge, v_for_edge, key=None, **attr)`, both called as bound methods. The mutators pass the attributes as keyword arguments, so:

- an attribute named `self` or `node_for_adding` makes `add_node` raise `TypeError`;
- an attribute named `self`, `u_for_edge` or `v_for_edge` makes `add_edge` raise `TypeError`.

Either way the call raises before the graph changes. The model leaves the store unchanged, and the class's mutators report it in a `raised` result. Inside the parser, the per-line `except` catches the error, so that line is skipped.

## Model

| member | source | states |
|---|---|---|
| Values.Get | knowledge_graph.py:104 | `dict.get`: present exactly when the key is in the dictionary, and then its value |
| Values.TextAttrs | knowledge_graph.py:399-401 | a dictionary of strings becomes attributes with the same keys and the same text values |
| Strings.TrimLeft | knowledge_graph.py:345 | drops exactly the leading whitespace: the result is a suffix, everything dropped is whitespace, and the result does not start with whitespace |
| Strings.TrimRight | knowledge_graph.py:345 | drops exactly the trailing whitespace, symmetrically |
| Strings.StripSlice | knowledge_graph.py:345 | `Strip` (`str.strip()`) returns a contiguous slice bounded by whitespace only, and that slice neither starts nor ends with whitespace |
| Strings.StripIdempotent | knowledge_graph.py:345 | stripping twice is stripping once, so normalised lines are stable |
| Strings.MentionsIgnoresCase | knowledge_graph.py:442 | `Mentions`, the test `name.lower() in text.lower()`, ignores case: upper-casing the text or the name does not change it |
| Strings.OccurrenceMentioned | knowledge_graph.py:527 | `Mentions` holds whenever the name occurs verbatim in the text |
| Strings.FindFrom | knowledge_graph.py:393 | the first occurrence at or after a position, or none exists |
| Strings.Find | knowledge_graph.py:393 | the first occurrence of a substring, or proof that there is none (`in` on strings) |
| Strings.Split | knowledge_graph.py:345 | `str.split(sep)` yields at least one piece, and no piece contains the separator |
| Strings.JoinSplit | knowledge_graph.py:345 | joining the pieces of `split(sep)` with `sep` gives back the original string |
| Strings.SplitJoin | knowledge_graph.py:480 | splitting a join of separator-free pieces gives back the pieces |
| Strings.SplitAt | knowledge_graph.py:379 | splitting at the first separator: the first piece is the text before it, and the rest is the split of the text after it |
| Strings.Partition | knowledge_graph.py:379 | `split(sep, 1)`: the head is the first piece of `split(sep)`; a tail exists exactly when the separator occurs; head + sep + tail rebuilds the string |
| Strings.LeadingWord | knowledge_graph.py:439 | the longest whitespace-free prefix |
| Strings.Lower | knowledge_graph.py:442 | `lower()` maps every character and keeps the length |
| Strings.Upper | knowledge_graph.py:352 | `upper()` maps every character and keeps the length |
| MultiGraph.EmptyValid | knowledge_graph.py:14 | `nx.MultiDiGraph()` is a well-formed graph with no nodes and no edges |
| MultiGraph.AddNode | knowledge_graph.py:27 | `add_node` keeps the graph well formed, merges the new attributes over any existing ones, and leaves every other node unchanged |
| MultiGraph.EnsureNode | knowledge_graph.py:39 | the endpoint that `add_edge` creates is a node with empty attributes if it was absent; existing nodes are unchanged |
| MultiGraph.AddEdge | knowledge_graph.py:39 | `add_edge` appends exactly one edge, makes both endpoints nodes and changes no existing node's attributes |
| MultiGraph.AddEdgeBetweenNodes | knowledge_graph.py:39 | an edge between existing nodes adds no node and changes no node order |
| MultiGraph.AddEdgeKeepsParallelEdges | knowledge_graph.py:14 | a multigraph: a second edge between the same pair is kept beside the first, in insertion order |
| MultiGraph.Successors | knowledge_graph.py:100 | `successors` lists each target of an out-edge exactly once, and nothing else |
| MultiGraph.Predecessors | knowledge_graph.py:108 | `predecessors` lists each source of an in-edge exactly once, and nothing else |
| MultiGraph.EdgeData | knowledge_graph.py:101 | `get_edge_data(u, v).values()` holds exactly the attributes of the edges from u to v |
| MultiGraph.OutEdges | knowledge_graph.py:216 | the out-edges in networkx's adjacency order are edges of the graph |
| MultiGraph.OutEdgesArePermutation | knowledge_graph.py:212-231 | the out-edges in adjacency order are a permutation of the graph's edges leaving the node |
| MultiGraph.InEdgesArePermutation | knowledge_graph.py:234-247 | the in-edges in adjacency order are a permutation of the graph's edges entering the node |
| SimplePaths.EdgeTargets | knowledge_graph.py:194 | the children the search visits from a node are exactly its edge targets |
| SimplePaths.Explore | knowledge_graph.py:194 | the depth-first search extends a simple partial walk only by edges, within the cutoff |
| SimplePaths.AllSimplePaths | knowledge_graph.py:189-198 | every returned path is a simple walk from source to target no longer than the cutoff; an absent endpoint or a cutoff below 1 gives no path |
| SimplePaths.ExploreComplete | knowledge_graph.py:194 | every simple path that continues the current walk within the cutoff is found |
| SimplePaths.AllSimplePathsComplete | knowledge_graph.py:189-198 | every simple path between two nodes within the cutoff is returned |
| GraphStore.InitValid | knowledge_graph.py:13-16 | the initial state is valid: an empty graph, no entity attributes, no history |
| GraphStore.EdgeRecord | knowledge_graph.py:36-37 | the edge carries its relationship type and timestamp, and every other given attribute unchanged |
| GraphStore.CompanyRecord | knowledge_graph.py:24-25 | a company carries `entity_type` company and its timestamp, and every other given attribute unchanged |
| GraphStore.EntityRecord | knowledge_graph.py:54-55 | a product or market carries its entity type and timestamp, and every other given attribute unchanged |
| GraphStore.PersonRecord | knowledge_graph.py:82-84 | a person carries `entity_type` person, the role and the timestamp, and every other given attribute unchanged |
| GraphStore.AddRelationship | knowledge_graph.py:30-47 | `add_relationship` preserves the store invariant (one history record per edge) |
| GraphStore.AddCompany | knowledge_graph.py:18-28 | `add_company` preserves the store invariant |
| GraphStore.AddMarket | knowledge_graph.py:65-74 | `add_market` preserves the store invariant |
| GraphStore.AddProduct | knowledge_graph.py:49-63 | `add_product` preserves the store invariant |
| GraphStore.AddPerson | knowledge_graph.py:76-93 | `add_person` preserves the store invariant |
| GraphStore.ImportFromAnalysis | knowledge_graph.py:581-588 | the first statements of `import_from_analysis` preserve the store invariant |
| GraphStore.AddRelationshipAppendsOne | knowledge_graph.py:30-47 | when `add_edge` does not raise: exactly one edge and one matching history record are appended, the edge keeps the other given attributes, and earlier edges, records and nodes are unchanged; when it raises, nothing changes |
| GraphStore.ParallelRelationshipsKept | knowledge_graph.py:30-47 | two relationships between the same pair that do not raise both remain, in order, with their own types |
| GraphStore.RelationshipEdgeData | knowledge_graph.py:39 | the edge data between the two endpoints gains the new edge's data at the end |
| GraphStore.AddProductEffect | knowledge_graph.py:49-63 | when `add_node` does not raise: the product becomes a `product` node holding the other given attributes, and the one new edge is `produces` from the company, recorded in the history; when it raises, nothing changes |
| GraphStore.AddPersonEffect | knowledge_graph.py:76-93 | when `add_node` does not raise: the person becomes a `person` node with the role and the other given attributes, and the one new edge is `works_at` to the company carrying the same role; when it raises, nothing changes |
| GraphStore.AddCompanyEffect | knowledge_graph.py:18-28 | when `add_node` does not raise: the company is a `company` node holding the other given attributes, appended to the node order if new, its entity attributes are stored, and no edge or history record is added; when it raises, nothing changes |
| GraphStore.AddMarketEffect | knowledge_graph.py:65-74 | when `add_node` does not raise: the market is a `market` node holding the other given attributes, its entity attributes are stored, and no edge or history record is added; when it raises, nothing changes |
| GraphStore.AddCompanyMerges | knowledge_graph.py:18-28 | re-adding a company that does not raise adds no node or edge, merges the new attributes over the old ones, and replaces its stored entity attributes; when it raises, nothing changes |
| GraphStore.AddRelationshipExtends | knowledge_graph.py:30-47 | `add_relationship` only grows the state |
| GraphStore.AddCompanyExtends | knowledge_graph.py:18-28 | `add_company` only grows the state |
| GraphStore.AddMarketExtends | knowledge_graph.py:65-74 | `add_market` only grows the state |
| GraphStore.AddProductExtends | knowledge_graph.py:49-63 | `add_product` only grows the state |
| GraphStore.AddPersonExtends | knowledge_graph.py:76-93 | `add_person` only grows the state |
| Queries.CompetingCopies | knowledge_graph.py:103-105 | one copy of the target per `competes_with` edge; the result is non-empty exactly when such an edge exists |
| Queries.OutCompetitors | knowledge_graph.py:99-105 | the first loop of `get_competitors` lists exactly the successors reached by a `competes_with` edge |
| Queries.OutgoingCompetitorMultiplicity | knowledge_graph.py:99-105 | a target appears once per parallel `competes_with` edge, so duplicates are kept as in the source |
| Queries.AddIncoming | knowledge_graph.py:110-114 | an incoming competitor is appended only when it has a `competes_with` edge and is not yet listed |
| Queries.InCompetitors | knowledge_graph.py:107-114 | the second loop keeps the first loop's list as a prefix and adds, without duplicates, exactly the predecessors with a `competes_with` edge to the company |
| Queries.CompetitorsExact | knowledge_graph.py:95-116 | x is a competitor exactly when a `competes_with` edge joins the two in either direction |
| Queries.CompetitorsSymmetric | knowledge_graph.py:95-116 | every `competes_with` edge makes each endpoint a competitor of the other |
| Queries.CompetitorsShape | knowledge_graph.py:95-116 | the outgoing competitors come first; the rest are distinct, new, and compete only inwards |
| Queries.OfKind | knowledge_graph.py:124-126 | keeps exactly the listed nodes of the given entity type, in order, without creating duplicates |
| Queries.SharedMarketsExact | knowledge_graph.py:118-133 | a shared market is exactly a `market` node both companies have an edge to |
| Queries.SharedMarketsCommute | knowledge_graph.py:118-133 | the shared markets do not depend on the order of the two companies |
| Queries.CompanyProductsExact | knowledge_graph.py:135-143 | the products are exactly the `product` nodes the company has an edge to, without duplicates |
| Queries.NodeAttrs | knowledge_graph.py:152 | the attributes of a node of the graph |
| Queries.LeaderOf | knowledge_graph.py:151-156 | a leader entry carries the name, the `role` attribute (or `Unknown` when it is absent) and all attributes |
| Queries.Leaders | knowledge_graph.py:149-156 | exactly the listed `person` nodes, each with its leader entry |
| Queries.LeadershipExact | knowledge_graph.py:145-158 | the leadership is exactly the `person` nodes with an edge to the company |
| Queries.ThreatsExact | knowledge_graph.py:160-187 | an overlap is exactly a pair of the two companies' products with equal category, reported with that category |
| Queries.UncategorisedProductsOverlap | knowledge_graph.py:178-180 | two products without a category count as overlapping, since `None == None` |
| Queries.Incidents | knowledge_graph.py:226-231 | one relationship entry per edge, in order |
| Queries.OtherCopies | knowledge_graph.py:219-224 | the node is listed once for each edge that is not `competes_with` |
| Queries.KindListedExact | knowledge_graph.py:212-224 | the network's products (markets) are exactly the listed `product` (`market`) nodes reached by an edge that is not `competes_with` |
| Queries.NetworkContents | knowledge_graph.py:200-249 | the network lists one relationship per incident edge (the node's degree), the products and markets reached other than by `competes_with`, and the people with an edge to the company |
| Queries.NetworkCompetitorsBeginCompetitors | knowledge_graph.py:212-220 | the network's competitors are the outgoing part of `get_competitors` |
| Queries.Matching | knowledge_graph.py:256-259 | keeps exactly the listed nodes of the type whose attribute equals the value |
| Queries.QueryEntitiesExact | knowledge_graph.py:251-261 | the result is exactly the nodes of the type whose attribute equals the value, where an absent attribute equals `None` |
| Queries.MatchingKind | knowledge_graph.py:312-317 | counting nodes by `entity_type` equals the type filter used by the queries |
| Queries.ProductsIn | knowledge_graph.py:281-285 | keeps exactly the listed products that have an edge to the market, when it is a `market` node |
| Queries.Holdings | knowledge_graph.py:272-287 | exactly the listed `company` nodes, each with its products in the market |
| Queries.LandscapeExact | knowledge_graph.py:263-289 | the landscape lists exactly the companies with an edge to the market; a listed product is exactly one the company produces that has an edge to the market |
| Queries.ExportEdgesArePermutation | knowledge_graph.py:301-311 | the exported edges are a permutation of the graph's edges, and `total_edges` is their number |
| Queries.ExportNodesExact | knowledge_graph.py:291-319 | `ExportGraphData` (`export_graph_data`): every node is exported exactly once with its attributes, and `total_nodes` is their number; the edges and the type counts are stated by `ExportEdgesArePermutation` and `ExportStats` |
| Queries.ExportStats | knowledge_graph.py:309-318 | the company, product and market counts equal the sizes of the type queries and sum to at most `total_nodes` |
| Queries.ImportMakesRivals | knowledge_graph.py:581-588 | after `import_from_analysis` the two companies are each other's competitors |
| Queries.AddProductListed | knowledge_graph.py:49-63 | after an `add_product` that does not raise, the product is among the company's products |
| Queries.AddPersonLeads | knowledge_graph.py:76-93 | after an `add_person` that does not raise, the person appears in the company's leadership with the role |
| Summary.CompanyDegrees | knowledge_graph.py:617-618 | exactly the `company` nodes, in node order, each with its degree |
| Summary.Insert | knowledge_graph.py:619 | inserting one entry grows the list by one |
| Summary.InsertPermutation | knowledge_graph.py:619 | insertion loses and invents no entry |
| Summary.InsertSorted | knowledge_graph.py:619 | insertion keeps the list in descending degree order |
| Summary.SortDescSorted | knowledge_graph.py:619 | `sort(key=degree, reverse=True)` yields descending degrees |
| Summary.SortDescPermutation | knowledge_graph.py:619 | the sort is a permutation |
| Summary.SortDescStable | knowledge_graph.py:619 | the sort is stable: companies of equal degree keep their node order |
| Summary.InsertWithDegree | knowledge_graph.py:619 | insertion appends the new entry after the entries of equal degree |
| Summary.TopCompaniesBest | knowledge_graph.py:616-622 | the top list has min(5, companies) entries; it is the head of the stable descending sort; no company left out has a higher degree |
| Summary.InsertLast | knowledge_graph.py:619 | one insertion-sort step on the array leaves the insertion of the new element into the sorted prefix |
| Summary.SortByDegree | knowledge_graph.py:619 | the in-place array sort leaves exactly the stable descending sort of the old contents |
| Extraction.NonBlank | knowledge_graph.py:345 | every normalised line is non-empty and already stripped |
| Extraction.NormalizeLines | knowledge_graph.py:345 | `lines` holds only non-empty lines that are already stripped |
| Extraction.MarkerOf | knowledge_graph.py:351-352 | a line is a section marker exactly when its upper-cased form starts with that marker |
| Extraction.Step | knowledge_graph.py:348-362 | a marker line opens its section with empty content; any other line keeps the open section and the recorded sections, and is appended to the content when a section is open, and dropped otherwise |
| Extraction.Close | knowledge_graph.py:353-354 | a finished section is stored only when it has content, replacing any earlier block of the same section |
| Extraction.RunAppend | knowledge_graph.py:348-362 | the splitter loop over two concatenated line lists is the loop over the first, then the second |
| Extraction.LeadingLinesDropped | knowledge_graph.py:361 | lines before the first marker are discarded |
| Extraction.BlockCollected | knowledge_graph.py:360-362 | non-marker lines after a marker are collected in order |
| Extraction.LastBlockWins | knowledge_graph.py:353-366 | a repeated section keeps only its last non-empty block |
| Extraction.RecordedSections | knowledge_graph.py:340-366 | every recorded section has content, and every content line is an input line that is not a marker |
| Extraction.KeyValue | knowledge_graph.py:393-395 | a piece is read as a pair exactly when it contains `=` |
| Extraction.StrictPairs | knowledge_graph.py:386-388 | a reference reading of text made only of `key=value` pieces: it succeeds exactly when every piece contains `=` |
| Extraction.StrictAgreesWithLoose | knowledge_graph.py:391-397 | when every piece is a pair, the fallback loop reads exactly those pairs |
| Extraction.LooseKeepsDescription | knowledge_graph.py:396-397 | when some piece is not a pair, the fallback loop records a `description` |
| Extraction.CompanyAttrsFallback | knowledge_graph.py:386-397 | when `eval` fails: the fallback reads all pairs if every piece is a pair, and otherwise records a `description` |
| Extraction.MarketAttrs | knowledge_graph.py:466-469 | a market's attributes are what `eval` reads from the braced stripped text, or else a lone `description` holding that stripped text |
| Extraction.FirstMentioned | knowledge_graph.py:441-444 | the first candidate, in order, whose lower-cased name occurs in the lower-cased text; none when no candidate does |
| Extraction.InferenceOrder | knowledge_graph.py:438-444 | when both companies are mentioned: a product goes to the competitor (the text needs at least two words), and a person goes to the user company |
| Extraction.ProductOwner | knowledge_graph.py:438-444 | an explicit non-empty `company` is never overridden; an inferred owner is the competitor or the user company, and only when the text has at least two words |
| Extraction.InferredOwner | knowledge_graph.py:526-530 | for `ProductOwner` and `PersonOwner`, an inferred owner is one of the two companies and is mentioned in the text, or there is no owner |
| Extraction.PersonOwner | knowledge_graph.py:525-530 | an explicit non-empty `company` is never overridden; an inferred owner is the user company or the competitor |
| Extraction.ParsePiece | knowledge_graph.py:426-436 | a piece without `=` is plain text, kept stripped |
| Extraction.ParsePieces | knowledge_graph.py:425 | one parsed piece per comma piece |
| Extraction.ProductStep | knowledge_graph.py:427-436 | a piece sets either the owner or an attribute, never both |
| Extraction.ProductPieces | knowledge_graph.py:425-436 | `company` is never stored as a product attribute |
| Extraction.PersonStep | knowledge_graph.py:515-523 | a piece sets either the company or the role, never both |
| Extraction.ProductStepPicks | knowledge_graph.py:427-436 | one product piece overrides the owner or exactly one attribute |
| Extraction.PersonStepPicks | knowledge_graph.py:515-523 | a `company` piece sets the company; a `role`, `position` or `title` piece sets the role |
| Extraction.ProductFieldsLastWins | knowledge_graph.py:425-436 | after the product loop, the owner and each attribute hold the last piece that gives them |
| Extraction.PersonFieldsLastWins | knowledge_graph.py:513-524 | after the person loop, the company and the role hold the last piece that gives them |
| Extraction.Bullet | knowledge_graph.py:374-378 | a line is an entry exactly when it starts with `- ` |
| Extraction.Labelled | knowledge_graph.py:410-418 | a product, market or person entry needs `- ` and a `:` after it |
| Extraction.ReadCompany | knowledge_graph.py:374-397 | only bullet lines yield a company entry |
| Extraction.CompanyLine | knowledge_graph.py:399-401 | processing a company line preserves the store invariant |
| Extraction.ReadProduct | knowledge_graph.py:410-444 | only bullet lines yield a product, and its attributes never hold `company` |
| Extraction.ProductLine | knowledge_graph.py:446-447 | processing a product line preserves the store invariant |
| Extraction.LinkCompanies | knowledge_graph.py:481-483 | linking listed companies to a market preserves the store invariant |
| Extraction.CompanyNames | knowledge_graph.py:480 | the listed companies are the stripped comma pieces |
| Extraction.ReadMarket | knowledge_graph.py:456-470 | only bullet lines yield a market entry |
| Extraction.ApplyMarket | knowledge_graph.py:472-487 | applying a market entry preserves the store invariant |
| Extraction.MarketLine | knowledge_graph.py:453-490 | processing a market line preserves the store invariant |
| Extraction.ReadPerson | knowledge_graph.py:496-530 | only bullet lines yield a person entry |
| Extraction.PersonLine | knowledge_graph.py:532-533 | processing a person line preserves the store invariant |
| Extraction.ArrowOf | knowledge_graph.py:546-558 | a relationship is read only from text with `->` that splits into at least three parts |
| Extraction.ArrowAttrs | knowledge_graph.py:562-564 | a `description` attribute is stored exactly when the description is non-empty |
| Extraction.ReadArrow | knowledge_graph.py:542-558 | only bullet lines yield a relationship |
| Extraction.ApplyArrow | knowledge_graph.py:560-566 | adding a parsed relationship preserves the store invariant |
| Extraction.RelationshipLine | knowledge_graph.py:539-569 | processing a relationship line preserves the store invariant |
| Extraction.CompanyLines | knowledge_graph.py:371-404 | the companies section preserves the store invariant |
| Extraction.ProductLines | knowledge_graph.py:407-450 | the products section preserves the store invariant |
| Extraction.MarketLines | knowledge_graph.py:453-490 | the markets section preserves the store invariant |
| Extraction.PersonLines | knowledge_graph.py:493-536 | the people section preserves the store invariant |
| Extraction.RelationshipLines | knowledge_graph.py:539-569 | the relationships section preserves the store invariant |
| Extraction.Bootstrap | knowledge_graph.py:331-337 | adding the two anchor companies preserves the store invariant |
| Extraction.Parse | knowledge_graph.py:321-573 | the whole parse preserves the store invariant |
| Extraction.BootstrapEffect | knowledge_graph.py:331-337 | both companies become nodes; nothing changes when both exist; a new competitor brings exactly one `competes_with` edge from the user company; existing nodes keep their attributes |
| Extraction.NonBulletIgnored | knowledge_graph.py:374-375 | a line not starting with `- ` changes nothing in any section |
| Extraction.CompanyLineEffect | knowledge_graph.py:371-404 | a company line adds no edge; when it changes the state, it appends one new `company` node that was absent |
| Extraction.LinkCompaniesEffect | knowledge_graph.py:477-483 | listed companies only gain `operates_in` edges to the market; no node changes |
| Extraction.MarketDefaultLinks | knowledge_graph.py:472-487 | a market without `companies` gets exactly two `operates_in` edges, from the user company and then the competitor, unless adding the new market raises, in which case the line changes nothing |
| Extraction.MarketLineEffect | knowledge_graph.py:453-490 | a market line only grows the state and keeps existing nodes' attributes |
| Extraction.CompanyLineAdds | knowledge_graph.py:371-404 | a company line whose company is not yet a node and whose attributes `add_node` accepts makes it a `company` node carrying every attribute read from the line; an unreadable line, an existing company or a raising call leaves the store unchanged |
| Extraction.ProductLineEffect | knowledge_graph.py:407-450 | a product line with an owner, given or inferred, whose attributes `add_node` accepts makes a `product` node carrying the line's attributes and appends exactly one `produces` edge from the owner to the product, with its history record; no entry, no owner or a raising call leaves the store unchanged |
| Extraction.PersonLineEffect | knowledge_graph.py:493-536 | a person line with an employer, given or inferred, makes a `person` node holding the role read from the line and appends exactly one `works_at` edge from the person to the employer carrying that role, with its history record; no entry or no employer leaves the store unchanged |
| Extraction.ProductLineExtends | knowledge_graph.py:407-450 | a product line only grows the state |
| Extraction.PersonLineExtends | knowledge_graph.py:493-536 | a person line only grows the state |
| Extraction.ApplyArrowEffect | knowledge_graph.py:560-566 | a relationship is added only between existing nodes, as one edge of the parsed type, with a description exactly when one was given |
| Extraction.RelationshipLineEffect | knowledge_graph.py:539-569 | a relationship line never adds or changes a node |
| Extraction.CompanyLinesEffect | knowledge_graph.py:371-404 | the companies section adds no edge and changes no existing node |
| Extraction.ProductLinesExtends | knowledge_graph.py:407-450 | the products section only grows the state |
| Extraction.MarketLinesEffect | knowledge_graph.py:453-490 | the markets section only grows the state and changes no existing node |
| Extraction.PersonLinesExtends | knowledge_graph.py:493-536 | the people section only grows the state |
| Extraction.RelationshipLinesEffect | knowledge_graph.py:539-569 | the relationships section never adds or changes a node |
| Extraction.ParseExtends | knowledge_graph.py:321-573 | parsing only grows the state and always leaves both companies as nodes |
| KnowledgeGraph.CompetitiveKnowledgeGraph.constructor | knowledge_graph.py:13-16 | a valid, empty knowledge graph |
| KnowledgeGraph.CompetitiveKnowledgeGraph.AddCompany | knowledge_graph.py:18-28 | updates the fields in place to exactly `GraphStore.AddCompany` of the old state, keeping it valid; `raised` exactly when an attribute is named `self` or `node_for_adding` |
| KnowledgeGraph.CompetitiveKnowledgeGraph.AddRelationship | knowledge_graph.py:30-47 | updates the fields in place to exactly `GraphStore.AddRelationship` of the old state, keeping it valid; `raised` exactly when an attribute is named `self`, `u_for_edge` or `v_for_edge` |
| KnowledgeGraph.CompetitiveKnowledgeGraph.AddProduct | knowledge_graph.py:49-63 | updates the fields in place to exactly `GraphStore.AddProduct` of the old state, keeping it valid; `raised` exactly when an attribute is named `self` or `node_for_adding` |
| KnowledgeGraph.CompetitiveKnowledgeGraph.AddMarket | knowledge_graph.py:65-74 | updates the fields in place to exactly `GraphStore.AddMarket` of the old state, keeping it valid; `raised` exactly when an attribute is named `self` or `node_for_adding` |
| KnowledgeGraph.CompetitiveKnowledgeGraph.AddPerson | knowledge_graph.py:76-93 | updates the fields in place to exactly `GraphStore.AddPerson` of the old state, keeping it valid; `raised` exactly when an attribute is named `self` or `node_for_adding` |
| KnowledgeGraph.CompetitiveKnowledgeGraph.ImportFromAnalysis | knowledge_graph.py:575-588 | updates the fields in place to exactly `GraphStore.ImportFromAnalysis` of the old state, keeping it valid |
| KnowledgeGraph.CompetitiveKnowledgeGraph.GetCompetitors | knowledge_graph.py:95-116 | the two loops return `Queries.Competitors`, characterised by `Queries.CompetitorsExact` |
| KnowledgeGraph.CompetitiveKnowledgeGraph.OutgoingCompetitors | knowledge_graph.py:99-105 | the loop over successors returns `Queries.OutCompetitors` |
| KnowledgeGraph.CompetitiveKnowledgeGraph.IncomingCompetitors | knowledge_graph.py:107-114 | the loop over predecessors returns `Queries.InCompetitors` |
| KnowledgeGraph.CompetitiveKnowledgeGraph.SuccessorsOfKind | knowledge_graph.py:139-142 | the loop returns the successors of the given entity type |
| KnowledgeGraph.CompetitiveKnowledgeGraph.MarketSet | knowledge_graph.py:123-131 | the loop returns the set of markets a company has an edge to |
| KnowledgeGraph.CompetitiveKnowledgeGraph.GetSharedMarkets | knowledge_graph.py:118-133 | returns `Queries.SharedMarkets`, characterised by `Queries.SharedMarketsExact` |
| KnowledgeGraph.CompetitiveKnowledgeGraph.GetCompanyProducts | knowledge_graph.py:135-143 | returns `Queries.CompanyProducts`, characterised by `Queries.CompanyProductsExact` |
| KnowledgeGraph.CompetitiveKnowledgeGraph.GetCompanyLeadership | knowledge_graph.py:145-158 | the loop returns `Queries.Leadership`, characterised by `Queries.LeadershipExact` |
| KnowledgeGraph.CompetitiveKnowledgeGraph.OverlapsWith | knowledge_graph.py:175-186 | the inner loop collects the overlaps of one user product with every competitor product |
| KnowledgeGraph.CompetitiveKnowledgeGraph.AllOverlaps | knowledge_graph.py:174-186 | the nested loops collect every overlapping pair |
| KnowledgeGraph.CompetitiveKnowledgeGraph.FindCompetitiveThreats | knowledge_graph.py:160-187 | returns `Queries.Threats`, characterised by `Queries.ThreatsExact` |
| KnowledgeGraph.CompetitiveKnowledgeGraph.GetRelationshipPath | knowledge_graph.py:189-198 | returns `SimplePaths.AllSimplePaths`: sound and complete for simple paths within the cutoff |
| KnowledgeGraph.CompetitiveKnowledgeGraph.GetCompanyNetwork | knowledge_graph.py:200-249 | returns `Queries.CompanyNetwork`, characterised by `Queries.NetworkContents` |
| KnowledgeGraph.CompetitiveKnowledgeGraph.OutgoingNetwork | knowledge_graph.py:212-231 | the successor loop returns the competitors, products, markets and outgoing relationships of the network |
| KnowledgeGraph.CompetitiveKnowledgeGraph.IncomingNetwork | knowledge_graph.py:234-247 | the predecessor loop returns the leadership names and incoming relationships of the network |
| KnowledgeGraph.CompetitiveKnowledgeGraph.QueryEntitiesByAttribute | knowledge_graph.py:251-261 | the loop returns `Queries.QueryEntities`, characterised by `Queries.QueryEntitiesExact` |
| KnowledgeGraph.CompetitiveKnowledgeGraph.GetMarketLandscape | knowledge_graph.py:263-289 | the loop returns `Queries.MarketLandscape`, characterised by `Queries.LandscapeExact` |
| KnowledgeGraph.CompetitiveKnowledgeGraph.ProductsInMarket | knowledge_graph.py:281-285 | the loop returns the company's products that have an edge to the market |
| KnowledgeGraph.CompetitiveKnowledgeGraph.TopCompanies | knowledge_graph.py:616-622 | returns `Summary.TopCompanies`, characterised by `Summary.TopCompaniesBest` |
| KnowledgeGraph.CompetitiveKnowledgeGraph.CompanyDegreeList | knowledge_graph.py:617-618 | the loop returns the companies with their degrees, in node order |
| KnowledgeGraph.CompetitiveKnowledgeGraph.ParseEntityExtraction | knowledge_graph.py:321-573 | updates the fields in place to exactly `Extraction.Parse` of the old state, keeping it valid |
| KnowledgeGraph.CompetitiveKnowledgeGraph.AddAnchors | knowledge_graph.py:331-337 | adds the two anchor companies as `Extraction.Bootstrap` does |
| KnowledgeGraph.CompetitiveKnowledgeGraph.ProcessCompanies | knowledge_graph.py:371-404 | the companies loop leaves `Extraction.CompanyLines` of the old state |
| KnowledgeGraph.CompetitiveKnowledgeGraph.ProcessProducts | knowledge_graph.py:407-450 | the products loop leaves `Extraction.ProductLines` of the old state |
| KnowledgeGraph.CompetitiveKnowledgeGraph.ProcessMarkets | knowledge_graph.py:453-490 | the markets loop leaves `Extraction.MarketLines` of the old state |
| KnowledgeGraph.CompetitiveKnowledgeGraph.ProcessPeople | knowledge_graph.py:493-536 | the people loop leaves `Extraction.PersonLines` of the old state |
| KnowledgeGraph.CompetitiveKnowledgeGraph.ProcessRelationships | knowledge_graph.py:539-569 | the relationships loop leaves `Extraction.RelationshipLines` of the old state |
| KnowledgeGraph.CompetitiveKnowledgeGraph.ProcessCompanyLine | knowledge_graph.py:373-404 | one company line leaves `Extraction.CompanyLine` of the old state |
| KnowledgeGraph.CompetitiveKnowledgeGraph.ProcessProductLine | knowledge_graph.py:409-450 | one product line leaves `Extraction.ProductLine` of the old state |
| KnowledgeGraph.CompetitiveKnowledgeGraph.ProcessMarketLine | knowledge_graph.py:455-490 | one market line leaves `Extraction.MarketLine` of the old state |
| KnowledgeGraph.CompetitiveKnowledgeGraph.ApplyMarketEntry | knowledge_graph.py:472-487 | adding a market and its company links leaves `Extraction.ApplyMarket` of the old state, which skips the links when `add_market` raises |
| KnowledgeGraph.CompetitiveKnowledgeGraph.LinkListedCompanies | knowledge_graph.py:477-483 | the loop over listed companies leaves `Extraction.LinkCompanies` of the old state |
| KnowledgeGraph.CompetitiveKnowledgeGraph.ProcessPersonLine | knowledge_graph.py:495-536 | one person line leaves `Extraction.PersonLine` of the old state |
| KnowledgeGraph.CompetitiveKnowledgeGraph.ProcessRelationshipLine | knowledge_graph.py:541-569 | one relationship line leaves `Extraction.RelationshipLine` of the old state |
| KnowledgeGraph.ReadCompanyLine | knowledge_graph.py:374-397 | reads a company line as `Extraction.ReadCompany` does |
| KnowledgeGraph.ReadProductLine | knowledge_graph.py:410-444 | reads a product line as `Extraction.ReadProduct` does |
| KnowledgeGraph.ReadPersonLine | knowledge_graph.py:496-530 | reads a person line as `Extraction.ReadPerson` does |
| KnowledgeGraph.SplitIntoSections | knowledge_graph.py:340-366 | the splitter loop returns `Extraction.SplitSections`, characterised by `Extraction.RecordedSections` and `Extraction.LastBlockWins` |
| KnowledgeGraph.ReadCompanyAttrs | knowledge_graph.py:385-397 | takes the evaluated dictionary, or else the fallback loop, as `Extraction.CompanyAttrs` does |
| KnowledgeGraph.ReadLoosePairs | knowledge_graph.py:391-397 | the fallback loop returns `Extraction.LoosePairs`, characterised by `Extraction.CompanyAttrsFallback` |
| KnowledgeGraph.ReadProductFields | knowledge_graph.py:425-436 | the attribute loop returns the fold characterised by `Extraction.ProductFieldsLastWins` |
| KnowledgeGraph.ApplyProductPiece | knowledge_graph.py:426-436 | one loop step is `Extraction.ProductStep` |
| KnowledgeGraph.ReadPersonFields | knowledge_graph.py:513-524 | the attribute loop returns the fold characterised by `Extraction.PersonFieldsLastWins` |
| KnowledgeGraph.ApplyPersonPiece | knowledge_graph.py:515-523 | one loop step is `Extraction.PersonStep` |
| KnowledgeGraph.AppendCompeting | knowledge_graph.py:103-105 | the inner loop appends one copy of the target per `competes_with` edge |
| KnowledgeGraph.AppendIncoming | knowledge_graph.py:110-114 | the inner loop appends the source once when it has a `competes_with` edge and is not listed yet |
| KnowledgeGraph.VisitEdges | knowledge_graph.py:216-231 | the loop over one neighbour's edges sorts each edge into competitors, products or markets and records it as a relationship |
| KnowledgeGraph.SortEdge | knowledge_graph.py:217-224 | one edge goes to competitors when it is `competes_with`, and otherwise to products or markets by the neighbour's type |
| KnowledgeGraph.IncidentList | knowledge_graph.py:241-247 | the loop records one incoming relationship per edge, in order |
| KnowledgeGraph.AppendEach | knowledge_graph.py:194-195 | the loop over the path generator collects every path, in order |
| KnowledgeGraph.MatchNode | knowledge_graph.py:256-259 | one loop step of the attribute query adds the node exactly when its type and attribute match |
| KnowledgeGraph.LeaderNames | knowledge_graph.py:237-238 | the network's leadership names are the names of `get_company_leadership`'s entries |

## Left out

- `visualize_graph` is left out. It draws with plotly and networkx layouts, so it is presentation, not graph logic.
- The markdown text of `get_graph_summary` is left out, as are the printed messages and the `except` logging in `parse_entity_extraction`. Only the ranking of companies by degree is modelled.
- The outer `try`/`raise` of `parse_entity_extraction` is not modelled. The only errors the model raises are the networkx `TypeError`s for reserved attribute names. Inside the parser, the per-line `except` catches them, so the line is skipped.
- `GraphStore.AddRelationship` and `KnowledgeGraph.CompetitiveKnowledgeGraph.AddRelationship` require that no attribute is named `key`. networkx would take such an attribute as the edge key, not as edge data. A new key adds a keyed edge. A key the pair already has updates that edge's data in place, yet the history still gains a record. Edge keys are not modelled. The parser and the other mutators never pass `key`.
- The keyword loop at the end of `import_from_analysis` is left out because its body is `pass`, so it changes nothing. `analysis_text` is therefore not a parameter of the model.
- Each public call reads the clock once, as `now`. In the source, `add_product`, `add_person` and the parser call `datetime.now()` several times, so their timestamps may differ by microseconds.
- The Python code run by `eval` is not modelled; `eval` is the `Evaluator` parameter. The model assumes its results are dictionaries from strings to strings. The source's `isinstance(companies, str)` test therefore always takes its string branch, and `companies` given as a list is not modelled.
- `Strings.Lower` and `Strings.Upper` change ASCII letters only. The Unicode case mappings of Python's `lower`/`upper` are not modelled.
- `Queries.SharedMarkets` and the threat overlaps are Dafny sets. The source returns `list(set)` (for shared markets) and sets, whose order is hash order.
- The attributes dictionary the caller passes to a mutator is modelled as a value. The source mutates and stores that same dict object, so later changes through an alias are not modelled.
- When a networkx query is given a node that is not in the graph, networkx raises an error. The model makes the node's presence a precondition of each such query instead: `get_competitors`, `get_shared_markets`, `get_company_products`, `get_company_leadership`, `find_competitive_threats`, `get_company_network` and `get_market_landscape`.
- `KnowledgeGraph.CompetitiveKnowledgeGraph.GetRelationshipPath` returns no path when the target is not a node. networkx would treat an absent target string as a collection of target nodes.
- `SimplePaths.AllSimplePaths` returns no path when `source == target`. This is the behaviour of networkx before version 3.3; later versions yield the one-node path `[source]`.
- `get_company_network`'s `depth` parameter is accepted and unused, as in the source.
- `Summary.SortByDegree` is a stable insertion sort. Python's list sort is Timsort, but both are stable, so they produce the same order.
- The marker loop (`for marker in section_markers`) and the owner-inference loops are written as functions (`Extraction.MarkerOf`, `Extraction.FirstMentioned`). Each loop stops at its first hit, so it computes a value and updates no state.
- `Strings.Words` (the word count of `split()`) has no contract of its own. It is used only through `Extraction.InferenceOrder`.
- `Summary.TopCompanies` is stated through `Summary.TopCompaniesBest`. The returned names are not printed, because the summary text is left out.
