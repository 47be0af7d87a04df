# StellarGraph type schema, in Dafny

This project models the type-schema core of `stellar/data/stellargraph.py` and proves what that code promises. The core has four parts.

- **The schema builder.** `StellarGraphBase.create_graph_schema` runs over an abstract heterogeneous multigraph, described by:
  - the type label of each node;
  - the edges as `(source, target, relation)`, in enumeration order;
  - whether the graph is directed.

  It derives the sorted node types and the sorted `EdgeType(n1, rel, n2)` triples. An undirected graph also registers the reverse triple. It then builds the per-source-type adjacency `schema` and, optionally, the node and edge type maps. The edge type map the model builds is the corrected one, keyed by each edge's own endpoint pair. The source's map, keyed by a leftover loop variable, is modelled separately; see "## Findings".
- **The schema lookups of `GraphSchema`.**
  - `node_key_to_index` and `node_index_to_key`;
  - `edge_key_to_index` and `edge_index_to_key`;
  - `get_node_type`;
  - `get_edge_type`, which falls back to the reversed key;
  - `get_edge_types`.

  Where the source catches an exception and prints a warning, the model returns `None`, or `[]` for `get_edge_types`.
- **The sampling tree.** `get_sampling_tree` is a recursion to a fixed depth. It builds nested `(id, edge type, children)` nodes whose string ids spell out their positions.
- **The type adjacency list.** `get_type_adjacency_list` is an imperative breadth-first build. Entries come off a FIFO queue, new entries are appended to a flat list, and each child's index is written into its parent's entry.

Both sampling structures are proved against one reference definition, `TypePaths.Expansion`. For a node type, it gives the tree of outgoing edge types down to a number of hops. The sampling tree has exactly this shape, and so does the adjacency list read from each head. The schema builder is proved against `SchemaBuilder.IsSchemaOf`, which states everything the built schema satisfies. `IsSchemaOf` determines the schema uniquely.

Modules, in dependency order:

| module | file | contents |
|---|---|---|
| `Wrappers` | wrappers.dfy | `Option` |
| `Ordering` | ordering.dfy | strict orders, `sorted(set)`, `list.index` |
| `EdgeTypes` | edgetypes.dfy | labels and `EdgeType`, ordered as Python orders str and tuples |
| `TypePaths` | typepaths.dfy | the reference type expansion |
| `Decimal` | decimal.dfy | `str` of a non-negative int |
| `Schema` | schema.dfy | `GraphSchema` and its lookups |
| `SchemaBuilder` | builder.dfy | `create_graph_schema` |
| `SamplingTree` | samplingtree.dfy | `get_sampling_tree` |
| `AdjacencyList` | adjacency.dfy | `get_type_adjacency_list` |
| `AdjacencyLayout` | adjacencylayout.dfy | the breadth-first layout of its result, and its uniqueness |

## Model

| member | source | states |
|---|---|---|
| `EdgeTypes.LabelOrder` | stellar/data/stellargraph.py:291-293 | Python's order on type labels, which `sorted` uses, is a strict total order |
| `EdgeTypes.EdgeTypeOrder` | stellar/data/stellargraph.py:24 | `EdgeType` namedtuples, compared field by field, form a strict total order |
| `Ordering.SortedSet` | stellar/data/stellargraph.py:319 | `sorted(set)` returns a strictly ascending list holding exactly the set's members, each once |
| `Ordering.SortedUnique` | stellar/data/stellargraph.py:319 | two strictly sorted lists with the same members are equal, so the sorted type lists are determined by the graph |
| `Ordering.IndexOf` | stellar/data/stellargraph.py:36 | `list.index` finds `x` exactly when `x` is in the list, returns a position holding `x`, and returns the first such position |
| `Ordering.IndexOfDistinct` | stellar/data/stellargraph.py:36 | in a duplicate-free list, the index of the element at position `i` is `i` |
| `Schema.PyIndex` | stellar/data/stellargraph.py:44 | Python indexing succeeds exactly for `-len <= index < len`; otherwise IndexError is turned into None |
| `Schema.NodeKeyToIndex` | stellar/data/stellargraph.py:34-40 | answers exactly for known node types, with a position that holds the key; None for an unknown key |
| `Schema.NodeIndexToKey` | stellar/data/stellargraph.py:42-48 | answers exactly for indices in `-len..len-1`, with a listed node type; None otherwise |
| `Schema.EdgeKeyToIndex` | stellar/data/stellargraph.py:50-56 | answers exactly for known edge types, with a position that holds the triple |
| `Schema.EdgeIndexToKey` | stellar/data/stellargraph.py:58-64 | answers exactly for indices in `-len..len-1`, with a listed triple |
| `Schema.NodeKeyRoundTrip` | stellar/data/stellargraph.py:34-48 | key to index to key returns every known node type; an unknown one has no index |
| `Schema.NodeIndexRoundTrip` | stellar/data/stellargraph.py:34-48 | index to key to index returns every in-range index of a consistent schema |
| `Schema.EdgeKeyRoundTrip` | stellar/data/stellargraph.py:50-64 | key to index to key returns every known edge type; an unknown one has no index |
| `Schema.EdgeIndexRoundTrip` | stellar/data/stellargraph.py:50-64 | index to key to index returns every in-range edge index of a consistent schema |
| `Schema.NegativeIndexWraps` | stellar/data/stellargraph.py:42-64 | a negative index reads the same entry as that index plus the length, separately for node types (down to `-len(node_types)`) and edge types (down to `-len(edge_types)`) |
| `Schema.GetNodeType` | stellar/data/stellargraph.py:74-92 | corrected `get_node_type`: None without a map, for an unmapped node, or when the stored index is out of range; otherwise the index, or the label at that index |
| `Schema.NodeTypeAnswersAgree` | stellar/data/stellargraph.py:74-92 | in a consistent schema, the name answer converts back to the index answer |
| `Schema.GetNodeTypeAsWritten` | stellar/data/stellargraph.py:85-87 | `get_node_type` as written: answers exactly for a mapped node (and, for the name answer, a non-empty type list); the index answer is the stored index, the name answer is always `node_types[0]` |
| `Schema.StoredEdgeIndex` | stellar/data/stellargraph.py:106-110 | the stored index of the edge as given, or else of its reverse; None when neither key is present |
| `Schema.GetEdgeType` | stellar/data/stellargraph.py:94-116 | `get_edge_type`: answers exactly when a stored index exists (and is in range for the triple answer), with that index or the triple at it |
| `Schema.EdgeLookupReversedHit` | stellar/data/stellargraph.py:107-111 | when only the reversed key is stored, both orientations give the same non-None answer |
| `Schema.GetEdgeTypes` | stellar/data/stellargraph.py:118-132 | an unknown node type gives `[]` |
| `Schema.GetEdgeTypesIsFromSource` | stellar/data/stellargraph.py:118-132 | in a consistent schema, `get_edge_types(nt)` is the sorted sublist of edge types with source `nt`, for known and unknown `nt` alike |
| `Schema.FromSource` | stellar/data/stellargraph.py:322-328 | filtering edge types by source type keeps exactly the members with that source, and keeps them sorted |
| `Schema.ValidIsClosed` | stellar/data/stellargraph.py:322-328 | in a consistent schema, every listed edge type leads to a node type that has its own schema entry |
| `Schema.ClosedExpandable` | stellar/data/stellargraph.py:163 | over a closed schema, the expansion of a known type never looks up a missing key, at any depth |
| `Schema.ValidSchemaExpandable` | stellar/data/stellargraph.py:163 | in a consistent schema, every known node type expands to any depth without KeyError |
| `TypePaths.SubtreesAreExpansions` | stellar/data/stellargraph.py:153-165 | the subtree at depth `k` of an expansion to `n` hops is the expansion of its own type to `n - k` hops |
| `TypePaths.LeafDepth` | stellar/data/stellargraph.py:154-155 | a node of the expansion has no children exactly when it is `n` hops down or its type has no outgoing edge types |
| `Decimal.NatToString` | stellar/data/stellargraph.py:170 | `str(n)` is a non-empty string of digits, one digit long exactly below 10; `Decimal.NatToStringValue` states which digits |
| `Decimal.NatToStringValue` | stellar/data/stellargraph.py:170 | `str(n)` spells `n`: its digits, most significant first, have the value `n`, and it starts with `0` only for `n == 0`, so it has no leading zeros |
| `Decimal.NatToStringInjective` | stellar/data/stellargraph.py:170 | different numbers print differently |
| `SchemaBuilder.TriplesOfSnoc` | stellar/data/stellargraph.py:308-316 | one more edge adds its forward triple, and in an undirected graph its reverse triple, to the registered triples |
| `SchemaBuilder.RegisterKeepsBuckets` | stellar/data/stellargraph.py:308-316 | adding a triple to the set and to its source type's bucket keeps every bucket equal to the registered triples with that source |
| `SchemaBuilder.RegisterEdgeTypes` | stellar/data/stellargraph.py:294-316 | the edge loop registers exactly the forward triples of all edges (plus the reverse ones when undirected), with one bucket per node type holding the triples with that source |
| `SchemaBuilder.InIndexOrder` | stellar/data/stellargraph.py:323-326 | ordering a bucket by index into the edge types keeps exactly the bucket's members, in sorted order |
| `SchemaBuilder.AdjacencyIsFromSource` | stellar/data/stellargraph.py:322-328 | ordering a node type's bucket by edge-type index gives the sublist of edge types with that source |
| `SchemaBuilder.OrderBuckets` | stellar/data/stellargraph.py:322-328 | the `schema` comprehension has one key per bucket, each listing the edge types with that source in sorted order |
| `SchemaBuilder.NodeTypeMap` | stellar/data/stellargraph.py:340-343 | the node type map has every node as a key, and maps it to an index whose node type is the node's label |
| `SchemaBuilder.MappedTripleIsForward` | stellar/data/stellargraph.py:345-350 | the triple rebuilt through the node type map is the edge's forward triple |
| `SchemaBuilder.TriplesResolve` | stellar/data/stellargraph.py:344-353 | for the built node and edge types, every edge's rebuilt triple is an edge type, so `edge_types.index` never raises |
| `SchemaBuilder.EdgeTypeMap` | stellar/data/stellargraph.py:344-353 | corrected edge type map: its keys are the endpoint pairs of the edges, each index is in range, and each pair maps to the triple of the last edge with that pair |
| `SchemaBuilder.EdgeTypeMapSnoc` | stellar/data/stellargraph.py:344-353 | entering one more edge makes that edge win for its pair and leaves every other pair's answer unchanged |
| `SchemaBuilder.EdgeTypeMapAsWritten` | stellar/data/stellargraph.py:344-353 | the edge type map as written has exactly one key, the last edge's pair, holding the last edge's triple (none without edges) |
| `SchemaBuilder.CreateGraphSchema` | stellar/data/stellargraph.py:284-358 | the returned schema satisfies `IsSchemaOf`: node types sorted and exactly the node labels; edge types sorted and exactly the registered triples; one schema entry per node type, listing its outgoing edge types in order; when asked for, the node type map and the corrected edge type map (keyed by each edge's own pair, not by the leftover `e` of line 298), None otherwise |
| `SchemaBuilder.BuiltSchemaValid` | stellar/data/stellargraph.py:284-358 | a built schema is consistent: edge types join listed node types, and the schema keys are the node types |
| `SchemaBuilder.SchemaDeterministic` | stellar/data/stellargraph.py:284-358 | two schemas satisfying `IsSchemaOf` for the same graph and flag are equal |
| `SchemaBuilder.EdgesCovered` | stellar/data/stellargraph.py:308-316 | every edge's forward triple is an edge type listed under its source node's type, and so is its reverse triple under the target's type when undirected |
| `SchemaBuilder.EdgeTypesFromEdges` | stellar/data/stellargraph.py:308-316 | every edge type is the forward triple of an edge, or (undirected only) its reverse triple |
| `SchemaBuilder.UndirectedSymmetric` | stellar/data/stellargraph.py:312-316 | in an undirected graph a triple is an edge type exactly when its reversal is |
| `SchemaBuilder.NodeTypeMapAnswers` | stellar/data/stellargraph.py:340-343 | the corrected `get_node_type` answers every node with its own label, and its index answer points at that label |
| `SchemaBuilder.EdgeTypeMapAnswers` | stellar/data/stellargraph.py:344-353 | `get_edge_type` over the corrected map answers each edge that is last with its pair with that edge's forward triple |
| `SchemaBuilder.NoTypeMaps` | stellar/data/stellargraph.py:339 | without type maps every node and edge type lookup answers None |
| `SchemaBuilder.WithEdgeMapAsWritten` | stellar/data/stellargraph.py:344-356 | the built schema with the as-written edge map holds just the last edge's pair |
| `SchemaBuilder.SingleKeyMisses` | stellar/data/stellargraph.py:106-116 | a map holding one key answers None for an edge that matches that key in neither orientation |
| `SchemaBuilder.EdgeMapAsWrittenLosesEdges` | stellar/data/stellargraph.py:344-353 | with the map as written, an edge whose pair is not the last edge's (in either orientation) gets None, where the corrected map gives its triple |
| `SchemaBuilder.LostEdgeExample` | stellar/data/stellargraph.py:344-353 | on edges `1 -r-> 2`, `3 -s-> 2`, the as-written map answers None for `(1, 2)`, while the corrected one answers `(A, r, B)` |
| `SchemaBuilder.NodeTypeAsWrittenWrong` | stellar/data/stellargraph.py:87 | as written, every mapped node's name answer is `node_types[0]`; corrected, it is the node's own label |
| `SchemaBuilder.WrongNodeTypeExample` | stellar/data/stellargraph.py:87 | with nodes of types A and B, the as-written lookup calls the B node an A |
| `SamplingTree.GenKey` | stellar/data/stellargraph.py:150-151 | `gen_key(key, ii)` extends `key` |
| `SamplingTree.NeighborTypes` | stellar/data/stellargraph.py:153-165 | level 0 gives no nodes; otherwise one node per outgoing edge type |
| `SamplingTree.GetSamplingTree` | stellar/data/stellargraph.py:168-176 | one root per head type, in order, each carrying its head type |
| `SamplingTree.NeighborShape` | stellar/data/stellargraph.py:153-165 | the nodes of one level are the children of the type expansion, one for one |
| `SamplingTree.ChildrenFollowSchema` | stellar/data/stellargraph.py:153-165 | a node at depth `k` has no children when `k` is the level count; otherwise it has one child per outgoing edge type of its type, carrying those edge types in schema order |
| `SamplingTree.SamplingTreeShape` | stellar/data/stellargraph.py:168-176 | root `jj` has the shape of the expansion of head type `jj`; its children carry the head type's edge types in schema order |
| `SamplingTree.SamplingTreeDefined` | stellar/data/stellargraph.py:163 | over a consistent schema with known head types, the tree exists for any number of hops |
| `SamplingTree.NodeAtStep` | stellar/data/stellargraph.py:159-161 | the children of node `ii` are the next level, built with prefix `key + str(ii) + "_"` |
| `SamplingTree.NeighborIds` | stellar/data/stellargraph.py:159-161 | the node at path `p` below a level with prefix `key` has id `key` followed by `p`'s indices joined by `_` |
| `SamplingTree.SamplingIdsEncodePositions` | stellar/data/stellargraph.py:168-175 | root `jj` has id `str(jj)`, and the node at path `p` below it has id `str(jj) + "#"` followed by `p` joined by `_` |
| `SamplingTree.JoinInjective` | stellar/data/stellargraph.py:138 | different paths join to different strings |
| `SamplingTree.EncodeIdInjective` | stellar/data/stellargraph.py:138 | different (root, path) positions encode to different ids |
| `SamplingTree.SamplingIdsUnique` | stellar/data/stellargraph.py:138 | every node of the whole sampling forest has a unique id |
| `AdjacencyList.UnfoldIsExpansion` | stellar/data/stellargraph.py:204-217 | when every entry is fully expanded, reading the list from an entry gives the expansion of its type to the remaining hops |
| `AdjacencyList.WithChildrenStep` | stellar/data/stellargraph.py:212-215 | appending child `k` and linking it from its parent extends the list by one step |
| `AdjacencyList.NewTasksStep` | stellar/data/stellargraph.py:216-217 | child `k` is queued exactly when it is above the last level |
| `AdjacencyList.FrontExpandable` | stellar/data/stellargraph.py:206-209 | the task at the front names a listed, childless entry whose type has a schema entry, so `self.schema[nt]` does not raise |
| `AdjacencyList.ProcessPreservesInv` | stellar/data/stellargraph.py:206-217 | expanding the front task keeps the loop invariant: heads first, forward-only links forming a forest, breadth-first levels, queued entries childless and in order, every other entry fully expanded, child blocks in the order of their parents, and only entries before the front task listing children; it also strictly shrinks the work still owed |
| `AdjacencyList.WorkNewTasks` | stellar/data/stellargraph.py:212-217 | the tasks queued for a task's children owe no more than those children's own expansions |
| `AdjacencyList.TurnShrinksWork` | stellar/data/stellargraph.py:204-217 | each turn of the loop strictly shrinks the work still owed, so the loop ends |
| `AdjacencyList.InitInv` | stellar/data/stellargraph.py:197-202 | after the head loop, the invariant holds with the heads as childless level-0 entries, all queued when `n_hops > 0` |
| `AdjacencyList.NonHeadsBelow` | stellar/data/stellargraph.py:213-217 | entries after the heads are children, so they sit at level 1 or below |
| `AdjacencyList.TreeLinksForest` | stellar/data/stellargraph.py:213-215 | the links form a forest: exactly the non-head entries are listed as children, each by one entry and once |
| `AdjacencyList.FinishedAllDone` | stellar/data/stellargraph.py:204 | once the queue is empty, every entry is fully expanded |
| `AdjacencyList.FinishedShapes` | stellar/data/stellargraph.py:178-219 | read from head `jj`, the finished list is the expansion of head type `jj`, which is the shape of root `jj` of `get_sampling_tree` |
| `AdjacencyList.FinishedHeadsOnly` | stellar/data/stellargraph.py:199-202 | with no hop to take, the list is exactly the head entries with empty child lists |
| `AdjacencyList.ChildLevels` | stellar/data/stellargraph.py:213-217 | every child sits exactly one level below the entry listing it |
| `AdjacencyList.AppendChildren` | stellar/data/stellargraph.py:211-217 | the inner loop appends one entry per edge type, links them from entry `ninx` in order, and queues them unless they are on the last level |
| `AdjacencyList.ProcessFront` | stellar/data/stellargraph.py:206-217 | one turn of the main loop expands exactly the front task: its entry gets one new child entry per outgoing edge type of its type, appended in schema order, and the children's tasks (unless on the last level) go behind the rest of the queue; the invariant is kept and the work still owed strictly shrinks |
| `AdjacencyList.DrainQueue` | stellar/data/stellargraph.py:204-217 | the main loop keeps the invariant and ends with the queue empty |
| `AdjacencyList.QueueHeads` | stellar/data/stellargraph.py:197-202 | the head loop lists every head type, in order, as a childless entry, queues them all when `n_hops > 0` and none otherwise, and establishes the invariant |
| `AdjacencyList.Finished` | stellar/data/stellargraph.py:204-219 | once the queue is empty, the list satisfies everything `get_type_adjacency_list` promises (the properties in the next row), the first-in-first-out layout included |
| `AdjacencyList.GetTypeAdjacencyList` | stellar/data/stellargraph.py:178-219 | heads first, in order; child indices point forward; the links form a forest; each child is one level down; levels never exceed the hop count and never decrease along the list; every entry is fully expanded (one child per outgoing edge type of its type, in schema order, none on the last level); child indices increase within each entry and, entry by entry, across the list, as the first-in-first-out queue lays them out (`AdjacencyLayout.LayoutUnique` shows these determine the list); read from each head, the list is the head type's expansion and the shape of its sampling tree; with `n_hops <= 0`, just the heads with no children |
| `AdjacencyLayout.AllChildrenInOrder` | stellar/data/stellargraph.py:204-217 | when the links form a forest and child indices increase within each entry and across entries, the child lists read one after another are exactly the non-head indices `len(heads), len(heads) + 1, ...`, in order |
| `AdjacencyLayout.Consecutive` | stellar/data/stellargraph.py:211-215 | so each entry lists the next consecutive indices after those listed by the entries before it |
| `AdjacencyLayout.LayoutUnique` | stellar/data/stellargraph.py:178-219 | two lists, with their levels, that both meet the guarantees of `get_type_adjacency_list` (heads first, forward links forming a forest, every entry fully expanded, children in first-in-first-out order) are equal, so those guarantees determine the result |

## Left out

- CreateGraphSchema: builds the corrected edge type map, keyed by each edge's own endpoint pair. The source's comprehension keys every entry by the leftover `e` of line 298. That map is modelled as `SchemaBuilder.EdgeTypeMapAsWritten` and `SchemaBuilder.WithEdgeMapAsWritten` (see "## Findings").
- `GraphSchema.__repr__`, `StellarGraphBase.__repr__` and `info` build display strings only. `info` also reads a `self.schema` attribute that `StellarGraphBase` does not have.
- The warnings the lookups print are not modelled. Only the None result is.
- The graph is abstract: a map from node to type label, a sequence of edges carrying their relation label, and a directedness flag.
  - The networkx base classes and the `StellarGraph`/`StellarDiGraph` constructors are not part of this model.
  - Neither are the storage accesses `self.nodes(data=True)`, `self.edge[e]` and `self.node[n]`.
  - The attribute names `node_type_name` and `edge_type_name` are not modelled either.
- A node without a type attribute (KeyError at line 292) and an edge without a type attribute (KeyError at line 305) cannot be represented: the graph maps every node to a label, and every edge carries its relation label. `SchemaBuilder.WellFormed` is a precondition that excludes the remaining error, an edge whose endpoint is not a labelled node (KeyError at lines 303-304).
- An unknown type reached during an expansion raises KeyError in the source. `TypePaths.CanExpand` is a precondition that excludes it. `Schema.ValidSchemaExpandable` shows that the precondition always holds for known head types of a built schema.
- SamplingTree.GetSamplingTree: takes `nHops` as a `nat`. With a negative `n_hops` the source's recursion never reaches its `level == 0` base case. It still returns the full expansion when no type reachable from a head lies on a cycle of edge types (with only `A -> B`, `get_sampling_tree(["A"], -1)` returns a tree). It raises `KeyError` for a head type not in the schema. It recurses without end only when a reachable cycle exists. The model does not describe this unbounded expansion.
- `queue.Queue` is modelled as a plain FIFO sequence. Its thread safety does not matter to this single-threaded use.
- AdjacencyList.GetTypeAdjacencyList: the list entries are values. Appending to a child list in place is modelled by reassigning the entry at `ninx`. No other reference to the entry lists exists, so no aliasing is lost.
- AdjacencyList.GetTypeAdjacencyList: the levels and parent links are ghost bookkeeping that the proof needs. The source computes only the list.
- AdjacencyList.QueueHeads, AdjacencyList.DrainQueue, AdjacencyList.ProcessFront and AdjacencyList.AppendChildren: the source's head loop, while loop, while-loop body and inner for loop are each written as a method of their own.
- Sampling ids are modelled as the code builds them: a root's id is `str(jj)`, and its descendants' ids start with the prefix `str(jj) + "#"`.
- Sorting uses Python's order on `str` (code points, a proper prefix first) and on tuples. Labels of other types are not modelled.

## Findings

| source | as written | input that shows it | evidently intended | confidence | as-written member | corrected member |
|---|---|---|---|---|---|---|
| stellar/data/stellargraph.py:344-353 | the edge type map comprehension keys every entry by `e`, the variable left over from the edge loop at line 298, so the map holds only the last edge's pair | directed graph, nodes 1 and 3 of type A and 2 of type B, edges `1 -r-> 2` then `3 -s-> 2`: `get_edge_type((1, 2))` is None | key each entry by its own `(n1, n2)`, so every edge can be looked up, and of parallel edges the later one wins | high, not executed | `SchemaBuilder.EdgeMapAsWrittenLosesEdges`, `SchemaBuilder.LostEdgeExample` | `SchemaBuilder.EdgeTypeMap`, `SchemaBuilder.EdgeTypeMapAnswers` |
| stellar/data/stellargraph.py:87 | `get_node_type(node, index=False)` reads `self.node_types[index]`, i.e. `node_types[False]`, which is `node_types[0]` for every mapped node | nodes 1 of type A and 2 of type B: `get_node_type(2)` answers A | read `self.node_types[nt]`, the node's own type | high, not executed | `SchemaBuilder.NodeTypeAsWrittenWrong`, `SchemaBuilder.WrongNodeTypeExample` | `Schema.GetNodeType`, `SchemaBuilder.NodeTypeMapAnswers` |
