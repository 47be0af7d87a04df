/**
 * `StellarGraphBase.create_graph_schema` of stellar/data/stellargraph.py over an
 * abstract heterogeneous multigraph: one pass over the nodes for the sorted node
 * types, one pass over the edges registering edge types (both orientations in an
 * undirected graph), then the per-source adjacency and the optional type maps.
 */
module SchemaBuilder {
  import opened Wrappers
  import opened Ordering
  import opened EdgeTypes
  import opened Schema

  /** An edge as the graph enumerates it: its endpoints in that order and its relation label. */
  datatype Edge = Edge(source: NodeId, target: NodeId, rel: Label)

  /**
   * What the builder reads of the multigraph: the type label of every node, the
   * edges in enumeration order (parallel edges repeat) and whether it is directed.
   */
  datatype Graph = Graph(nodes: map<NodeId, Label>, edges: seq<Edge>, isDirected: bool)

  /** Every edge endpoint is a node carrying a type label; otherwise the source raises KeyError. */
  ghost predicate WellFormed(g: Graph) {
    forall e :: e in g.edges ==> e.source in g.nodes && e.target in g.nodes
  }

  function NodeLabels(g: Graph): set<Label> {
    g.nodes.Values
  }

  function Key(e: Edge): EdgeKey {
    (e.source, e.target)
  }

  /** `(type(n1), rel, type(n2))`: the edge type of `e` read in its own direction. */
  function Forward(g: Graph, e: Edge): EdgeType
    requires e.source in g.nodes && e.target in g.nodes
  {
    EdgeType(g.nodes[e.source], e.rel, g.nodes[e.target])
  }

  /** `(type(n2), rel, type(n1))`: the same edge read from its other end. */
  function Reverse(g: Graph, e: Edge): EdgeType
    requires e.source in g.nodes && e.target in g.nodes
  {
    EdgeType(g.nodes[e.target], e.rel, g.nodes[e.source])
  }

  /** The edge types that the edges `es` register: forward ones, and reverse ones too when undirected. */
  function TriplesOf(g: Graph, es: seq<Edge>): set<EdgeType>
    requires forall e :: e in es ==> e.source in g.nodes && e.target in g.nodes
  {
    (set e | e in es :: Forward(g, e)) + (if g.isDirected then {} else set e | e in es :: Reverse(g, e))
  }

  lemma TriplesOfSnoc(g: Graph, es: seq<Edge>, e: Edge)
    requires forall x :: x in es + [e] ==> x.source in g.nodes && x.target in g.nodes
    ensures TriplesOf(g, es + [e]) ==
      TriplesOf(g, es) + {Forward(g, e)} + (if g.isDirected then {} else {Reverse(g, e)})
  {
    assert forall x :: x in es + [e] <==> x in es || x == e;
  }

  function EdgeTriples(g: Graph): set<EdgeType>
    requires WellFormed(g)
  {
    TriplesOf(g, g.edges)
  }

  /**
   * `[edge_types[i] for i in sorted(edge_types.index(et) for et in bucket)]`:
   * the members of the bucket in the order they have in `edgeTypes`.
   */
  function InIndexOrder(edgeTypes: seq<EdgeType>, bucket: set<EdgeType>): (r: seq<EdgeType>)
    ensures forall x :: x in r <==> x in edgeTypes && x in bucket
    ensures StrictlySorted(edgeTypes, EdgeTypeLt) ==> StrictlySorted(r, EdgeTypeLt)
  {
    if edgeTypes == [] then []
    else
      var rest := InIndexOrder(edgeTypes[1..], bucket);
      assert forall x :: x in edgeTypes[1..] ==> x in edgeTypes;
      if edgeTypes[0] in bucket then
        SortedSubCons(edgeTypes, rest, EdgeTypeLt);
        [edgeTypes[0]] + rest
      else
        SortedTail(edgeTypes, EdgeTypeLt);
        rest
  }

  /** `{n: node_types.index(type(n)) for n in nodes}`. */
  function NodeTypeMap(g: Graph, nodeTypes: seq<Label>): (m: map<NodeId, nat>)
    requires NodeLabels(g) <= Elems(nodeTypes)
    ensures m.Keys == g.nodes.Keys
    ensures forall n :: n in m ==> m[n] < |nodeTypes| && nodeTypes[m[n]] == g.nodes[n]
  {
    assert forall n :: n in g.nodes ==> g.nodes[n] in NodeLabels(g);
    map n | n in g.nodes :: IndexOf(nodeTypes, g.nodes[n]).value
  }

  /** The triple the edge-map comprehension builds for `e`, with endpoint types read back through the node type map. */
  function MappedTriple(nodeTypes: seq<Label>, nodeTypeMap: map<NodeId, nat>, e: Edge): EdgeType
    requires e.source in nodeTypeMap && e.target in nodeTypeMap
    requires nodeTypeMap[e.source] < |nodeTypes| && nodeTypeMap[e.target] < |nodeTypes|
  {
    EdgeType(nodeTypes[nodeTypeMap[e.source]], e.rel, nodeTypes[nodeTypeMap[e.target]])
  }

  /** The comprehension can resolve `e` without an exception. */
  ghost predicate Resolvable(nodeTypes: seq<Label>, edgeTypes: seq<EdgeType>, nodeTypeMap: map<NodeId, nat>, e: Edge) {
    && e.source in nodeTypeMap && e.target in nodeTypeMap
    && nodeTypeMap[e.source] < |nodeTypes| && nodeTypeMap[e.target] < |nodeTypes|
    && MappedTriple(nodeTypes, nodeTypeMap, e) in edgeTypes
  }

  /** Every edge of `es` resolves. */
  ghost predicate AllResolvable(nodeTypes: seq<Label>, edgeTypes: seq<EdgeType>, nodeTypeMap: map<NodeId, nat>, es: seq<Edge>) {
    forall i :: 0 <= i < |es| ==> Resolvable(nodeTypes, edgeTypes, nodeTypeMap, es[i])
  }

  /** The endpoint pairs of `es`. */
  function Keys(es: seq<Edge>): (ks: set<EdgeKey>)
    ensures forall i :: 0 <= i < |es| ==> Key(es[i]) in ks
    decreases |es|
  {
    if es == [] then {} else Keys(es[..|es| - 1]) + {Key(es[|es| - 1])}
  }

  /** No edge after position `i` has the same endpoint pair as edge `i`. */
  ghost predicate LastWithKey(es: seq<Edge>, i: nat)
    requires i < |es|
  {
    forall j :: i < j < |es| ==> Key(es[j]) != Key(es[i])
  }

  /**
   * The edge type map as evidently intended: `{(n1, n2): index of its triple}`
   * over the edges in order, so that of parallel edges the later one wins.
   */
  function EdgeTypeMap(nodeTypes: seq<Label>, edgeTypes: seq<EdgeType>, nodeTypeMap: map<NodeId, nat>, es: seq<Edge>)
    : (m: map<EdgeKey, nat>)
    requires AllResolvable(nodeTypes, edgeTypes, nodeTypeMap, es)
    ensures m.Keys == Keys(es)
    ensures forall k :: k in m ==> m[k] < |edgeTypes|
    ensures forall i :: 0 <= i < |es| && LastWithKey(es, i) ==>
      edgeTypes[m[Key(es[i])]] == MappedTriple(nodeTypes, nodeTypeMap, es[i])
    decreases |es|
  {
    if es == [] then map[]
    else
      var init := es[..|es| - 1];
      ResolvableInit(nodeTypes, edgeTypes, nodeTypeMap, es);
      var m := EdgeTypeMap(nodeTypes, edgeTypes, nodeTypeMap, init);
      var idx := IndexOf(edgeTypes, MappedTriple(nodeTypes, nodeTypeMap, es[|es| - 1])).value;
      var r := m[Key(es[|es| - 1]) := idx];
      EdgeTypeMapSnoc(nodeTypes, edgeTypes, nodeTypeMap, es, init, m, idx, r);
      r
  }

  /** Every edge before the last one resolves too. */
  lemma ResolvableInit(nodeTypes: seq<Label>, edgeTypes: seq<EdgeType>, nodeTypeMap: map<NodeId, nat>, es: seq<Edge>)
    requires es != [] && AllResolvable(nodeTypes, edgeTypes, nodeTypeMap, es)
    ensures AllResolvable(nodeTypes, edgeTypes, nodeTypeMap, es[..|es| - 1])
    ensures Resolvable(nodeTypes, edgeTypes, nodeTypeMap, es[|es| - 1])
  {
    var init := es[..|es| - 1];
    forall i | 0 <= i < |init| ensures Resolvable(nodeTypes, edgeTypes, nodeTypeMap, init[i]) {
      assert init[i] == es[i];
    }
  }

  /** Entering the last edge's triple index over the map of the earlier edges gives the map of all of them. */
  lemma EdgeTypeMapSnoc(nodeTypes: seq<Label>, edgeTypes: seq<EdgeType>, nodeTypeMap: map<NodeId, nat>, es: seq<Edge>,
                        init: seq<Edge>, m: map<EdgeKey, nat>, idx: nat, r: map<EdgeKey, nat>)
    requires es != [] && AllResolvable(nodeTypes, edgeTypes, nodeTypeMap, es)
    requires init == es[..|es| - 1] && AllResolvable(nodeTypes, edgeTypes, nodeTypeMap, init)
    requires idx < |edgeTypes| && edgeTypes[idx] == MappedTriple(nodeTypes, nodeTypeMap, es[|es| - 1])
    requires m.Keys == Keys(init)
    requires forall k :: k in m ==> m[k] < |edgeTypes|
    requires forall i :: 0 <= i < |init| && LastWithKey(init, i) ==>
      edgeTypes[m[Key(init[i])]] == MappedTriple(nodeTypes, nodeTypeMap, init[i])
    requires r == m[Key(es[|es| - 1]) := idx]
    ensures r.Keys == Keys(es)
    ensures forall k :: k in r ==> r[k] < |edgeTypes|
    ensures forall i :: 0 <= i < |es| && LastWithKey(es, i) ==>
      edgeTypes[r[Key(es[i])]] == MappedTriple(nodeTypes, nodeTypeMap, es[i])
  {
    var last := es[|es| - 1];
    assert |init| == |es| - 1;
    assert r.Keys == Keys(es);
    forall i | 0 <= i < |es| && LastWithKey(es, i)
      ensures Key(es[i]) in r && r[Key(es[i])] < |edgeTypes|
      ensures edgeTypes[r[Key(es[i])]] == MappedTriple(nodeTypes, nodeTypeMap, es[i])
    {
      if i == |es| - 1 {
        assert r[Key(last)] == idx;
      } else {
        assert init[i] == es[i];
        assert Key(last) != Key(es[i]);
        assert Key(init[i]) in m;
        assert r[Key(es[i])] == m[Key(init[i])];
        assert LastWithKey(init, i);
      }
    }
  }

  /**
   * The edge type map as written: the comprehension keys every entry by `e`,
   * the variable left over from the earlier edge loop, i.e. the last edge's
   * endpoint pair, so the map keeps one key holding the last edge's type.
   */
  function EdgeTypeMapAsWritten(nodeTypes: seq<Label>, edgeTypes: seq<EdgeType>, nodeTypeMap: map<NodeId, nat>,
                                es: seq<Edge>, leftover: EdgeKey): (m: map<EdgeKey, nat>)
    requires AllResolvable(nodeTypes, edgeTypes, nodeTypeMap, es)
    ensures es == [] ==> m == map[]
    ensures es != [] ==>
      (m.Keys == {leftover} && m[leftover] < |edgeTypes| &&
       edgeTypes[m[leftover]] == MappedTriple(nodeTypes, nodeTypeMap, es[|es| - 1]))
    decreases |es|
  {
    if es == [] then map[]
    else
      var init := es[..|es| - 1];
      var last := es[|es| - 1];
      assert AllResolvable(nodeTypes, edgeTypes, nodeTypeMap, init) by {
        forall i | 0 <= i < |init| ensures Resolvable(nodeTypes, edgeTypes, nodeTypeMap, init[i]) {
          assert init[i] == es[i];
        }
      }
      EdgeTypeMapAsWritten(nodeTypes, edgeTypes, nodeTypeMap, init, leftover)
        [leftover := IndexOf(edgeTypes, MappedTriple(nodeTypes, nodeTypeMap, last)).value]
  }

  /** Everything `create_graph_schema` promises about the schema it returns for `g`. */
  ghost predicate IsSchemaOf(g: Graph, createTypeMaps: bool, gs: GraphSchema)
    requires WellFormed(g)
  {
    && StrictlySorted(gs.nodeTypes, LabelLt) && Elems(gs.nodeTypes) == NodeLabels(g)
    && StrictlySorted(gs.edgeTypes, EdgeTypeLt) && Elems(gs.edgeTypes) == EdgeTriples(g)
    && gs.schema.Keys == NodeLabels(g)
    && (forall nt :: nt in gs.schema ==> gs.schema[nt] == FromSource(gs.edgeTypes, nt))
    && (if createTypeMaps then
          && gs.nodeTypeMap == Some(NodeTypeMap(g, gs.nodeTypes))
          && MapsResolve(g, gs.nodeTypes, gs.edgeTypes)
          && gs.edgeTypeMap == Some(EdgeTypeMap(gs.nodeTypes, gs.edgeTypes, NodeTypeMap(g, gs.nodeTypes), g.edges))
        else gs.nodeTypeMap == None && gs.edgeTypeMap == None)
  }

  /** With node types and edge types as built, every edge resolves through the node type map. */
  ghost predicate MapsResolve(g: Graph, nodeTypes: seq<Label>, edgeTypes: seq<EdgeType>)
    requires WellFormed(g) && NodeLabels(g) <= Elems(nodeTypes)
  {
    AllResolvable(nodeTypes, edgeTypes, NodeTypeMap(g, nodeTypes), g.edges)
  }

  lemma MappedTripleIsForward(g: Graph, nodeTypes: seq<Label>, e: Edge)
    requires e.source in g.nodes && e.target in g.nodes
    requires NodeLabels(g) <= Elems(nodeTypes)
    ensures var ntm := NodeTypeMap(g, nodeTypes);
      e.source in ntm && e.target in ntm && MappedTriple(nodeTypes, ntm, e) == Forward(g, e)
  {
  }

  lemma TriplesResolve(g: Graph, nodeTypes: seq<Label>, edgeTypes: seq<EdgeType>)
    requires WellFormed(g) && NodeLabels(g) <= Elems(nodeTypes) && Elems(edgeTypes) == EdgeTriples(g)
    ensures MapsResolve(g, nodeTypes, edgeTypes)
  {
    forall i | 0 <= i < |g.edges| ensures Resolvable(nodeTypes, edgeTypes, NodeTypeMap(g, nodeTypes), g.edges[i]) {
      var e := g.edges[i];
      assert e in g.edges;
      MappedTripleIsForward(g, nodeTypes, e);
      assert Forward(g, e) in EdgeTriples(g);
      assert Forward(g, e) in Elems(edgeTypes);
    }
  }

  /**
   * Reordering a bucket by index into the sorted edge types gives the same list
   * as filtering the edge types by source type.
   */
  lemma AdjacencyIsFromSource(edgeTypes: seq<EdgeType>, nt: Label)
    requires StrictlySorted(edgeTypes, EdgeTypeLt)
    ensures InIndexOrder(edgeTypes, Bucket(Elems(edgeTypes), nt)) == FromSource(edgeTypes, nt)
  {
    EdgeTypeOrder();
    var a, b := InIndexOrder(edgeTypes, Bucket(Elems(edgeTypes), nt)), FromSource(edgeTypes, nt);
    assert Elems(a) == Elems(b);
    SortedUnique(a, b, EdgeTypeLt);
  }

  /**
   * The schema of `g`. Node types are the sorted distinct node labels; each
   * edge registers its forward triple, and in an undirected graph also its
   * reverse, under the triple's source type; edge types are the sorted
   * registered triples and each source type's adjacency lists its triples in
   * that order.
   */
  method CreateGraphSchema(g: Graph, createTypeMaps: bool) returns (gs: GraphSchema)
    requires WellFormed(g)
    ensures IsSchemaOf(g, createTypeMaps, gs)
  {
    LabelOrder();
    EdgeTypeOrder();
    var nodeTypes := SortedSet(g.nodes.Values, LabelLt);
    var edgeTypeSet, graphSchema := RegisterEdgeTypes(g, nodeTypes);
    var edgeTypes := SortedSet(edgeTypeSet, EdgeTypeLt);
    var schema := OrderBuckets(edgeTypes, graphSchema);
    if createTypeMaps {
      var nodeTypeMap := NodeTypeMap(g, nodeTypes);
      TriplesResolve(g, nodeTypes, edgeTypes);
      var edgeTypeMap := EdgeTypeMap(nodeTypes, edgeTypes, nodeTypeMap, g.edges);
      gs := GraphSchema(nodeTypes, edgeTypes, schema, Some(nodeTypeMap), Some(edgeTypeMap));
    } else {
      gs := GraphSchema(nodeTypes, edgeTypes, schema, None, None);
    }
    SchemaOfIntro(g, createTypeMaps, gs);
  }

  /** The conjuncts of `IsSchemaOf`, established one by one. */
  lemma SchemaOfIntro(g: Graph, createTypeMaps: bool, gs: GraphSchema)
    requires WellFormed(g)
    requires StrictlySorted(gs.nodeTypes, LabelLt) && Elems(gs.nodeTypes) == NodeLabels(g)
    requires StrictlySorted(gs.edgeTypes, EdgeTypeLt) && Elems(gs.edgeTypes) == EdgeTriples(g)
    requires gs.schema.Keys == NodeLabels(g)
    requires forall nt :: nt in gs.schema ==> gs.schema[nt] == FromSource(gs.edgeTypes, nt)
    requires createTypeMaps ==> gs.nodeTypeMap == Some(NodeTypeMap(g, gs.nodeTypes))
    requires createTypeMaps ==> MapsResolve(g, gs.nodeTypes, gs.edgeTypes)
    requires createTypeMaps ==> gs.edgeTypeMap == Some(EdgeTypeMap(gs.nodeTypes, gs.edgeTypes, NodeTypeMap(g, gs.nodeTypes), g.edges))
    requires !createTypeMaps ==> gs.nodeTypeMap == None && gs.edgeTypeMap == None
    ensures IsSchemaOf(g, createTypeMaps, gs)
  {
  }

  /**
   * `{n1: sorted(bucket, key=edge_types.index) for n1, bucket in graph_schema.items()}`:
   * every source type's bucket listed in the order of the sorted edge types.
   */
  method OrderBuckets(edgeTypes: seq<EdgeType>, graphSchema: map<Label, set<EdgeType>>) returns (schema: map<Label, seq<EdgeType>>)
    requires StrictlySorted(edgeTypes, EdgeTypeLt)
    requires BucketsAgree(Elems(edgeTypes), graphSchema)
    ensures schema.Keys == graphSchema.Keys
    ensures forall nt :: nt in schema ==> schema[nt] == FromSource(edgeTypes, nt)
  {
    schema := map nt | nt in graphSchema :: InIndexOrder(edgeTypes, graphSchema[nt]);
    forall nt | nt in schema ensures schema[nt] == FromSource(edgeTypes, nt) {
      AdjacencyIsFromSource(edgeTypes, nt);
    }
  }

  /** The registered triples whose source type is `nt`. */
  function Bucket(edgeTypeSet: set<EdgeType>, nt: Label): set<EdgeType> {
    set et | et in edgeTypeSet && et.n1 == nt
  }

  /** Every bucket of `graphSchema` holds exactly the registered triples leaving its type. */
  ghost predicate BucketsAgree(edgeTypeSet: set<EdgeType>, graphSchema: map<Label, set<EdgeType>>) {
    forall nt :: nt in graphSchema ==> graphSchema[nt] == Bucket(edgeTypeSet, nt)
  }

  /** Registering one triple in the set and in its source type's bucket keeps the buckets in agreement. */
  lemma RegisterKeepsBuckets(edgeTypeSet: set<EdgeType>, graphSchema: map<Label, set<EdgeType>>, tri: EdgeType)
    requires BucketsAgree(edgeTypeSet, graphSchema) && tri.n1 in graphSchema
    ensures BucketsAgree(edgeTypeSet + {tri}, graphSchema[tri.n1 := graphSchema[tri.n1] + {tri}])
  {
    var m := graphSchema[tri.n1 := graphSchema[tri.n1] + {tri}];
    forall nt | nt in m ensures m[nt] == Bucket(edgeTypeSet + {tri}, nt) {
      assert Bucket(edgeTypeSet + {tri}, nt) == Bucket(edgeTypeSet, nt) + (if tri.n1 == nt then {tri} else {});
    }
  }

  /**
   * The edge loop of `create_graph_schema`: every edge adds its forward triple,
   * and in an undirected graph its reverse triple, to the edge type set and to
   * the bucket of the triple's source type.
   */
  method RegisterEdgeTypes(g: Graph, nodeTypes: seq<Label>) returns (edgeTypeSet: set<EdgeType>, graphSchema: map<Label, set<EdgeType>>)
    requires WellFormed(g) && Elems(nodeTypes) == NodeLabels(g)
    ensures edgeTypeSet == EdgeTriples(g)
    ensures graphSchema.Keys == NodeLabels(g)
    ensures BucketsAgree(edgeTypeSet, graphSchema)
  {
    graphSchema := map nt | nt in nodeTypes :: {};
    edgeTypeSet := {};
    for i := 0 to |g.edges|
      invariant edgeTypeSet == TriplesOf(g, g.edges[..i])
      invariant graphSchema.Keys == NodeLabels(g)
      invariant BucketsAgree(edgeTypeSet, graphSchema)
    {
      var e := g.edges[i];
      assert e in g.edges;
      var nodeType1, nodeType2 := g.nodes[e.source], g.nodes[e.target];
      assert nodeType1 in NodeLabels(g) && nodeType2 in NodeLabels(g);
      var tri := EdgeType(nodeType1, e.rel, nodeType2);
      RegisterKeepsBuckets(edgeTypeSet, graphSchema, tri);
      edgeTypeSet := edgeTypeSet + {tri};
      graphSchema := graphSchema[nodeType1 := graphSchema[nodeType1] + {tri}];
      if !g.isDirected {
        tri := EdgeType(nodeType2, e.rel, nodeType1);
        RegisterKeepsBuckets(edgeTypeSet, graphSchema, tri);
        edgeTypeSet := edgeTypeSet + {tri};
        graphSchema := graphSchema[nodeType2 := graphSchema[nodeType2] + {tri}];
      }
      assert g.edges[..i + 1] == g.edges[..i] + [e];
      TriplesOfSnoc(g, g.edges[..i], e);
    }
    assert g.edges[..|g.edges|] == g.edges;
  }

  /** A schema built from a graph is consistent, so every lookup and every expansion of it is well defined. */
  lemma BuiltSchemaValid(g: Graph, createTypeMaps: bool, gs: GraphSchema)
    requires WellFormed(g) && IsSchemaOf(g, createTypeMaps, gs)
    ensures Valid(gs)
  {
    forall et | et in gs.edgeTypes ensures et.n1 in gs.nodeTypes && et.n2 in gs.nodeTypes {
      assert et in Elems(gs.edgeTypes);
      var e :| e in g.edges && (et == Forward(g, e) || et == Reverse(g, e));
      assert g.nodes[e.source] in NodeLabels(g) && g.nodes[e.target] in NodeLabels(g);
      assert et.n1 in Elems(gs.nodeTypes) && et.n2 in Elems(gs.nodeTypes);
    }
    forall nt ensures nt in gs.schema <==> nt in gs.nodeTypes {
      assert nt in gs.nodeTypes <==> nt in Elems(gs.nodeTypes);
    }
  }

  /** The schema of a graph is unique: `create_graph_schema` is a function of the graph and the flag. */
  lemma SchemaDeterministic(g: Graph, createTypeMaps: bool, gs1: GraphSchema, gs2: GraphSchema)
    requires WellFormed(g) && IsSchemaOf(g, createTypeMaps, gs1) && IsSchemaOf(g, createTypeMaps, gs2)
    ensures gs1 == gs2
  {
    LabelOrder();
    EdgeTypeOrder();
    SortedUnique(gs1.nodeTypes, gs2.nodeTypes, LabelLt);
    SortedUnique(gs1.edgeTypes, gs2.edgeTypes, EdgeTypeLt);
    assert gs1.schema == gs2.schema;
  }

  /**
   * Every edge is represented: its forward triple is an edge type and is listed
   * under its source node's type, and in an undirected graph so is its reverse,
   * under its target node's type.
   */
  lemma EdgesCovered(g: Graph, createTypeMaps: bool, gs: GraphSchema, i: nat)
    requires WellFormed(g) && IsSchemaOf(g, createTypeMaps, gs) && i < |g.edges|
    ensures var e := g.edges[i];
      && Forward(g, e) in gs.edgeTypes
      && g.nodes[e.source] in gs.schema && Forward(g, e) in gs.schema[g.nodes[e.source]]
      && (!g.isDirected ==>
            Reverse(g, e) in gs.edgeTypes
            && g.nodes[e.target] in gs.schema && Reverse(g, e) in gs.schema[g.nodes[e.target]])
  {
    var e := g.edges[i];
    assert e in g.edges;
    assert Forward(g, e) in Elems(gs.edgeTypes);
    assert g.nodes[e.source] in NodeLabels(g) && g.nodes[e.target] in NodeLabels(g);
    if !g.isDirected {
      assert Reverse(g, e) in Elems(gs.edgeTypes);
    }
  }

  /** Every edge type comes from an edge: read forwards, or backwards in an undirected graph. */
  lemma EdgeTypesFromEdges(g: Graph, createTypeMaps: bool, gs: GraphSchema, et: EdgeType)
    requires WellFormed(g) && IsSchemaOf(g, createTypeMaps, gs) && et in gs.edgeTypes
    ensures exists i :: 0 <= i < |g.edges| && (et == Forward(g, g.edges[i]) || (!g.isDirected && et == Reverse(g, g.edges[i])))
  {
    assert et in Elems(gs.edgeTypes);
    var e :| e in g.edges && (et == Forward(g, e) || (!g.isDirected && et == Reverse(g, e)));
    var i :| 0 <= i < |g.edges| && g.edges[i] == e;
  }

  /** In an undirected graph the edge types are closed under reading a triple backwards. */
  lemma UndirectedSymmetric(g: Graph, createTypeMaps: bool, gs: GraphSchema, et: EdgeType)
    requires WellFormed(g) && IsSchemaOf(g, createTypeMaps, gs) && !g.isDirected
    ensures et in gs.edgeTypes <==> EdgeType(et.n2, et.rel, et.n1) in gs.edgeTypes
  {
    var rev := EdgeType(et.n2, et.rel, et.n1);
    if et in gs.edgeTypes {
      assert et in Elems(gs.edgeTypes);
      var e :| e in g.edges && (et == Forward(g, e) || et == Reverse(g, e));
      assert rev == Reverse(g, e) || rev == Forward(g, e);
      assert rev in Elems(gs.edgeTypes);
    }
    if rev in gs.edgeTypes {
      assert rev in Elems(gs.edgeTypes);
      var e :| e in g.edges && (rev == Forward(g, e) || rev == Reverse(g, e));
      assert et == Reverse(g, e) || et == Forward(g, e);
      assert et in Elems(gs.edgeTypes);
    }
  }

  /** The node type map answers with every node's own label. */
  lemma NodeTypeMapAnswers(g: Graph, gs: GraphSchema, n: NodeId)
    requires WellFormed(g) && IsSchemaOf(g, true, gs) && n in g.nodes
    ensures GetNodeType(gs, n, false) == Some(NodeTypeName(g.nodes[n]))
    ensures GetNodeType(gs, n, true).Some? && gs.nodeTypes[GetNodeType(gs, n, true).value.index] == g.nodes[n]
  {
  }

  /**
   * The edge type map answers every edge that is the last with its endpoint
   * pair with its forward triple; of parallel edges the later one wins.
   */
  lemma EdgeTypeMapAnswers(g: Graph, gs: GraphSchema, i: nat)
    requires WellFormed(g) && IsSchemaOf(g, true, gs)
    requires i < |g.edges| && LastWithKey(g.edges, i)
    ensures GetEdgeType(gs, Key(g.edges[i]), false) == Some(EdgeTypeTriple(Forward(g, g.edges[i])))
  {
    var e := g.edges[i];
    assert e in g.edges;
    MappedTripleIsForward(g, gs.nodeTypes, e);
  }

  /** Without the type maps every type lookup answers None. */
  lemma NoTypeMaps(g: Graph, gs: GraphSchema, n: NodeId, edge: EdgeKey, index: bool)
    requires WellFormed(g) && IsSchemaOf(g, false, gs)
    ensures GetNodeType(gs, n, index) == None && GetEdgeType(gs, edge, index) == None
  {
  }

  /** The schema `gs` with its edge type map replaced by the one the source's comprehension builds. */
  function WithEdgeMapAsWritten(g: Graph, gs: GraphSchema): (r: GraphSchema)
    requires WellFormed(g) && IsSchemaOf(g, true, gs) && g.edges != []
    ensures r.edgeTypeMap.Some? && r.edgeTypeMap.value.Keys == {Key(g.edges[|g.edges| - 1])}
  {
    gs.(edgeTypeMap := Some(EdgeTypeMapAsWritten(gs.nodeTypes, gs.edgeTypes, gs.nodeTypeMap.value, g.edges,
                                                 Key(g.edges[|g.edges| - 1]))))
  }

  /**
   * As written, the edge type map forgets every edge whose endpoint pair is
   * not the last edge's (in either orientation), where the corrected map
   * answers with the edge's own type.
   */
  lemma EdgeMapAsWrittenLosesEdges(g: Graph, gs: GraphSchema, i: nat)
    requires WellFormed(g) && IsSchemaOf(g, true, gs) && i < |g.edges| && LastWithKey(g.edges, i)
    requires var last := Key(g.edges[|g.edges| - 1]);
      Key(g.edges[i]) != last && (g.edges[i].target, g.edges[i].source) != last
    ensures GetEdgeType(WithEdgeMapAsWritten(g, gs), Key(g.edges[i]), false) == None
    ensures GetEdgeType(WithEdgeMapAsWritten(g, gs), Key(g.edges[i]), true) == None
    ensures GetEdgeType(gs, Key(g.edges[i]), false) == Some(EdgeTypeTriple(Forward(g, g.edges[i])))
  {
    var last := Key(g.edges[|g.edges| - 1]);
    var w := WithEdgeMapAsWritten(g, gs);
    SingleKeyMisses(w, last, Key(g.edges[i]), false);
    SingleKeyMisses(w, last, Key(g.edges[i]), true);
    EdgeTypeMapAnswers(g, gs, i);
  }

  /** An edge type map holding the one key `last` answers nothing for an edge that is `last` in neither orientation. */
  lemma SingleKeyMisses(w: GraphSchema, last: EdgeKey, edge: EdgeKey, index: bool)
    requires w.edgeTypeMap.Some? && w.edgeTypeMap.value.Keys == {last}
    requires edge != last && (edge.1, edge.0) != last
    ensures GetEdgeType(w, edge, index) == None
  {
    assert edge !in w.edgeTypeMap.value && (edge.1, edge.0) !in w.edgeTypeMap.value;
  }

  /** A directed graph with nodes 1, 3 of type A and 2 of type B, and edges 1 -r-> 2, 3 -s-> 2. */
  function LostEdgeGraph(): (g: Graph)
    ensures WellFormed(g)
  {
    Graph(map[1 := "A", 2 := "B", 3 := "A"], [Edge(1, 2, "r"), Edge(3, 2, "s")], true)
  }

  /** The two edges of that graph have different endpoint pairs, and the first one reads (A, r, B). */
  lemma LostEdgeGraphShape()
    ensures var g := LostEdgeGraph();
      && |g.edges| == 2 && Key(g.edges[0]) == (1, 2) && Key(g.edges[1]) == (3, 2)
      && LastWithKey(g.edges, 0) && Forward(g, g.edges[0]) == EdgeType("A", "r", "B")
  {
    var g := LostEdgeGraph();
    assert g.nodes[1] == "A" && g.nodes[2] == "B";
    assert LastWithKey(g.edges, 0);
  }

  /** On that graph the as-written map has no entry for edge (1, 2); the corrected one gives (A, r, B). */
  lemma LostEdgeExample(gs: GraphSchema)
    requires IsSchemaOf(LostEdgeGraph(), true, gs)
    ensures GetEdgeType(WithEdgeMapAsWritten(LostEdgeGraph(), gs), (1, 2), false) == None
    ensures GetEdgeType(gs, (1, 2), false) == Some(EdgeTypeTriple(EdgeType("A", "r", "B")))
  {
    var g := LostEdgeGraph();
    LostEdgeGraphShape();
    EdgeMapAsWrittenLosesEdges(g, gs, 0);
  }

  /**
   * As written, `get_node_type(node)` answers the first node type for every
   * mapped node, which is wrong for every node of any other type.
   */
  lemma NodeTypeAsWrittenWrong(g: Graph, gs: GraphSchema, n: NodeId)
    requires WellFormed(g) && IsSchemaOf(g, true, gs) && n in g.nodes
    ensures |gs.nodeTypes| > 0
    ensures GetNodeTypeAsWritten(gs, n, false) == Some(NodeTypeName(gs.nodeTypes[0]))
    ensures GetNodeType(gs, n, false) == Some(NodeTypeName(g.nodes[n]))
  {
    assert g.nodes[n] in Elems(gs.nodeTypes);
    NodeTypeMapAnswers(g, gs, n);
  }

  /** A graph with node 1 of type A and node 2 of type B. */
  function TwoTypeGraph(): (g: Graph)
    ensures WellFormed(g)
  {
    Graph(map[1 := "A", 2 := "B"], [], true)
  }

  /** The node types of that graph, sorted, are A then B, and node 2 is a B. */
  lemma TwoTypeGraphShape()
    ensures var g := TwoTypeGraph();
      && 2 in g.nodes && g.nodes[2] == "B"
      && NodeLabels(g) == Elems(["A", "B"]) && StrictlySorted(["A", "B"], LabelLt)
  {
    var g := TwoTypeGraph();
    assert g.nodes[1] == "A" && g.nodes[2] == "B";
    assert NodeLabels(g) == {"A", "B"};
    assert Elems(["A", "B"]) == {"A", "B"};
    assert LabelLt("A", "B");
  }

  /** On that graph the as-written lookup calls node 2 an A; the corrected one answers B. */
  lemma WrongNodeTypeExample(gs: GraphSchema)
    requires IsSchemaOf(TwoTypeGraph(), true, gs)
    ensures GetNodeTypeAsWritten(gs, 2, false) == Some(NodeTypeName("A"))
    ensures GetNodeType(gs, 2, false) == Some(NodeTypeName("B"))
  {
    var g := TwoTypeGraph();
    LabelOrder();
    TwoTypeGraphShape();
    SortedUnique(gs.nodeTypes, ["A", "B"], LabelLt);
    NodeTypeAsWrittenWrong(g, gs, 2);
  }
}
