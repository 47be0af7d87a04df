/**
 * `GraphSchema` of stellar/data/stellargraph.py: the derived, read-only type
 * schema of a heterogeneous multigraph and its lookups. Every lookup returns
 * None where the source catches an exception and prints a warning.
 */
module Schema {
  import opened Wrappers
  import opened Ordering
  import opened EdgeTypes
  import opened TypePaths

  /** A node identity of the underlying graph. */
  type NodeId = int

  /** An edge identity as the type map keys it: the ordered pair of its endpoints. */
  type EdgeKey = (NodeId, NodeId)

  /**
   * The schema fields. The two maps are None unless the schema was built with
   * type maps, as in the class attributes that default to None.
   */
  datatype GraphSchema = GraphSchema(
    nodeTypes: seq<Label>,
    edgeTypes: seq<EdgeType>,
    schema: SchemaMap,
    nodeTypeMap: Option<map<NodeId, nat>>,
    edgeTypeMap: Option<map<EdgeKey, nat>>)

  /** The members of `ets` whose source type is `nt`, in their order in `ets`. */
  function FromSource(ets: seq<EdgeType>, nt: Label): (r: seq<EdgeType>)
    ensures forall x :: x in r <==> x in ets && x.n1 == nt
    ensures StrictlySorted(ets, EdgeTypeLt) ==> StrictlySorted(r, EdgeTypeLt)
  {
    if ets == [] then []
    else
      var rest := FromSource(ets[1..], nt);
      assert forall x :: x in ets[1..] ==> x in ets;
      if ets[0].n1 == nt then
        SortedSubCons(ets, rest, EdgeTypeLt);
        [ets[0]] + rest
      else
        SortedTail(ets, EdgeTypeLt);
        rest
  }

  /** What a schema built from a graph always satisfies (the consistency the builder establishes). */
  ghost predicate Valid(gs: GraphSchema) {
    && StrictlySorted(gs.nodeTypes, LabelLt)
    && StrictlySorted(gs.edgeTypes, EdgeTypeLt)
    && (forall et :: et in gs.edgeTypes ==> et.n1 in gs.nodeTypes && et.n2 in gs.nodeTypes)
    && (forall nt :: nt in gs.schema <==> nt in gs.nodeTypes)
    && (forall nt :: nt in gs.schema ==> gs.schema[nt] == FromSource(gs.edgeTypes, nt))
    && (gs.nodeTypeMap.Some? ==> forall n :: n in gs.nodeTypeMap.value ==> gs.nodeTypeMap.value[n] < |gs.nodeTypes|)
    && (gs.edgeTypeMap.Some? ==> forall e :: e in gs.edgeTypeMap.value ==> gs.edgeTypeMap.value[e] < |gs.edgeTypes|)
  }

  /** Python indexing `s[index]`: a negative index counts from the end; IndexError becomes None. */
  function PyIndex<T>(s: seq<T>, index: int): (r: Option<T>)
    ensures r.Some? <==> -|s| <= index < |s|
  {
    if 0 <= index < |s| then Some(s[index])
    else if -|s| <= index < 0 then Some(s[|s| + index])
    else None
  }

  /** `node_key_to_index`: the position of a node type label. */
  function NodeKeyToIndex(gs: GraphSchema, key: Label): (r: Option<nat>)
    ensures r.Some? <==> key in gs.nodeTypes
    ensures r.Some? ==> r.value < |gs.nodeTypes| && gs.nodeTypes[r.value] == key
  {
    IndexOf(gs.nodeTypes, key)
  }

  /** `node_index_to_key`: the node type label at a position. */
  function NodeIndexToKey(gs: GraphSchema, index: int): (r: Option<Label>)
    ensures r.Some? <==> -|gs.nodeTypes| <= index < |gs.nodeTypes|
    ensures r.Some? ==> r.value in gs.nodeTypes
  {
    PyIndex(gs.nodeTypes, index)
  }

  /** `edge_key_to_index`: the position of an edge type triple. */
  function EdgeKeyToIndex(gs: GraphSchema, key: EdgeType): (r: Option<nat>)
    ensures r.Some? <==> key in gs.edgeTypes
    ensures r.Some? ==> r.value < |gs.edgeTypes| && gs.edgeTypes[r.value] == key
  {
    IndexOf(gs.edgeTypes, key)
  }

  /** `edge_index_to_key`: the edge type triple at a position. */
  function EdgeIndexToKey(gs: GraphSchema, index: int): (r: Option<EdgeType>)
    ensures r.Some? <==> -|gs.edgeTypes| <= index < |gs.edgeTypes|
    ensures r.Some? ==> r.value in gs.edgeTypes
  {
    PyIndex(gs.edgeTypes, index)
  }

  /** Key to index to key gives back every known label; an unknown label has no index. */
  lemma NodeKeyRoundTrip(gs: GraphSchema, key: Label)
    ensures key in gs.nodeTypes ==> NodeIndexToKey(gs, NodeKeyToIndex(gs, key).value) == Some(key)
    ensures key !in gs.nodeTypes ==> NodeKeyToIndex(gs, key) == None
  {
  }

  /** Index to key to index gives back every in-range index, because the labels are distinct. */
  lemma NodeIndexRoundTrip(gs: GraphSchema, index: nat)
    requires Valid(gs) && index < |gs.nodeTypes|
    ensures NodeKeyToIndex(gs, NodeIndexToKey(gs, index).value) == Some(index)
  {
    LabelOrder();
    StrictlySortedIsDistinct(gs.nodeTypes, LabelLt);
    IndexOfDistinct(gs.nodeTypes, index);
  }

  lemma EdgeKeyRoundTrip(gs: GraphSchema, key: EdgeType)
    ensures key in gs.edgeTypes ==> EdgeIndexToKey(gs, EdgeKeyToIndex(gs, key).value) == Some(key)
    ensures key !in gs.edgeTypes ==> EdgeKeyToIndex(gs, key) == None
  {
  }

  lemma EdgeIndexRoundTrip(gs: GraphSchema, index: nat)
    requires Valid(gs) && index < |gs.edgeTypes|
    ensures EdgeKeyToIndex(gs, EdgeIndexToKey(gs, index).value) == Some(index)
  {
    EdgeTypeOrder();
    StrictlySortedIsDistinct(gs.edgeTypes, EdgeTypeLt);
    IndexOfDistinct(gs.edgeTypes, index);
  }

  /** A negative index reads the same entry as the index `len` places higher (Python wrap-around). */
  lemma NegativeIndexWraps(gs: GraphSchema, index: int)
    requires index < 0
    ensures -|gs.nodeTypes| <= index ==> NodeIndexToKey(gs, index) == NodeIndexToKey(gs, index + |gs.nodeTypes|)
    ensures -|gs.edgeTypes| <= index ==> EdgeIndexToKey(gs, index) == EdgeIndexToKey(gs, index + |gs.edgeTypes|)
  {
  }

  /** A type as an index or as a name, as the `index` flag of the lookups selects. */
  datatype NodeTypeAnswer = NodeTypeIndex(index: nat) | NodeTypeName(name: Label)

  datatype EdgeTypeAnswer = EdgeTypeIndex(index: nat) | EdgeTypeTriple(triple: EdgeType)

  /**
   * `get_node_type` as its documentation describes it: the node's type index,
   * or the label at that index. None when there is no type map, the node is
   * not in it, or the stored index is out of range.
   */
  function GetNodeType(gs: GraphSchema, node: NodeId, index: bool): (r: Option<NodeTypeAnswer>)
    ensures r.Some? <==>
      gs.nodeTypeMap.Some? && node in gs.nodeTypeMap.value && (index || gs.nodeTypeMap.value[node] < |gs.nodeTypes|)
    ensures r.Some? && index ==> r.value == NodeTypeIndex(gs.nodeTypeMap.value[node])
    ensures r.Some? && !index ==>
      r.value.NodeTypeName? && NodeIndexToKey(gs, gs.nodeTypeMap.value[node]) == Some(r.value.name)
  {
    match gs.nodeTypeMap
    case None => None
    case Some(m) =>
      if node !in m then None
      else if index then Some(NodeTypeIndex(m[node]))
      else if m[node] < |gs.nodeTypes| then Some(NodeTypeName(gs.nodeTypes[m[node]]))
      else None
  }

  /** In a consistent schema the name answer and the index answer agree: the name's index is the stored index. */
  lemma NodeTypeAnswersAgree(gs: GraphSchema, node: NodeId)
    requires Valid(gs) && gs.nodeTypeMap.Some? && node in gs.nodeTypeMap.value
    ensures GetNodeType(gs, node, true).Some? && GetNodeType(gs, node, false).Some?
    ensures NodeKeyToIndex(gs, GetNodeType(gs, node, false).value.name) == Some(GetNodeType(gs, node, true).value.index)
  {
    NodeIndexRoundTrip(gs, gs.nodeTypeMap.value[node]);
  }

  /**
   * `get_node_type` as written: with `index` false it reads `node_types[index]`,
   * and `False` indexes position 0, so every known node gets the first label.
   */
  function GetNodeTypeAsWritten(gs: GraphSchema, node: NodeId, index: bool): (r: Option<NodeTypeAnswer>)
    ensures r.Some? <==> gs.nodeTypeMap.Some? && node in gs.nodeTypeMap.value && (index || |gs.nodeTypes| > 0)
    ensures r.Some? && index ==> r.value == NodeTypeIndex(gs.nodeTypeMap.value[node])
    ensures r.Some? && !index ==> |gs.nodeTypes| > 0 && r.value == NodeTypeName(gs.nodeTypes[0])
  {
    match gs.nodeTypeMap
    case None => None
    case Some(m) =>
      if node !in m then None
      else if index then Some(NodeTypeIndex(m[node]))
      else if |gs.nodeTypes| > 0 then Some(NodeTypeName(gs.nodeTypes[0]))
      else None
  }

  /** The stored type index of `edge`, read as given or else with its endpoints swapped. */
  function StoredEdgeIndex(gs: GraphSchema, edge: EdgeKey): (r: Option<nat>)
    ensures r.Some? <==> gs.edgeTypeMap.Some? && (edge in gs.edgeTypeMap.value || (edge.1, edge.0) in gs.edgeTypeMap.value)
    ensures r.Some? && edge in gs.edgeTypeMap.value ==> r.value == gs.edgeTypeMap.value[edge]
    ensures r.Some? && edge !in gs.edgeTypeMap.value ==> r.value == gs.edgeTypeMap.value[(edge.1, edge.0)]
  {
    match gs.edgeTypeMap
    case None => None
    case Some(m) =>
      if edge in m then Some(m[edge]) else if (edge.1, edge.0) in m then Some(m[(edge.1, edge.0)]) else None
  }

  /**
   * `get_edge_type`: the stored index of the edge in either orientation, or
   * the triple at that index. None when neither orientation is in the type
   * map, or when a triple is asked for and the stored index is out of range.
   */
  function GetEdgeType(gs: GraphSchema, edge: EdgeKey, index: bool): (r: Option<EdgeTypeAnswer>)
    ensures r.Some? <==> StoredEdgeIndex(gs, edge).Some? && (index || StoredEdgeIndex(gs, edge).value < |gs.edgeTypes|)
    ensures r.Some? && index ==> r.value == EdgeTypeIndex(StoredEdgeIndex(gs, edge).value)
    ensures r.Some? && !index ==>
      r.value.EdgeTypeTriple? && EdgeIndexToKey(gs, StoredEdgeIndex(gs, edge).value) == Some(r.value.triple)
  {
    match StoredEdgeIndex(gs, edge)
    case None => None
    case Some(et) =>
      if index then Some(EdgeTypeIndex(et))
      else if et < |gs.edgeTypes| then Some(EdgeTypeTriple(gs.edgeTypes[et]))
      else None
  }

  /** On a reversed-key hit both orientations answer the same. */
  lemma EdgeLookupReversedHit(gs: GraphSchema, a: NodeId, b: NodeId, index: bool)
    requires Valid(gs) && gs.edgeTypeMap.Some?
    requires (a, b) !in gs.edgeTypeMap.value && (b, a) in gs.edgeTypeMap.value
    ensures GetEdgeType(gs, (a, b), index) == GetEdgeType(gs, (b, a), index) != None
  {
  }

  /** `get_edge_types`: the outgoing edge types of a node type, or [] for an unknown type. */
  function GetEdgeTypes(gs: GraphSchema, nodeType: Label): (r: seq<EdgeType>)
    ensures nodeType !in gs.schema ==> r == []
  {
    if nodeType in gs.schema then gs.schema[nodeType] else []
  }

  /**
   * In a consistent schema the outgoing edge types of any label, known or
   * not, are the edge types with that source, in canonical order.
   */
  lemma GetEdgeTypesIsFromSource(gs: GraphSchema, nodeType: Label)
    requires Valid(gs)
    ensures GetEdgeTypes(gs, nodeType) == FromSource(gs.edgeTypes, nodeType)
    ensures StrictlySorted(GetEdgeTypes(gs, nodeType), EdgeTypeLt)
    ensures forall et :: et in GetEdgeTypes(gs, nodeType) <==> et in gs.edgeTypes && et.n1 == nodeType
  {
    if nodeType !in gs.schema {
      var r := FromSource(gs.edgeTypes, nodeType);
      assert Elems(r) == {};
      ElemsEmpty(r);
    }
  }

  /** Every edge type listed in the schema leads to a type that is itself a schema key. */
  ghost predicate Closed(schema: SchemaMap) {
    forall nt, et :: nt in schema && et in schema[nt] ==> et.n2 in schema
  }

  lemma ValidIsClosed(gs: GraphSchema)
    requires Valid(gs)
    ensures Closed(gs.schema)
  {
    forall nt, et | nt in gs.schema && et in gs.schema[nt] ensures et.n2 in gs.schema {
      assert et in FromSource(gs.edgeTypes, nt);
    }
  }

  lemma {:induction false} ClosedExpandable(schema: SchemaMap, nt: Label, depth: nat)
    requires Closed(schema) && nt in schema
    ensures CanExpand(schema, nt, depth)
    decreases depth
  {
    if depth > 0 {
      forall et | et in schema[nt] ensures CanExpand(schema, et.n2, depth - 1) {
        ClosedExpandable(schema, et.n2, depth - 1);
      }
    }
  }

  /** In a consistent schema every node type can be expanded to any depth without a KeyError. */
  lemma ValidSchemaExpandable(gs: GraphSchema, nt: Label, depth: nat)
    requires Valid(gs) && nt in gs.nodeTypes
    ensures CanExpand(gs.schema, nt, depth)
  {
    ValidIsClosed(gs);
    ClosedExpandable(gs.schema, nt, depth);
  }
}
