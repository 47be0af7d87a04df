/**
 * The type-level plan that both sampling structures of stellar/data/stellargraph.py
 * encode: starting from a head node type, every sequence of outgoing edge types
 * up to a fixed number of hops. `Expansion` is the reference definition that the
 * nested sampling tree and the flat adjacency list are both proved to match.
 */
module TypePaths {
  import opened EdgeTypes

  /** The per-source-type lists of outgoing edge types (`GraphSchema.schema`). */
  type SchemaMap = map<Label, seq<EdgeType>>

  /** A node type and the subtrees reached over each of its outgoing edge types, in order. */
  datatype TypeTree = TypeTree(nodeType: Label, children: seq<TypeTree>)

  /**
   * Expanding `nt` by `depth` more hops only ever looks up schema keys. This is
   * exactly what the source needs of its inputs: any other lookup raises KeyError.
   */
  ghost predicate CanExpand(schema: SchemaMap, nt: Label, depth: nat)
    decreases depth
  {
    depth == 0 || (nt in schema && forall et :: et in schema[nt] ==> CanExpand(schema, et.n2, depth - 1))
  }

  /** The type tree of `nt`: child `k` follows the `k`-th outgoing edge type, down to `depth` hops. */
  ghost function Expansion(schema: SchemaMap, nt: Label, depth: nat): (t: TypeTree)
    requires CanExpand(schema, nt, depth)
    decreases depth
  {
    if depth == 0 then TypeTree(nt, [])
    else
      var ets := schema[nt];
      TypeTree(nt, seq(|ets|, k requires 0 <= k < |ets| => Expansion(schema, ets[k].n2, depth - 1)))
  }

  /** `path` lists child indices that can be followed from the root of `t`. */
  ghost predicate IsPath(t: TypeTree, path: seq<nat>)
    decreases |path|
  {
    path == [] || (path[0] < |t.children| && IsPath(t.children[path[0]], path[1..]))
  }

  ghost function SubtreeAt(t: TypeTree, path: seq<nat>): TypeTree
    requires IsPath(t, path)
    decreases |path|
  {
    if path == [] then t else SubtreeAt(t.children[path[0]], path[1..])
  }

  /**
   * Every subtree at depth `|path|` of an expansion to `depth` hops is the
   * expansion of its own type to the remaining `depth - |path|` hops.
   */
  lemma {:induction false} SubtreesAreExpansions(schema: SchemaMap, nt: Label, depth: nat, path: seq<nat>)
    requires CanExpand(schema, nt, depth)
    requires IsPath(Expansion(schema, nt, depth), path)
    ensures |path| <= depth
    ensures var s := SubtreeAt(Expansion(schema, nt, depth), path);
      CanExpand(schema, s.nodeType, depth - |path|) && s == Expansion(schema, s.nodeType, depth - |path|)
    decreases |path|
  {
    if path != [] {
      var ets := schema[nt];
      var k := path[0];
      assert ets[k] in ets;
      SubtreesAreExpansions(schema, ets[k].n2, depth - 1, path[1..]);
    }
  }

  /**
   * Depth bound: a node of the expansion has no children exactly when it sits
   * `depth` hops below the root or its type has no outgoing edge types.
   */
  lemma LeafDepth(schema: SchemaMap, nt: Label, depth: nat, path: seq<nat>)
    requires CanExpand(schema, nt, depth)
    requires IsPath(Expansion(schema, nt, depth), path)
    ensures var s := SubtreeAt(Expansion(schema, nt, depth), path);
      s.children == [] <==> (|path| == depth || (s.nodeType in schema && schema[s.nodeType] == []))
  {
    SubtreesAreExpansions(schema, nt, depth, path);
  }
}
