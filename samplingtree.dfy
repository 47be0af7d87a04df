/**
 * `GraphSchema.get_sampling_tree` of stellar/data/stellargraph.py: for every
 * head node type, the nested tree of edge types reachable within `n_hops`
 * hops, each node carrying a string id that encodes its position.
 */
module SamplingTree {
  import opened EdgeTypes
  import opened TypePaths
  import opened Decimal
  import opened Schema

  /** A non-root sampling node: `(unique_id, edge_type, [children])`. Its node type is `edgeType.n2`. */
  datatype TreeNode = TreeNode(id: string, edgeType: EdgeType, children: seq<TreeNode>)

  /** A root of the sampling tree: `(unique_id, node_type, [children])`. */
  datatype Root = Root(id: string, nodeType: Label, children: seq<TreeNode>)

  /** `gen_key(key, ii)`: the prefix followed by the decimal digits of `ii`. */
  function GenKey(key: string, ii: nat): (r: string)
    ensures |r| > |key| && r[..|key|] == key
  {
    key + NatToString(ii)
  }

  /**
   * `get_neighbor_types(node_type, level, key)`: one node per outgoing edge
   * type of `nt`, in schema order, each with id `key + str(ii)` and its own
   * children one level further down under the prefix `key + str(ii) + "_"`.
   */
  function NeighborTypes(schema: SchemaMap, nt: Label, level: nat, key: string): (r: seq<TreeNode>)
    requires CanExpand(schema, nt, level)
    ensures level == 0 ==> r == []
    ensures level > 0 ==> |r| == |schema[nt]|
    decreases level
  {
    if level == 0 then []
    else
      var ets := schema[nt];
      seq(|ets|, ii requires 0 <= ii < |ets| =>
        TreeNode(GenKey(key, ii), ets[ii], NeighborTypes(schema, ets[ii].n2, level - 1, GenKey(key, ii) + "_")))
  }

  /** Every head type can be expanded `nHops` times; otherwise the source raises KeyError. */
  ghost predicate HeadsExpandable(gs: GraphSchema, heads: seq<Label>, nHops: nat) {
    forall jj :: 0 <= jj < |heads| ==> CanExpand(gs.schema, heads[jj], nHops)
  }

  /** `get_sampling_tree(head_node_types, n_hops)`: root `jj` has id `str(jj)` and its descendants the prefix `str(jj) + "#"`. */
  function GetSamplingTree(gs: GraphSchema, heads: seq<Label>, nHops: nat): (r: seq<Root>)
    requires HeadsExpandable(gs, heads, nHops)
    ensures |r| == |heads|
    ensures forall jj :: 0 <= jj < |r| ==> r[jj].nodeType == heads[jj]
  {
    seq(|heads|, jj requires 0 <= jj < |heads| =>
      Root(NatToString(jj), heads[jj], NeighborTypes(gs.schema, heads[jj], nHops, GenKey("", jj) + "#")))
  }

  // ----- Shape: the tree follows the type expansion -----

  /** The type tree a sampling node stands for: its node type and the shapes of its children. */
  ghost function NodeShape(t: TreeNode): TypeTree {
    TypeTree(t.edgeType.n2, seq(|t.children|, k requires 0 <= k < |t.children| => NodeShape(t.children[k])))
  }

  ghost function RootShape(r: Root): TypeTree {
    TypeTree(r.nodeType, seq(|r.children|, k requires 0 <= k < |r.children| => NodeShape(r.children[k])))
  }

  /** The nodes `get_neighbor_types` returns are the children of the type expansion, one for one. */
  lemma {:induction false} NeighborShape(schema: SchemaMap, nt: Label, level: nat, key: string)
    requires CanExpand(schema, nt, level)
    ensures var r := NeighborTypes(schema, nt, level, key);
      |r| == |Expansion(schema, nt, level).children| &&
      forall k :: 0 <= k < |r| ==> NodeShape(r[k]) == Expansion(schema, nt, level).children[k]
    decreases level
  {
    if level > 0 {
      var ets := schema[nt];
      var r := NeighborTypes(schema, nt, level, key);
      forall k | 0 <= k < |r| ensures NodeShape(r[k]) == Expansion(schema, nt, level).children[k] {
        assert ets[k] in ets;
        var sub := GenKey(key, k) + "_";
        NeighborShape(schema, ets[k].n2, level - 1, sub);
        var c := r[k].children;
        assert c == NeighborTypes(schema, ets[k].n2, level - 1, sub);
        var e := Expansion(schema, ets[k].n2, level - 1);
        assert seq(|c|, j requires 0 <= j < |c| => NodeShape(c[j])) == e.children;
      }
    }
  }

  /**
   * Below a level built from `nt`, a node at depth `|p|` has children exactly
   * when fewer than `level` hops are used up, and then one per outgoing edge
   * type of its own node type, carrying those edge types in schema order.
   */
  lemma {:induction false} ChildrenFollowSchema(schema: SchemaMap, nt: Label, level: nat, key: string, p: seq<nat>)
    requires CanExpand(schema, nt, level) && IsPosition(NeighborTypes(schema, nt, level, key), p)
    ensures var t := NodeAt(NeighborTypes(schema, nt, level, key), p);
      && |p| <= level
      && (|p| == level ==> t.children == [])
      && (|p| < level ==>
            t.edgeType.n2 in schema && |t.children| == |schema[t.edgeType.n2]| &&
            forall k :: 0 <= k < |t.children| ==> t.children[k].edgeType == schema[t.edgeType.n2][k])
    decreases |p|
  {
    var ets := schema[nt];
    var i := p[0];
    assert ets[i] in ets;
    var sub := GenKey(key, i) + "_";
    if |p| > 1 {
      ChildrenFollowSchema(schema, ets[i].n2, level - 1, sub, p[1..]);
    }
  }

  /** Root `jj` of the sampling tree is the expansion of head type `jj` to `nHops` hops. */
  lemma SamplingTreeShape(gs: GraphSchema, heads: seq<Label>, nHops: nat, jj: nat)
    requires HeadsExpandable(gs, heads, nHops) && jj < |heads|
    ensures RootShape(GetSamplingTree(gs, heads, nHops)[jj]) == Expansion(gs.schema, heads[jj], nHops)
    ensures var root := GetSamplingTree(gs, heads, nHops)[jj];
      nHops > 0 ==> forall k :: 0 <= k < |root.children| ==> root.children[k].edgeType == gs.schema[heads[jj]][k]
  {
    var root := GetSamplingTree(gs, heads, nHops)[jj];
    NeighborShape(gs.schema, heads[jj], nHops, GenKey("", jj) + "#");
    var c := root.children;
    assert seq(|c|, k requires 0 <= k < |c| => NodeShape(c[k])) == Expansion(gs.schema, heads[jj], nHops).children;
  }

  /** For a consistent schema and known head types the tree always exists, whatever the depth. */
  lemma SamplingTreeDefined(gs: GraphSchema, heads: seq<Label>, nHops: nat)
    requires Valid(gs) && forall jj :: 0 <= jj < |heads| ==> heads[jj] in gs.nodeTypes
    ensures HeadsExpandable(gs, heads, nHops)
  {
    forall jj | 0 <= jj < |heads| ensures CanExpand(gs.schema, heads[jj], nHops) {
      ValidSchemaExpandable(gs, heads[jj], nHops);
    }
  }

  // ----- Ids: every node's id spells out its position, so ids are unique -----

  /** `p` indexes a node of the forest `ts`: `p[0]` picks a tree, the rest a path inside it. */
  ghost predicate IsPosition(ts: seq<TreeNode>, p: seq<nat>)
    decreases |p|
  {
    p != [] && p[0] < |ts| && (|p| == 1 || IsPosition(ts[p[0]].children, p[1..]))
  }

  ghost function NodeAt(ts: seq<TreeNode>, p: seq<nat>): TreeNode
    requires IsPosition(ts, p)
    decreases |p|
  {
    if |p| == 1 then ts[p[0]] else NodeAt(ts[p[0]].children, p[1..])
  }

  /** The child indices along a path, in decimal, joined by "_". */
  function Join(p: seq<nat>): string
    requires p != []
    decreases |p|
  {
    if |p| == 1 then NatToString(p[0]) else NatToString(p[0]) + "_" + Join(p[1..])
  }

  /** The id of the node at path `p` below root `jj`: `"jj"` for the root, `"jj#i0_i1_…"` below it. */
  function EncodeId(jj: nat, p: seq<nat>): string {
    if p == [] then NatToString(jj) else NatToString(jj) + "#" + Join(p)
  }

  /** The id of the node at path `p` below root `jj` of a sampling tree. */
  ghost function IdAt(tree: seq<Root>, jj: nat, p: seq<nat>): string
    requires jj < |tree| && (p == [] || IsPosition(tree[jj].children, p))
  {
    if p == [] then tree[jj].id else NodeAt(tree[jj].children, p).id
  }

  /** A position of length one picks a node of the level itself, which carries the id `key + str(p[0])`. */
  lemma NodeAtTop(schema: SchemaMap, nt: Label, level: nat, key: string, p: seq<nat>)
    requires CanExpand(schema, nt, level) && IsPosition(NeighborTypes(schema, nt, level, key), p) && |p| == 1
    ensures NodeAt(NeighborTypes(schema, nt, level, key), p).id == key + Join(p)
  {
  }

  /** A longer position goes through the node `p[0]` of the level, whose children are the level below. */
  lemma NodeAtStep(schema: SchemaMap, nt: Label, level: nat, key: string, p: seq<nat>)
    requires CanExpand(schema, nt, level) && IsPosition(NeighborTypes(schema, nt, level, key), p) && |p| > 1
    ensures level > 0 && nt in schema && p[0] < |schema[nt]|
    ensures CanExpand(schema, schema[nt][p[0]].n2, level - 1)
    ensures var below := NeighborTypes(schema, schema[nt][p[0]].n2, level - 1, GenKey(key, p[0]) + "_");
      IsPosition(below, p[1..]) && NodeAt(NeighborTypes(schema, nt, level, key), p) == NodeAt(below, p[1..])
  {
    var ets := schema[nt];
    assert ets[p[0]] in ets;
  }

  /** The id suffix of a longer position: the first index, an underscore, then the rest. */
  lemma JoinStep(key: string, p: seq<nat>)
    requires |p| > 1
    ensures key + Join(p) == (GenKey(key, p[0]) + "_") + Join(p[1..])
  {
    var a, b := NatToString(p[0]), Join(p[1..]);
    assert Join(p) == a + "_" + b;
    assert GenKey(key, p[0]) == key + a;
    SeqAssoc(key, a, b);
  }

  lemma SeqAssoc(key: string, a: string, b: string)
    ensures key + (a + "_" + b) == (key + a + "_") + b
  {
  }

  /** The node at position `p` below a level built with prefix `key` has id `key + Join(p)`. */
  lemma {:induction false} NeighborIds(schema: SchemaMap, nt: Label, level: nat, key: string, p: seq<nat>)
    requires CanExpand(schema, nt, level) && IsPosition(NeighborTypes(schema, nt, level, key), p)
    ensures NodeAt(NeighborTypes(schema, nt, level, key), p).id == key + Join(p)
    decreases |p|
  {
    if |p| == 1 {
      NodeAtTop(schema, nt, level, key, p);
    } else {
      NodeAtStep(schema, nt, level, key, p);
      NeighborIds(schema, schema[nt][p[0]].n2, level - 1, GenKey(key, p[0]) + "_", p[1..]);
      JoinStep(key, p);
    }
  }

  /** Every id in the sampling tree is the encoding of its position. */
  lemma SamplingIdsEncodePositions(gs: GraphSchema, heads: seq<Label>, nHops: nat, jj: nat, p: seq<nat>)
    requires HeadsExpandable(gs, heads, nHops) && jj < |heads|
    requires p == [] || IsPosition(GetSamplingTree(gs, heads, nHops)[jj].children, p)
    ensures IdAt(GetSamplingTree(gs, heads, nHops), jj, p) == EncodeId(jj, p)
  {
    if p != [] {
      NeighborIds(gs.schema, heads[jj], nHops, GenKey("", jj) + "#", p);
      assert GenKey("", jj) + "#" + Join(p) == NatToString(jj) + "#" + Join(p);
    }
  }

  predicate AllDigits(s: string) {
    forall i :: 0 <= i < |s| ==> IsDigit(s[i])
  }

  /** The index of the first non-digit of `s`, or `|s|` when it is all digits. */
  function FirstNonDigit(s: string): (k: nat)
    ensures k <= |s|
  {
    if s == [] || !IsDigit(s[0]) then 0 else 1 + FirstNonDigit(s[1..])
  }

  lemma {:induction false} FirstNonDigitOfDigits(a: string)
    requires AllDigits(a)
    ensures FirstNonDigit(a) == |a|
  {
    if a != [] {
      FirstNonDigitOfDigits(a[1..]);
    }
  }

  lemma {:induction false} FirstNonDigitAfterDigits(a: string, c: char, x: string)
    requires AllDigits(a) && !IsDigit(c)
    ensures FirstNonDigit(a + [c] + x) == |a|
  {
    if a != [] {
      assert (a + [c] + x)[1..] == a[1..] + [c] + x;
      FirstNonDigitAfterDigits(a[1..], c, x);
    }
  }

  /** Cutting at the first separator: digits, a non-digit, then anything, splits in one way only. */
  lemma SplitAtSeparator(a: string, b: string, c: char, x: string, y: string)
    requires AllDigits(a) && AllDigits(b) && !IsDigit(c)
    requires a + [c] + x == b + [c] + y
    ensures a == b && x == y
  {
    var s := a + [c] + x;
    FirstNonDigitAfterDigits(a, c, x);
    FirstNonDigitAfterDigits(b, c, y);
    assert a == s[..|a|] == b;
    assert x == s[|a| + 1..] == y;
  }

  /** A string of digits never equals digits followed by a non-digit. */
  lemma DigitsNotSplit(a: string, b: string, c: char, y: string)
    requires AllDigits(a) && AllDigits(b) && !IsDigit(c)
    ensures a != b + [c] + y
  {
    FirstNonDigitOfDigits(a);
    FirstNonDigitAfterDigits(b, c, y);
  }

  lemma {:induction false} JoinInjective(p: seq<nat>, q: seq<nat>)
    requires p != [] && q != [] && Join(p) == Join(q)
    ensures p == q
    decreases |p|
  {
    var sp, sq := NatToString(p[0]), NatToString(q[0]);
    if |p| == 1 && |q| == 1 {
      NatToStringInjective(p[0], q[0]);
    } else if |p| == 1 {
      DigitsNotSplit(sp, sq, '_', Join(q[1..]));
    } else if |q| == 1 {
      DigitsNotSplit(sq, sp, '_', Join(p[1..]));
    } else {
      SplitAtSeparator(sp, sq, '_', Join(p[1..]), Join(q[1..]));
      NatToStringInjective(p[0], q[0]);
      JoinInjective(p[1..], q[1..]);
      assert p == [p[0]] + p[1..] && q == [q[0]] + q[1..];
    }
  }

  /** Different positions have different ids. */
  lemma EncodeIdInjective(j1: nat, p1: seq<nat>, j2: nat, p2: seq<nat>)
    requires EncodeId(j1, p1) == EncodeId(j2, p2)
    ensures j1 == j2 && p1 == p2
  {
    var s1, s2 := NatToString(j1), NatToString(j2);
    if p1 == [] && p2 == [] {
      NatToStringInjective(j1, j2);
    } else if p1 == [] {
      DigitsNotSplit(s1, s2, '#', Join(p2));
    } else if p2 == [] {
      DigitsNotSplit(s2, s1, '#', Join(p1));
    } else {
      SplitAtSeparator(s1, s2, '#', Join(p1), Join(p2));
      NatToStringInjective(j1, j2);
      JoinInjective(p1, p2);
    }
  }

  /** `get_sampling_tree` gives every node of the whole forest a unique id. */
  lemma SamplingIdsUnique(gs: GraphSchema, heads: seq<Label>, nHops: nat, j1: nat, p1: seq<nat>, j2: nat, p2: seq<nat>)
    requires HeadsExpandable(gs, heads, nHops) && j1 < |heads| && j2 < |heads|
    requires p1 == [] || IsPosition(GetSamplingTree(gs, heads, nHops)[j1].children, p1)
    requires p2 == [] || IsPosition(GetSamplingTree(gs, heads, nHops)[j2].children, p2)
    requires IdAt(GetSamplingTree(gs, heads, nHops), j1, p1) == IdAt(GetSamplingTree(gs, heads, nHops), j2, p2)
    ensures j1 == j2 && p1 == p2
  {
    SamplingIdsEncodePositions(gs, heads, nHops, j1, p1);
    SamplingIdsEncodePositions(gs, heads, nHops, j2, p2);
    EncodeIdInjective(j1, p1, j2, p2);
  }
}
