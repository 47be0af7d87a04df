/**
 * `GraphSchema.get_type_adjacency_list` of stellar/data/stellargraph.py: the
 * same type expansion as the sampling tree, laid out breadth first as a flat
 * list of `(node_type, [child indices])` built with a FIFO work queue.
 */
module AdjacencyList {
  import opened EdgeTypes
  import opened TypePaths
  import opened Schema
  import opened SamplingTree

  /** One element of the list: `(node_type, [children])`. */
  datatype Entry = Entry(nodeType: Label, children: seq<nat>)

  /** A queued item `(node type, index of its entry, level)`. */
  datatype Task = Task(nodeType: Label, index: nat, level: nat)

  /** The number of hops expanded: a non-positive `n_hops` queues nothing. */
  function Depth(nHops: int): (d: nat)
    ensures nHops > 0 ==> d == nHops
    ensures nHops <= 0 ==> d == 0
  {
    if nHops > 0 then nHops else 0
  }

  /** Child indices always point further down the list. */
  ghost predicate ForwardOnly(clist: seq<Entry>) {
    forall i, k :: 0 <= i < |clist| && 0 <= k < |clist[i].children| ==> i < clist[i].children[k] < |clist|
  }

  /** The type tree the list describes from entry `i`. */
  ghost function Unfold(clist: seq<Entry>, i: nat): TypeTree
    requires ForwardOnly(clist) && i < |clist|
    decreases |clist| - i
  {
    var cs := clist[i].children;
    TypeTree(clist[i].nodeType, seq(|cs|, k requires 0 <= k < |cs| => Unfold(clist, cs[k])))
  }

  /**
   * Entry `i` at level `levels[i]` is fully expanded: it has one child per
   * outgoing edge type of its type (none at the last level), in schema order,
   * each one level further down.
   */
  ghost predicate Done(schema: SchemaMap, d: nat, clist: seq<Entry>, levels: seq<nat>, i: nat)
    requires |levels| == |clist| && i < |clist|
  {
    var e := clist[i];
    && levels[i] <= d && CanExpand(schema, e.nodeType, d - levels[i])
    && |e.children| == (if levels[i] == d then 0 else |schema[e.nodeType]|)
    && forall k :: 0 <= k < |e.children| ==>
         && e.children[k] < |clist|
         && clist[e.children[k]].nodeType == schema[e.nodeType][k].n2
         && levels[e.children[k]] == levels[i] + 1
  }

  ghost predicate AllDone(schema: SchemaMap, d: nat, clist: seq<Entry>, levels: seq<nat>)
    requires |levels| == |clist|
  {
    forall i :: 0 <= i < |clist| ==> Done(schema, d, clist, levels, i)
  }

  /** When every entry is fully expanded, the list unfolds from each entry to that entry's type expansion. */
  lemma {:induction false} UnfoldIsExpansion(schema: SchemaMap, d: nat, clist: seq<Entry>, levels: seq<nat>, i: nat)
    requires |levels| == |clist| && ForwardOnly(clist) && AllDone(schema, d, clist, levels) && i < |clist|
    ensures levels[i] <= d && CanExpand(schema, clist[i].nodeType, d - levels[i])
    ensures Unfold(clist, i) == Expansion(schema, clist[i].nodeType, d - levels[i])
    decreases |clist| - i
  {
    assert Done(schema, d, clist, levels, i);
    var cs := clist[i].children;
    forall k | 0 <= k < |cs| ensures Unfold(clist, cs[k]) == Expansion(schema, clist[i].nodeType, d - levels[i]).children[k] {
      UnfoldIsExpansion(schema, d, clist, levels, cs[k]);
    }
  }

  // ----- Termination measure: the entries still owed to the queued tasks -----

  /** Number of nodes of the expansion of `nt` to `depth` hops; a type without schema entry counts as a leaf. */
  ghost function Reach(schema: SchemaMap, nt: Label, depth: nat): nat
    decreases depth, 0
  {
    if depth == 0 || nt !in schema then 1 else 1 + SumReach(schema, schema[nt], depth - 1)
  }

  /** Total of `Reach` over the target types of `ets`. */
  ghost function SumReach(schema: SchemaMap, ets: seq<EdgeType>, depth: nat): nat
    decreases depth, |ets| + 1
  {
    if ets == [] then 0 else SumReach(schema, ets[..|ets| - 1], depth) + Reach(schema, ets[|ets| - 1].n2, depth)
  }

  ghost function TaskSize(schema: SchemaMap, d: nat, t: Task): nat {
    if t.level <= d then Reach(schema, t.nodeType, d - t.level) else 0
  }

  ghost function Work(schema: SchemaMap, d: nat, queue: seq<Task>): nat
    decreases |queue|
  {
    if queue == [] then 0 else Work(schema, d, queue[..|queue| - 1]) + TaskSize(schema, d, queue[|queue| - 1])
  }

  lemma WorkSnoc(schema: SchemaMap, d: nat, queue: seq<Task>, t: Task)
    ensures Work(schema, d, queue + [t]) == Work(schema, d, queue) + TaskSize(schema, d, t)
  {
    assert (queue + [t])[..|queue|] == queue;
  }

  lemma {:induction false} WorkPop(schema: SchemaMap, d: nat, queue: seq<Task>)
    requires queue != []
    ensures Work(schema, d, queue) == TaskSize(schema, d, queue[0]) + Work(schema, d, queue[1..])
    decreases |queue|
  {
    if |queue| > 1 {
      var init := queue[..|queue| - 1];
      WorkPop(schema, d, init);
      assert init[1..] == queue[1..][..|queue| - 2];
      assert init[0] == queue[0];
    }
  }

  // ----- The loop invariant -----

  predicate Increasing(s: seq<nat>) {
    forall i, j :: 0 <= i < j < |s| ==> s[i] < s[j]
  }

  /** Every listed child is a non-head entry whose recorded parent is the entry listing it. */
  ghost predicate ChildLinks(nHeads: nat, clist: seq<Entry>, parent: seq<nat>)
    requires |parent| == |clist|
  {
    forall i, k :: 0 <= i < |clist| && 0 <= k < |clist[i].children| ==>
      nHeads <= clist[i].children[k] < |clist| && parent[clist[i].children[k]] == i
  }

  ghost predicate ChildrenIncreasing(clist: seq<Entry>) {
    forall i :: 0 <= i < |clist| ==> Increasing(clist[i].children)
  }

  /** Every non-head entry is listed by its recorded parent, which comes earlier. */
  ghost predicate ParentLinks(nHeads: nat, clist: seq<Entry>, parent: seq<nat>)
    requires |parent| == |clist|
  {
    forall c :: nHeads <= c < |clist| ==> parent[c] < c && c in clist[parent[c]].children
  }

  /**
   * The links form a forest rooted at the heads: heads are nobody's child,
   * every later entry is listed by exactly one earlier entry, and only once.
   */
  ghost predicate TreeLinks(nHeads: nat, clist: seq<Entry>, parent: seq<nat>)
    requires |parent| == |clist|
  {
    ChildLinks(nHeads, clist, parent) && ChildrenIncreasing(clist) && ParentLinks(nHeads, clist, parent)
  }

  function QueueIndices(queue: seq<Task>): set<nat> {
    set t | t in queue :: t.index
  }

  /** Every queued task names an unexpanded entry of its own type and level, in increasing index order. */
  ghost predicate QueueOk(d: nat, clist: seq<Entry>, levels: seq<nat>, queue: seq<Task>)
    requires |levels| == |clist|
  {
    && (forall q :: 0 <= q < |queue| ==>
          && queue[q].index < |clist|
          && queue[q].nodeType == clist[queue[q].index].nodeType
          && queue[q].level == levels[queue[q].index] < d
          && clist[queue[q].index].children == [])
    && (forall p, q :: 0 <= p < q < |queue| ==> queue[p].index < queue[q].index)
  }

  /** Levels never decrease along the list: it is laid out breadth first. */
  ghost predicate LevelOrder(levels: seq<nat>) {
    forall i, j :: 0 <= i < j < |levels| ==> levels[i] <= levels[j]
  }

  /**
   * Child blocks follow the order of the entries listing them: every child of
   * an earlier entry comes before every child of a later one.
   */
  ghost predicate BlocksInOrder(clist: seq<Entry>) {
    forall i1, i2 {:trigger ChildrenBefore(clist[i1].children, clist[i2].children)} :: 0 <= i1 < i2 < |clist| ==>
      ChildrenBefore(clist[i1].children, clist[i2].children)
  }

  /** Every index in `a` is below every index in `b`. */
  predicate ChildrenBefore(a: seq<nat>, b: seq<nat>) {
    forall k1, k2 :: 0 <= k1 < |a| && 0 <= k2 < |b| ==> a[k1] < b[k2]
  }

  /**
   * The queue is served first in, first out: every entry listed so far was
   * listed by an entry before the front task's.
   */
  ghost predicate ParentsBeforeFront(nHeads: nat, parent: seq<nat>, queue: seq<Task>) {
    queue != [] ==> forall c :: nHeads <= c < |parent| ==> parent[c] < queue[0].index
  }

  ghost predicate Inv(schema: SchemaMap, d: nat, heads: seq<Label>, clist: seq<Entry>, levels: seq<nat>,
                      parent: seq<nat>, queue: seq<Task>)
  {
    && |levels| == |clist| && |parent| == |clist| && |heads| <= |clist|
    && (forall jj :: 0 <= jj < |heads| ==> clist[jj].nodeType == heads[jj] && levels[jj] == 0)
    && ForwardOnly(clist)
    && TreeLinks(|heads|, clist, parent)
    && (forall i :: 0 <= i < |clist| ==> levels[i] <= d && CanExpand(schema, clist[i].nodeType, d - levels[i]))
    && QueueOk(d, clist, levels, queue)
    && (forall i :: 0 <= i < |clist| ==> i in QueueIndices(queue) || Done(schema, d, clist, levels, i))
    && LevelOrder(levels)
    && (queue != [] ==> queue[0].index < |clist| && levels[|clist| - 1] <= levels[queue[0].index] + 1)
    && BlocksInOrder(clist)
    && ParentsBeforeFront(|heads|, parent, queue)
  }

  // ----- One turn of the outer loop -----

  /** The list after entry `f` has received its first `k` children, appended at the end. */
  function WithChildren(clist: seq<Entry>, f: nat, ets: seq<EdgeType>, k: nat): (r: seq<Entry>)
    requires f < |clist| && k <= |ets|
    ensures |r| == |clist| + k
  {
    var n0 := |clist|;
    clist[f := Entry(clist[f].nodeType, clist[f].children + seq(k, j => n0 + j))] +
      seq(k, j requires 0 <= j < k => Entry(ets[j].n2, []))
  }

  /** The tasks queued for those children: all of them, unless they sit on the last level. */
  function NewTasks(ets: seq<EdgeType>, n0: nat, level: nat, d: nat, k: nat): (r: seq<Task>)
    requires k <= |ets|
    ensures |r| == if level + 1 < d then k else 0
  {
    if level + 1 < d then seq(k, j requires 0 <= j < k => Task(ets[j].n2, n0 + j, level + 1)) else []
  }

  lemma WithChildrenStep(clist: seq<Entry>, f: nat, ets: seq<EdgeType>, k: nat)
    requires f < |clist| && k < |ets|
    ensures var c := WithChildren(clist, f, ets, k) + [Entry(ets[k].n2, [])];
      WithChildren(clist, f, ets, k + 1) == c[f := Entry(c[f].nodeType, c[f].children + [|clist| + k])]
  {
    var n0 := |clist|;
    var upd := clist[f := Entry(clist[f].nodeType, clist[f].children + seq(k, j => n0 + j))];
    var tail := seq(k, j requires 0 <= j < k => Entry(ets[j].n2, []));
    var c := upd + tail + [Entry(ets[k].n2, [])];
    assert seq(k + 1, j => n0 + j) == seq(k, j => n0 + j) + [n0 + k];
    assert seq(k + 1, j requires 0 <= j < k + 1 => Entry(ets[j].n2, [])) == tail + [Entry(ets[k].n2, [])];
    assert c[f] == upd[f];
    var lhs := c[f := Entry(c[f].nodeType, c[f].children + [n0 + k])];
    var rhs := WithChildren(clist, f, ets, k + 1);
    assert |lhs| == |rhs|;
    forall i | 0 <= i < |lhs| ensures lhs[i] == rhs[i] {
      if i == f {
        assert lhs[i] == Entry(clist[f].nodeType, clist[f].children + seq(k, j => n0 + j) + [n0 + k]);
      }
    }
  }

  lemma NewTasksStep(ets: seq<EdgeType>, n0: nat, level: nat, d: nat, k: nat)
    requires k < |ets|
    ensures NewTasks(ets, n0, level, d, k + 1) ==
      NewTasks(ets, n0, level, d, k) + (if level + 1 < d then [Task(ets[k].n2, n0 + k, level + 1)] else [])
  {
  }

  /** The task at the front of the queue names an entry whose type has a schema entry. */
  lemma FrontExpandable(schema: SchemaMap, d: nat, heads: seq<Label>, clist: seq<Entry>, levels: seq<nat>,
                        parent: seq<nat>, queue: seq<Task>)
    requires Inv(schema, d, heads, clist, levels, parent, queue) && queue != []
    ensures queue[0].index < |clist| && queue[0].level < d && queue[0].nodeType in schema
    ensures CanExpand(schema, queue[0].nodeType, d - queue[0].level)
  {
    var f := queue[0].index;
    assert levels[f] <= d && CanExpand(schema, clist[f].nodeType, d - levels[f]);
  }

  /** `m` copies of `x`. */
  function Repeat(x: nat, m: nat): (r: seq<nat>)
    ensures |r| == m && forall j :: 0 <= j < m ==> r[j] == x
  {
    seq(m, _ => x)
  }

  /** What `WithChildren` does entry by entry. */
  lemma WithChildrenAt(clist: seq<Entry>, f: nat, ets: seq<EdgeType>, m: nat)
    requires f < |clist| && m <= |ets| && clist[f].children == []
    ensures var c := WithChildren(clist, f, ets, m);
      && c[f] == Entry(clist[f].nodeType, seq(m, j => |clist| + j))
      && (forall i :: 0 <= i < |clist| && i != f ==> c[i] == clist[i])
      && (forall i :: 0 <= i < |clist| ==> c[i].nodeType == clist[i].nodeType)
      && (forall j :: 0 <= j < m ==> c[|clist| + j] == Entry(ets[j].n2, []))
  {
    assert clist[f].children + seq(m, j => |clist| + j) == seq(m, j => |clist| + j);
  }

  lemma StepHeads(heads: seq<Label>, clist: seq<Entry>, levels: seq<nat>, f: nat, lvl: nat, ets: seq<EdgeType>,
                  c: seq<Entry>, l: seq<nat>)
    requires |levels| == |clist| && |heads| <= |clist| && f < |clist| && clist[f].children == []
    requires forall jj :: 0 <= jj < |heads| ==> clist[jj].nodeType == heads[jj] && levels[jj] == 0
    requires c == WithChildren(clist, f, ets, |ets|) && l == levels + Repeat(lvl, |ets|)
    ensures forall jj :: 0 <= jj < |heads| ==> c[jj].nodeType == heads[jj] && l[jj] == 0
  {
    WithChildrenAt(clist, f, ets, |ets|);
  }

  lemma StepForwardOnly(clist: seq<Entry>, f: nat, ets: seq<EdgeType>, c: seq<Entry>)
    requires ForwardOnly(clist) && f < |clist| && clist[f].children == []
    requires c == WithChildren(clist, f, ets, |ets|)
    ensures ForwardOnly(c)
  {
    WithChildrenAt(clist, f, ets, |ets|);
  }

  lemma StepTreeLinks(nHeads: nat, clist: seq<Entry>, parent: seq<nat>, f: nat, ets: seq<EdgeType>,
                      c: seq<Entry>, p: seq<nat>)
    requires |parent| == |clist| && nHeads <= |clist| && TreeLinks(nHeads, clist, parent)
    requires f < |clist| && clist[f].children == []
    requires c == WithChildren(clist, f, ets, |ets|) && p == parent + Repeat(f, |ets|)
    ensures |p| == |c| && TreeLinks(nHeads, c, p)
  {
    StepChildLinks(nHeads, clist, parent, f, ets, c, p);
    StepChildrenIncreasing(clist, f, ets, c);
    StepParentLinks(nHeads, clist, parent, f, ets, c, p);
  }

  lemma StepChildLinks(nHeads: nat, clist: seq<Entry>, parent: seq<nat>, f: nat, ets: seq<EdgeType>,
                       c: seq<Entry>, p: seq<nat>)
    requires |parent| == |clist| && nHeads <= |clist| && ChildLinks(nHeads, clist, parent)
    requires f < |clist| && clist[f].children == []
    requires c == WithChildren(clist, f, ets, |ets|) && p == parent + Repeat(f, |ets|)
    ensures |p| == |c| && ChildLinks(nHeads, c, p)
  {
    WithChildrenAt(clist, f, ets, |ets|);
    forall i, k | 0 <= i < |c| && 0 <= k < |c[i].children| ensures nHeads <= c[i].children[k] < |c| && p[c[i].children[k]] == i {
      if i != f {
        assert c[i].children[k] == clist[i].children[k];
      }
    }
  }

  lemma StepChildrenIncreasing(clist: seq<Entry>, f: nat, ets: seq<EdgeType>, c: seq<Entry>)
    requires ChildrenIncreasing(clist) && f < |clist| && clist[f].children == []
    requires c == WithChildren(clist, f, ets, |ets|)
    ensures ChildrenIncreasing(c)
  {
    WithChildrenAt(clist, f, ets, |ets|);
    forall i | 0 <= i < |c| ensures Increasing(c[i].children) {
      if i != f && i < |clist| {
        assert c[i] == clist[i];
      }
    }
  }

  lemma StepParentLinks(nHeads: nat, clist: seq<Entry>, parent: seq<nat>, f: nat, ets: seq<EdgeType>,
                        c: seq<Entry>, p: seq<nat>)
    requires |parent| == |clist| && nHeads <= |clist| && ParentLinks(nHeads, clist, parent)
    requires f < |clist| && clist[f].children == []
    requires c == WithChildren(clist, f, ets, |ets|) && p == parent + Repeat(f, |ets|)
    ensures |p| == |c| && ParentLinks(nHeads, c, p)
  {
    var n0 := |clist|;
    WithChildrenAt(clist, f, ets, |ets|);
    forall x | nHeads <= x < |c| ensures p[x] < x && x in c[p[x]].children {
      if x >= n0 {
        assert c[f].children[x - n0] == x;
      } else {
        assert x in clist[parent[x]].children;
      }
    }
  }

  lemma StepLevelsAndTypes(schema: SchemaMap, d: nat, clist: seq<Entry>, levels: seq<nat>, f: nat, lvl: nat,
                           ets: seq<EdgeType>, c: seq<Entry>, l: seq<nat>)
    requires |levels| == |clist| && f < |clist| && clist[f].children == [] && lvl < d
    requires clist[f].nodeType in schema && CanExpand(schema, clist[f].nodeType, d - lvl)
    requires ets == schema[clist[f].nodeType]
    requires forall i :: 0 <= i < |clist| ==> levels[i] <= d && CanExpand(schema, clist[i].nodeType, d - levels[i])
    requires c == WithChildren(clist, f, ets, |ets|) && l == levels + Repeat(lvl + 1, |ets|)
    ensures forall i :: 0 <= i < |c| ==> l[i] <= d && CanExpand(schema, c[i].nodeType, d - l[i])
  {
    WithChildrenAt(clist, f, ets, |ets|);
    forall j | 0 <= j < |ets| ensures CanExpand(schema, ets[j].n2, d - (lvl + 1)) {
      assert ets[j] in ets;
    }
  }

  lemma StepQueueOk(d: nat, clist: seq<Entry>, levels: seq<nat>, queue: seq<Task>, ets: seq<EdgeType>,
                    c: seq<Entry>, l: seq<nat>, q: seq<Task>)
    requires |levels| == |clist| && QueueOk(d, clist, levels, queue) && queue != []
    requires c == WithChildren(clist, queue[0].index, ets, |ets|) && l == levels + Repeat(queue[0].level + 1, |ets|)
    requires q == queue[1..] + NewTasks(ets, |clist|, queue[0].level, d, |ets|)
    ensures |l| == |c| && QueueOk(d, c, l, q)
  {
    var f, lvl, n0, r := queue[0].index, queue[0].level, |clist|, |queue| - 1;
    WithChildrenAt(clist, f, ets, |ets|);
    forall x | 0 <= x < |q|
      ensures && q[x].index < |c| && q[x].nodeType == c[q[x].index].nodeType
              && q[x].level == l[q[x].index] < d && c[q[x].index].children == []
    {
      if x < r {
        assert q[x] == queue[x + 1];
        assert queue[0].index < queue[x + 1].index;
      } else {
        var j := x - r;
        assert q[x] == Task(ets[j].n2, n0 + j, lvl + 1);
        assert c[n0 + j] == Entry(ets[j].n2, []);
      }
    }
    forall x, y | 0 <= x < y < |q| ensures q[x].index < q[y].index {
      if y < r {
        assert q[x] == queue[x + 1] && q[y] == queue[y + 1];
      } else if x < r {
        assert q[x] == queue[x + 1];
      }
    }
  }

  /** An entry that was done stays done when only later entries change or are added. */
  lemma DoneKept(schema: SchemaMap, d: nat, clist: seq<Entry>, levels: seq<nat>, c: seq<Entry>, l: seq<nat>, i: nat)
    requires |levels| == |clist| && |l| == |c| && |clist| <= |c| && i < |clist|
    requires Done(schema, d, clist, levels, i) && c[i] == clist[i]
    requires forall j :: 0 <= j < |clist| ==> c[j].nodeType == clist[j].nodeType && l[j] == levels[j]
    ensures Done(schema, d, c, l, i)
  {
    assert l[i] == levels[i];
    assert CanExpand(schema, c[i].nodeType, d - l[i]);
  }

  /** The entry just expanded has all its children, one level down. */
  lemma ExpandedIsDone(schema: SchemaMap, d: nat, clist: seq<Entry>, levels: seq<nat>, f: nat, lvl: nat,
                       ets: seq<EdgeType>, c: seq<Entry>, l: seq<nat>)
    requires |levels| == |clist| && f < |clist| && clist[f].children == [] && levels[f] == lvl < d
    requires clist[f].nodeType in schema && ets == schema[clist[f].nodeType]
    requires CanExpand(schema, clist[f].nodeType, d - lvl)
    requires c == WithChildren(clist, f, ets, |ets|) && l == levels + Repeat(lvl + 1, |ets|)
    ensures |l| == |c| && Done(schema, d, c, l, f)
  {
    var n0, m := |clist|, |ets|;
    var cs := seq(m, j => n0 + j);
    assert clist[f].children + cs == cs;
    assert c[f] == Entry(clist[f].nodeType, cs);
    assert l[f] == lvl;
    var nt := clist[f].nodeType;
    assert c[f].nodeType == nt;
    assert CanExpand(schema, c[f].nodeType, d - l[f]);
    forall k | 0 <= k < m ensures cs[k] < |c| && c[cs[k]].nodeType == ets[k].n2 && l[cs[k]] == lvl + 1 {
      assert c[n0 + k] == Entry(ets[k].n2, []);
    }
  }

  lemma StepDone(schema: SchemaMap, d: nat, clist: seq<Entry>, levels: seq<nat>, queue: seq<Task>, ets: seq<EdgeType>,
                 c: seq<Entry>, l: seq<nat>, q: seq<Task>)
    requires |levels| == |clist| && QueueOk(d, clist, levels, queue) && queue != []
    requires forall i :: 0 <= i < |clist| ==> i in QueueIndices(queue) || Done(schema, d, clist, levels, i)
    requires queue[0].nodeType in schema && CanExpand(schema, queue[0].nodeType, d - queue[0].level)
    requires ets == schema[queue[0].nodeType]
    requires c == WithChildren(clist, queue[0].index, ets, |ets|) && l == levels + Repeat(queue[0].level + 1, |ets|)
    requires q == queue[1..] + NewTasks(ets, |clist|, queue[0].level, d, |ets|)
    ensures |l| == |c| && forall i :: 0 <= i < |c| ==> i in QueueIndices(q) || Done(schema, d, c, l, i)
  {
    var t := queue[0];
    var f, lvl := t.index, t.level;
    var m, n0 := |ets|, |clist|;
    WithChildrenAt(clist, f, ets, m);
    forall i | 0 <= i < |c| ensures i in QueueIndices(q) || Done(schema, d, c, l, i) {
      if i >= n0 {
        if lvl + 1 < d {
          assert q[|queue| - 1 + (i - n0)].index == i;
        }
      } else if i == f {
        ExpandedIsDone(schema, d, clist, levels, f, lvl, ets, c, l);
      } else if i in QueueIndices(queue) {
        var k :| 0 <= k < |queue| && queue[k].index == i;
        assert q[k - 1].index == i;
      } else {
        assert c[i] == clist[i];
        DoneKept(schema, d, clist, levels, c, l, i);
      }
    }
  }

  lemma StepLevelOrder(clist: seq<Entry>, levels: seq<nat>, queue: seq<Task>, d: nat, ets: seq<EdgeType>,
                       c: seq<Entry>, l: seq<nat>, q: seq<Task>)
    requires |levels| == |clist| && QueueOk(d, clist, levels, queue) && queue != []
    requires queue[0].index < |clist| && LevelOrder(levels) && levels[|clist| - 1] <= levels[queue[0].index] + 1
    requires |c| == |clist| + |ets| && l == levels + Repeat(queue[0].level + 1, |ets|)
    requires q == queue[1..] + NewTasks(ets, |clist|, queue[0].level, d, |ets|)
    ensures |l| == |c| && LevelOrder(l) && (q != [] ==> q[0].index < |c| && l[|c| - 1] <= l[q[0].index] + 1)
  {
  }

  /** The entries appended for the front task are childless. */
  lemma NewEntriesChildless(clist: seq<Entry>, f: nat, ets: seq<EdgeType>, c: seq<Entry>)
    requires f < |clist| && clist[f].children == [] && c == WithChildren(clist, f, ets, |ets|)
    ensures forall i :: |clist| <= i < |c| ==> c[i].children == []
  {
    WithChildrenAt(clist, f, ets, |ets|);
    forall i | |clist| <= i < |c| ensures c[i].children == [] {
      var j := i - |clist|;
      assert c[|clist| + j] == Entry(ets[j].n2, []);
    }
  }

  /**
   * The front task's children come after every child listed so far, and only
   * entries before it list children, so the blocks stay in entry order.
   */
  lemma StepBlocksInOrder(nHeads: nat, clist: seq<Entry>, parent: seq<nat>, queue: seq<Task>, ets: seq<EdgeType>,
                          c: seq<Entry>)
    requires |parent| == |clist| && ChildLinks(nHeads, clist, parent) && ParentsBeforeFront(nHeads, parent, queue)
    requires ForwardOnly(clist) && BlocksInOrder(clist)
    requires queue != [] && queue[0].index < |clist| && clist[queue[0].index].children == []
    requires c == WithChildren(clist, queue[0].index, ets, |ets|)
    ensures BlocksInOrder(c)
  {
    var f, n0 := queue[0].index, |clist|;
    WithChildrenAt(clist, f, ets, |ets|);
    NewEntriesChildless(clist, f, ets, c);
    forall i1, i2 | 0 <= i1 < i2 < |c| ensures ChildrenBefore(c[i1].children, c[i2].children) {
      if i2 == f {
        assert c[i1] == clist[i1];
      } else if i2 < f {
        assert c[i1] == clist[i1] && c[i2] == clist[i2];
        assert ChildrenBefore(clist[i1].children, clist[i2].children);
      } else if i2 < n0 {
        assert c[i2] == clist[i2];
        if clist[i2].children != [] {
          assert parent[clist[i2].children[0]] == i2;
        }
      }
    }
  }

  /** The next front task is a later entry or a new child, and every parent so far, the old front included, is before it. */
  lemma StepParentsBeforeFront(nHeads: nat, d: nat, clist: seq<Entry>, levels: seq<nat>, parent: seq<nat>,
                               queue: seq<Task>, ets: seq<EdgeType>, p: seq<nat>, q: seq<Task>)
    requires |levels| == |clist| && |parent| == |clist| && QueueOk(d, clist, levels, queue) && queue != []
    requires ParentsBeforeFront(nHeads, parent, queue)
    requires p == parent + Repeat(queue[0].index, |ets|)
    requires q == queue[1..] + NewTasks(ets, |clist|, queue[0].level, d, |ets|)
    ensures ParentsBeforeFront(nHeads, p, q)
  {
    var f, n0 := queue[0].index, |clist|;
    if q != [] {
      if |queue| > 1 {
        assert q[0] == queue[1] && f < queue[1].index;
      } else {
        assert q[0].index == n0;
      }
      forall x | nHeads <= x < |p| ensures p[x] < q[0].index {
        if x < n0 {
          assert p[x] == parent[x];
        }
      }
    }
  }

  /** Expanding the front task keeps every part of the invariant and lowers the work still owed. */
  lemma ProcessPreservesInv(schema: SchemaMap, d: nat, heads: seq<Label>, clist: seq<Entry>, levels: seq<nat>,
                            parent: seq<nat>, queue: seq<Task>,
                            c: seq<Entry>, l: seq<nat>, p: seq<nat>, q: seq<Task>)
    requires Inv(schema, d, heads, clist, levels, parent, queue) && queue != []
    requires queue[0].nodeType in schema && queue[0].index < |clist|
    requires var t := queue[0];
      var ets := schema[t.nodeType];
      && c == WithChildren(clist, t.index, ets, |ets|)
      && l == levels + Repeat(t.level + 1, |ets|)
      && p == parent + Repeat(t.index, |ets|)
      && q == queue[1..] + NewTasks(ets, |clist|, t.level, d, |ets|)
    ensures Inv(schema, d, heads, c, l, p, q)
    ensures Work(schema, d, q) < Work(schema, d, queue)
  {
    FrontExpandable(schema, d, heads, clist, levels, parent, queue);
    var t := queue[0];
    var ets := schema[t.nodeType];
    assert clist[t.index].children == [] && clist[t.index].nodeType == t.nodeType && levels[t.index] == t.level;
    StepHeads(heads, clist, levels, t.index, t.level + 1, ets, c, l);
    StepForwardOnly(clist, t.index, ets, c);
    StepTreeLinks(|heads|, clist, parent, t.index, ets, c, p);
    StepLevelsAndTypes(schema, d, clist, levels, t.index, t.level, ets, c, l);
    StepQueueOk(d, clist, levels, queue, ets, c, l, q);
    StepDone(schema, d, clist, levels, queue, ets, c, l, q);
    StepLevelOrder(clist, levels, queue, d, ets, c, l, q);
    StepBlocksInOrder(|heads|, clist, parent, queue, ets, c);
    StepParentsBeforeFront(|heads|, d, clist, levels, parent, queue, ets, p, q);
    InvIntro(schema, d, heads, c, l, p, q);
    TurnShrinksWork(schema, d, queue, |clist|, q);
  }

  lemma InvIntro(schema: SchemaMap, d: nat, heads: seq<Label>, clist: seq<Entry>, levels: seq<nat>,
                 parent: seq<nat>, queue: seq<Task>)
    requires |levels| == |clist| && |parent| == |clist| && |heads| <= |clist|
    requires forall jj :: 0 <= jj < |heads| ==> clist[jj].nodeType == heads[jj] && levels[jj] == 0
    requires ForwardOnly(clist)
    requires TreeLinks(|heads|, clist, parent)
    requires forall i :: 0 <= i < |clist| ==> levels[i] <= d && CanExpand(schema, clist[i].nodeType, d - levels[i])
    requires QueueOk(d, clist, levels, queue)
    requires forall i :: 0 <= i < |clist| ==> i in QueueIndices(queue) || Done(schema, d, clist, levels, i)
    requires LevelOrder(levels)
    requires queue != [] ==> queue[0].index < |clist| && levels[|clist| - 1] <= levels[queue[0].index] + 1
    requires BlocksInOrder(clist)
    requires ParentsBeforeFront(|heads|, parent, queue)
    ensures Inv(schema, d, heads, clist, levels, parent, queue)
  {
  }

  lemma SumReachStep(schema: SchemaMap, ets: seq<EdgeType>, k: nat, depth: nat)
    requires 0 < k <= |ets|
    ensures SumReach(schema, ets[..k], depth) == SumReach(schema, ets[..k - 1], depth) + Reach(schema, ets[k - 1].n2, depth)
  {
    assert ets[..k][..k - 1] == ets[..k - 1];
  }

  /** Queueing the task of child `k - 1` adds that child's own expansion to the work. */
  lemma WorkNewTask(schema: SchemaMap, d: nat, ets: seq<EdgeType>, lvl: nat, queue: seq<Task>, n0: nat, k: nat)
    requires lvl + 1 < d && 0 < k <= |ets|
    ensures Work(schema, d, queue + NewTasks(ets, n0, lvl, d, k)) ==
      Work(schema, d, queue + NewTasks(ets, n0, lvl, d, k - 1)) + Reach(schema, ets[k - 1].n2, d - lvl - 1)
  {
    var t := Task(ets[k - 1].n2, n0 + (k - 1), lvl + 1);
    var before := queue + NewTasks(ets, n0, lvl, d, k - 1);
    NewTasksStep(ets, n0, lvl, d, k - 1);
    assert queue + NewTasks(ets, n0, lvl, d, k) == before + [t];
    WorkSnoc(schema, d, before, t);
  }

  /** The tasks queued for the first `k` children owe no more than those children's own expansions. */
  lemma {:induction false} WorkNewTasks(schema: SchemaMap, d: nat, ets: seq<EdgeType>, lvl: nat, queue: seq<Task>,
                                        n0: nat, k: nat)
    requires lvl < d && k <= |ets|
    ensures Work(schema, d, queue + NewTasks(ets, n0, lvl, d, k)) <= Work(schema, d, queue) + SumReach(schema, ets[..k], d - lvl - 1)
  {
    if lvl + 1 >= d || k == 0 {
      assert queue + NewTasks(ets, n0, lvl, d, k) == queue;
    } else {
      WorkNewTasks(schema, d, ets, lvl, queue, n0, k - 1);
      WorkNewTask(schema, d, ets, lvl, queue, n0, k);
      SumReachStep(schema, ets, k, d - lvl - 1);
    }
  }

  /** One turn of the loop: the front task is replaced by its children's tasks, which owe strictly less. */
  lemma TurnShrinksWork(schema: SchemaMap, d: nat, queue: seq<Task>, n0: nat, q: seq<Task>)
    requires queue != [] && queue[0].level < d && queue[0].nodeType in schema
    requires q == queue[1..] + NewTasks(schema[queue[0].nodeType], n0, queue[0].level, d, |schema[queue[0].nodeType]|)
    ensures Work(schema, d, q) < Work(schema, d, queue)
  {
    var t := queue[0];
    var ets := schema[t.nodeType];
    WorkPop(schema, d, queue);
    WorkNewTasks(schema, d, ets, t.level, queue[1..], n0, |ets|);
    assert ets[..|ets|] == ets;
  }

  // ----- The method -----

  /** The tasks queued for the first `n` heads. */
  function HeadTasks(heads: seq<Label>, n: nat): (r: seq<Task>)
    requires n <= |heads|
    ensures |r| == n
  {
    seq(n, i requires 0 <= i < n => Task(heads[i], i, 0))
  }

  lemma InitInv(schema: SchemaMap, d: nat, heads: seq<Label>, clist: seq<Entry>, levels: seq<nat>,
                parent: seq<nat>, queue: seq<Task>)
    requires forall jj :: 0 <= jj < |heads| ==> CanExpand(schema, heads[jj], d)
    requires |clist| == |heads| && |levels| == |heads| && |parent| == |heads|
    requires forall i :: 0 <= i < |heads| ==> clist[i] == Entry(heads[i], []) && levels[i] == 0
    requires queue == if d > 0 then HeadTasks(heads, |heads|) else []
    ensures Inv(schema, d, heads, clist, levels, parent, queue)
  {
    forall i | 0 <= i < |clist| ensures levels[i] <= d && CanExpand(schema, clist[i].nodeType, d - levels[i]) {
      assert clist[i].nodeType == heads[i] && d - levels[i] == d;
      assert CanExpand(schema, heads[i], d);
    }
    forall i | 0 <= i < |clist| ensures i in QueueIndices(queue) || Done(schema, d, clist, levels, i) {
      if d > 0 {
        assert queue[i].index == i;
      } else {
        assert CanExpand(schema, clist[i].nodeType, 0);
      }
    }
    assert TreeLinks(|heads|, clist, parent) by {
      assert ChildLinks(|heads|, clist, parent);
      assert ChildrenIncreasing(clist);
      assert ParentLinks(|heads|, clist, parent);
    }
    assert BlocksInOrder(clist);
    InvIntro(schema, d, heads, clist, levels, parent, queue);
  }

  /** Entries after the heads are children, so they sit at least one level down. */
  lemma NonHeadsBelow(schema: SchemaMap, d: nat, heads: seq<Label>, clist: seq<Entry>, levels: seq<nat>, parent: seq<nat>)
    requires Inv(schema, d, heads, clist, levels, parent, []) 
    ensures forall c :: |heads| <= c < |clist| ==> levels[c] >= 1
    ensures |clist| > |heads| ==> levels[|clist| - 1] >= 1
  {
    forall c | |heads| <= c < |clist| ensures levels[c] >= 1 {
      var i := parent[c];
      assert c in clist[i].children;
      var k :| 0 <= k < |clist[i].children| && clist[i].children[k] == c;
      assert Done(schema, d, clist, levels, i);
    }
  }

  /** Every index some entry lists as a child. */
  function Listed(clist: seq<Entry>): set<nat> {
    set i, k | 0 <= i < |clist| && 0 <= k < |clist[i].children| :: clist[i].children[k]
  }

  /** Links as a forest: exactly the non-head entries are listed, each by one entry and only once. */
  ghost predicate IsForest(nHeads: nat, clist: seq<Entry>) {
    && (forall c :: c in Listed(clist) <==> nHeads <= c < |clist|)
    && (forall i1, k1, i2, k2 ::
          (0 <= i1 < |clist| && 0 <= k1 < |clist[i1].children| && 0 <= i2 < |clist| && 0 <= k2 < |clist[i2].children| &&
           clist[i1].children[k1] == clist[i2].children[k2]) ==> i1 == i2 && k1 == k2)
  }

  lemma TreeLinksForest(nHeads: nat, clist: seq<Entry>, parent: seq<nat>)
    requires |parent| == |clist| && TreeLinks(nHeads, clist, parent)
    ensures IsForest(nHeads, clist)
  {
    forall c | nHeads <= c < |clist| ensures c in Listed(clist) {
      var i := parent[c];
      assert c in clist[i].children;
      var k :| 0 <= k < |clist[i].children| && clist[i].children[k] == c;
    }
    forall i1, k1, i2, k2 |
      0 <= i1 < |clist| && 0 <= k1 < |clist[i1].children| && 0 <= i2 < |clist| && 0 <= k2 < |clist[i2].children| &&
      clist[i1].children[k1] == clist[i2].children[k2]
      ensures i1 == i2 && k1 == k2
    {
      assert i1 == parent[clist[i1].children[k1]] == i2;
      assert Increasing(clist[i1].children);
    }
  }

  /** With the queue empty, every entry is fully expanded. */
  lemma FinishedAllDone(schema: SchemaMap, d: nat, heads: seq<Label>, clist: seq<Entry>, levels: seq<nat>, parent: seq<nat>)
    requires Inv(schema, d, heads, clist, levels, parent, [])
    ensures AllDone(schema, d, clist, levels)
  {
    forall i | 0 <= i < |clist| ensures Done(schema, d, clist, levels, i) {
      assert i !in QueueIndices([]);
    }
  }

  /** The list read from each head is that head's type expansion, which is also the shape of its sampling tree. */
  lemma FinishedShapes(gs: GraphSchema, heads: seq<Label>, nHops: int, clist: seq<Entry>, levels: seq<nat>)
    requires HeadsExpandable(gs, heads, Depth(nHops))
    requires |levels| == |clist| && |heads| <= |clist| && ForwardOnly(clist)
    requires AllDone(gs.schema, Depth(nHops), clist, levels)
    requires forall jj :: 0 <= jj < |heads| ==> clist[jj].nodeType == heads[jj] && levels[jj] == 0
    ensures forall jj :: 0 <= jj < |heads| ==> Unfold(clist, jj) == Expansion(gs.schema, heads[jj], Depth(nHops))
    ensures nHops >= 0 ==>
      forall jj :: 0 <= jj < |heads| ==> Unfold(clist, jj) == RootShape(GetSamplingTree(gs, heads, nHops)[jj])
  {
    var d := Depth(nHops);
    forall jj | 0 <= jj < |heads| ensures Unfold(clist, jj) == Expansion(gs.schema, heads[jj], d) {
      UnfoldIsExpansion(gs.schema, d, clist, levels, jj);
    }
    if nHops >= 0 {
      forall jj | 0 <= jj < |heads| ensures Unfold(clist, jj) == RootShape(GetSamplingTree(gs, heads, nHops)[jj]) {
        SamplingTreeShape(gs, heads, nHops, jj);
      }
    }
  }

  /** With no hop to take, the list is just the heads, childless. */
  lemma FinishedHeadsOnly(schema: SchemaMap, heads: seq<Label>, clist: seq<Entry>, levels: seq<nat>, parent: seq<nat>)
    requires Inv(schema, 0, heads, clist, levels, parent, [])
    ensures clist == seq(|heads|, jj requires 0 <= jj < |heads| => Entry(heads[jj], []))
  {
    FinishedAllDone(schema, 0, heads, clist, levels, parent);
    NonHeadsBelow(schema, 0, heads, clist, levels, parent);
    forall jj | 0 <= jj < |heads| ensures clist[jj] == Entry(heads[jj], []) {
      assert Done(schema, 0, clist, levels, jj);
    }
  }

  /** Every child sits one level below the entry listing it. */
  lemma ChildLevels(schema: SchemaMap, d: nat, clist: seq<Entry>, levels: seq<nat>)
    requires |levels| == |clist| && ForwardOnly(clist) && AllDone(schema, d, clist, levels)
    ensures forall i, k :: 0 <= i < |clist| && 0 <= k < |clist[i].children| ==>
      levels[clist[i].children[k]] == levels[i] + 1
  {
    forall i, k | 0 <= i < |clist| && 0 <= k < |clist[i].children| ensures levels[clist[i].children[k]] == levels[i] + 1 {
      assert Done(schema, d, clist, levels, i);
    }
  }

  /**
   * One turn of the main loop: every edge type in `ets` appends a child entry
   * for its target type, links it from entry `ninx`, and queues it while fewer
   * than `nHops` levels are used up.
   */
  method AppendChildren(clist0: seq<Entry>, queue0: seq<Task>, ninx: nat, lvl: nat, ets: seq<EdgeType>, nHops: int)
    returns (clist: seq<Entry>, queue: seq<Task>)
    requires ninx < |clist0|
    ensures clist == WithChildren(clist0, ninx, ets, |ets|)
    ensures queue == queue0 + NewTasks(ets, |clist0|, lvl, Depth(nHops), |ets|)
  {
    clist, queue := clist0, queue0;
    assert clist0[ninx].children + seq(0, j => |clist0| + j) == clist0[ninx].children;
    assert clist0[ninx := Entry(clist0[ninx].nodeType, clist0[ninx].children)] == clist0;
    for k := 0 to |ets|
      invariant clist == WithChildren(clist0, ninx, ets, k)
      invariant queue == queue0 + NewTasks(ets, |clist0|, lvl, Depth(nHops), k)
    {
      var et := ets[k];
      var cinx := |clist|;
      WithChildrenStep(clist0, ninx, ets, k);
      NewTasksStep(ets, |clist0|, lvl, Depth(nHops), k);
      clist := clist + [Entry(et.n2, [])];
      clist := clist[ninx := Entry(clist[ninx].nodeType, clist[ninx].children + [cinx])];
      if nHops > lvl + 1 {
        queue := queue + [Task(et.n2, cinx, lvl + 1)];
      }
    }
  }

  /**
   * One turn of the main loop of `get_type_adjacency_list`: take the front task
   * and give its entry one child per outgoing edge type of its type. The
   * invariant is kept and the work still owed shrinks.
   */
  method ProcessFront(gs: GraphSchema, heads: seq<Label>, nHops: int, clist0: seq<Entry>, queue0: seq<Task>,
                      ghost levels0: seq<nat>, ghost parent0: seq<nat>)
    returns (clist: seq<Entry>, queue: seq<Task>, ghost levels: seq<nat>, ghost parent: seq<nat>)
    requires queue0 != [] && Inv(gs.schema, Depth(nHops), heads, clist0, levels0, parent0, queue0)
    ensures Inv(gs.schema, Depth(nHops), heads, clist, levels, parent, queue)
    ensures queue0[0].nodeType in gs.schema && queue0[0].index < |clist0|
    ensures var ets := gs.schema[queue0[0].nodeType];
      && clist == WithChildren(clist0, queue0[0].index, ets, |ets|)
      && queue == queue0[1..] + NewTasks(ets, |clist0|, queue0[0].level, Depth(nHops), |ets|)
    ensures Work(gs.schema, Depth(nHops), queue) < Work(gs.schema, Depth(nHops), queue0)
  {
    ghost var d := Depth(nHops);
    FrontExpandable(gs.schema, d, heads, clist0, levels0, parent0, queue0);
    var task := queue0[0];
    var nt, ninx, lvl := task.nodeType, task.index, task.level;
    var ets := gs.schema[nt];
    clist, queue := AppendChildren(clist0, queue0[1..], ninx, lvl, ets, nHops);
    levels := levels0 + Repeat(lvl + 1, |ets|);
    parent := parent0 + Repeat(ninx, |ets|);
    ProcessPreservesInv(gs.schema, d, heads, clist0, levels0, parent0, queue0, clist, levels, parent, queue);
  }

  /**
   * The main loop of `get_type_adjacency_list`: while the queue is not empty,
   * process its front task. The invariant holds throughout, and the loop ends
   * with the queue empty.
   */
  method DrainQueue(gs: GraphSchema, heads: seq<Label>, nHops: int, clist0: seq<Entry>, queue0: seq<Task>,
                    ghost levels0: seq<nat>, ghost parent0: seq<nat>)
    returns (clist: seq<Entry>, ghost levels: seq<nat>, ghost parent: seq<nat>)
    requires Inv(gs.schema, Depth(nHops), heads, clist0, levels0, parent0, queue0)
    ensures Inv(gs.schema, Depth(nHops), heads, clist, levels, parent, [])
  {
    clist, levels, parent := clist0, levels0, parent0;
    var queue := queue0;
    while queue != []
      invariant Inv(gs.schema, Depth(nHops), heads, clist, levels, parent, queue)
      decreases Work(gs.schema, Depth(nHops), queue)
    {
      clist, queue, levels, parent := ProcessFront(gs, heads, nHops, clist, queue, levels, parent);
    }
  }

  /**
   * `get_type_adjacency_list(head_node_types, n_hops)`: the heads first, in
   * order; then, taking entries from a FIFO queue, every outgoing edge type of
   * the entry's type appends a child entry, which is queued in turn while
   * fewer than `n_hops` levels are used up. `levels` records each entry's depth.
   */
  method GetTypeAdjacencyList(gs: GraphSchema, heads: seq<Label>, nHops: int) returns (clist: seq<Entry>, ghost levels: seq<nat>)
    requires HeadsExpandable(gs, heads, Depth(nHops))
    ensures |clist| >= |heads| && |levels| == |clist|
    ensures forall jj :: 0 <= jj < |heads| ==> clist[jj].nodeType == heads[jj] && levels[jj] == 0
    ensures ForwardOnly(clist)
    ensures forall jj :: 0 <= jj < |heads| ==> Unfold(clist, jj) == Expansion(gs.schema, heads[jj], Depth(nHops))
    ensures nHops >= 0 ==>
      forall jj :: 0 <= jj < |heads| ==> Unfold(clist, jj) == RootShape(GetSamplingTree(gs, heads, nHops)[jj])
    ensures nHops <= 0 ==> clist == seq(|heads|, jj requires 0 <= jj < |heads| => Entry(heads[jj], []))
    ensures IsForest(|heads|, clist)
    ensures forall i :: 0 <= i < |clist| ==> levels[i] <= Depth(nHops)
    ensures forall i, k :: 0 <= i < |clist| && 0 <= k < |clist[i].children| ==>
      levels[clist[i].children[k]] == levels[i] + 1
    ensures LevelOrder(levels)
    ensures ChildrenIncreasing(clist) && BlocksInOrder(clist)
    ensures AllDone(gs.schema, Depth(nHops), clist, levels)
  {
    var queue;
    ghost var parent;
    clist, queue, levels, parent := QueueHeads(gs, heads, nHops);
    clist, levels, parent := DrainQueue(gs, heads, nHops, clist, queue, levels, parent);
    Finished(gs, heads, nHops, clist, levels, parent);
  }

  /**
   * The head loop of `get_type_adjacency_list`: one childless level-0 entry per
   * head type, in order, each queued when `n_hops > 0`.
   */
  method QueueHeads(gs: GraphSchema, heads: seq<Label>, nHops: int)
    returns (clist: seq<Entry>, queue: seq<Task>, ghost levels: seq<nat>, ghost parent: seq<nat>)
    requires HeadsExpandable(gs, heads, Depth(nHops))
    ensures clist == seq(|heads|, jj requires 0 <= jj < |heads| => Entry(heads[jj], []))
    ensures queue == if nHops > 0 then HeadTasks(heads, |heads|) else []
    ensures Inv(gs.schema, Depth(nHops), heads, clist, levels, parent, queue)
  {
    parent := [];
    queue := [];
    clist, levels := [], [];
    for ii := 0 to |heads|
      invariant |clist| == ii && |levels| == ii && |parent| == ii
      invariant forall i :: 0 <= i < ii ==> clist[i] == Entry(heads[i], []) && levels[i] == 0
      invariant queue == if nHops > 0 then HeadTasks(heads, ii) else []
    {
      if nHops > 0 {
        queue := queue + [Task(heads[ii], ii, 0)];
      }
      clist := clist + [Entry(heads[ii], [])];
      levels := levels + [0];
      parent := parent + [0];
    }
    InitInv(gs.schema, Depth(nHops), heads, clist, levels, parent, queue);
  }

  /** What the finished list satisfies once the queue has run empty. */
  lemma Finished(gs: GraphSchema, heads: seq<Label>, nHops: int, clist: seq<Entry>, levels: seq<nat>, parent: seq<nat>)
    requires HeadsExpandable(gs, heads, Depth(nHops))
    requires Inv(gs.schema, Depth(nHops), heads, clist, levels, parent, [])
    ensures |clist| >= |heads| && |levels| == |clist|
    ensures forall jj :: 0 <= jj < |heads| ==> clist[jj].nodeType == heads[jj] && levels[jj] == 0
    ensures ForwardOnly(clist)
    ensures forall jj :: 0 <= jj < |heads| ==> Unfold(clist, jj) == Expansion(gs.schema, heads[jj], Depth(nHops))
    ensures nHops >= 0 ==>
      forall jj :: 0 <= jj < |heads| ==> Unfold(clist, jj) == RootShape(GetSamplingTree(gs, heads, nHops)[jj])
    ensures nHops <= 0 ==> clist == seq(|heads|, jj requires 0 <= jj < |heads| => Entry(heads[jj], []))
    ensures IsForest(|heads|, clist)
    ensures forall i :: 0 <= i < |clist| ==> levels[i] <= Depth(nHops)
    ensures forall i, k :: 0 <= i < |clist| && 0 <= k < |clist[i].children| ==>
      levels[clist[i].children[k]] == levels[i] + 1
    ensures LevelOrder(levels)
    ensures ChildrenIncreasing(clist) && BlocksInOrder(clist)
    ensures AllDone(gs.schema, Depth(nHops), clist, levels)
  {
    ghost var d := Depth(nHops);
    FinishedAllDone(gs.schema, d, heads, clist, levels, parent);
    FinishedShapes(gs, heads, nHops, clist, levels);
    if nHops <= 0 {
      FinishedHeadsOnly(gs.schema, heads, clist, levels, parent);
    }
    TreeLinksForest(|heads|, clist, parent);
    ChildLevels(gs.schema, d, clist, levels);
  }
}
