/**
 * The layout `get_type_adjacency_list` of stellar/data/stellargraph.py
 * produces is determined by what it guarantees: each entry's children are the
 * next indices after those of the entries before it, and two lists with the
 * same guarantees are equal.
 */
module AdjacencyLayout {
  import opened EdgeTypes
  import opened TypePaths
  import opened AdjacencyList

  /** The child lists of the first `n` entries, one after another. */
  function ChildrenUpTo(clist: seq<Entry>, n: nat): seq<nat>
    requires n <= |clist|
  {
    if n == 0 then [] else ChildrenUpTo(clist, n - 1) + clist[n - 1].children
  }

  /** `s` counts up from `lo`: it is `lo, lo + 1, ..., lo + |s| - 1`. */
  predicate CountsFrom(s: seq<nat>, lo: nat) {
    forall j :: 0 <= j < |s| ==> s[j] == lo + j
  }

  /** An index in the child lists of the first `n` entries is listed by one of them. */
  lemma {:induction false} ListedBy(clist: seq<Entry>, n: nat, x: nat) returns (i: nat, k: nat)
    requires n <= |clist| && x in ChildrenUpTo(clist, n)
    ensures i < n && k < |clist[i].children| && clist[i].children[k] == x
  {
    var prev := ChildrenUpTo(clist, n - 1);
    if x in prev {
      i, k := ListedBy(clist, n - 1, x);
    } else {
      var t :| 0 <= t < |prev + clist[n - 1].children| && (prev + clist[n - 1].children)[t] == x;
      i, k := n - 1, t - |prev|;
    }
  }

  /** Every child of the first `n` entries is in their child lists. */
  lemma {:induction false} ListedIn(clist: seq<Entry>, n: nat, i: nat, k: nat)
    requires i < n <= |clist| && k < |clist[i].children|
    ensures clist[i].children[k] in ChildrenUpTo(clist, n)
  {
    var prev := ChildrenUpTo(clist, n - 1);
    if i < n - 1 {
      ListedIn(clist, n - 1, i, k);
    } else {
      assert (prev + clist[i].children)[|prev| + k] == clist[i].children[k];
    }
  }

  /** With each child list increasing and the blocks in entry order, the child lists read one after another increase. */
  lemma {:induction false} ChildrenUpToIncreasing(clist: seq<Entry>, n: nat)
    requires n <= |clist| && ChildrenIncreasing(clist) && BlocksInOrder(clist)
    ensures Increasing(ChildrenUpTo(clist, n))
  {
    if n > 0 {
      ChildrenUpToIncreasing(clist, n - 1);
      var a, b := ChildrenUpTo(clist, n - 1), clist[n - 1].children;
      assert Increasing(b);
      forall x, y | 0 <= x < y < |a + b| ensures (a + b)[x] < (a + b)[y] {
        if y < |a| {
          assert (a + b)[x] == a[x] && (a + b)[y] == a[y];
        } else if x >= |a| {
          assert (a + b)[x] == b[x - |a|] && (a + b)[y] == b[y - |a|];
        } else {
          var i, k := ListedBy(clist, n - 1, a[x]);
          assert ChildrenBefore(clist[i].children, clist[n - 1].children);
          assert (a + b)[y] == b[y - |a|];
        }
      }
    }
  }

  /** An increasing sequence holding exactly the indices from `lo` to `hi - 1` counts up from `lo` to `hi - 1`. */
  lemma {:induction false} IncreasingCountsUp(s: seq<nat>, lo: nat, hi: nat)
    requires lo <= hi && Increasing(s)
    requires forall x :: x in s <==> lo <= x < hi
    ensures |s| == hi - lo && CountsFrom(s, lo)
    decreases |s|
  {
    if s == [] {
      assert lo !in s;
    } else {
      assert s[0] in s;
      assert hi - 1 in s;
      var j :| 0 <= j < |s| && s[j] == hi - 1;
      var last := s[|s| - 1];
      assert last in s;
      assert s[j] <= last;
      var init := s[..|s| - 1];
      forall x ensures x in init <==> lo <= x < hi - 1 {
        if x in init {
          var t :| 0 <= t < |init| && init[t] == x;
          assert s[t] == x && s[t] < last;
        }
        if lo <= x < hi - 1 {
          assert x in s;
          var t :| 0 <= t < |s| && s[t] == x;
          assert t != |s| - 1 && init[t] == x;
        }
      }
      IncreasingCountsUp(init, lo, hi - 1);
      forall t | 0 <= t < |s| ensures s[t] == lo + t {
        if t < |init| {
          assert s[t] == init[t];
        }
      }
    }
  }

  /** The child lists of the first `i` entries start the child lists of the first `n`. */
  lemma {:induction false} ChildrenUpToPrefix(clist: seq<Entry>, i: nat, n: nat)
    requires i <= n <= |clist|
    ensures |ChildrenUpTo(clist, i)| <= |ChildrenUpTo(clist, n)|
    ensures ChildrenUpTo(clist, n)[..|ChildrenUpTo(clist, i)|] == ChildrenUpTo(clist, i)
    decreases n - i
  {
    if i < n {
      ChildrenUpToPrefix(clist, i, n - 1);
      var a, b := ChildrenUpTo(clist, n - 1), ChildrenUpTo(clist, i);
      assert (a + clist[n - 1].children)[..|a|] == a;
      assert a[..|b|] == (a + clist[n - 1].children)[..|b|];
    }
  }

  /** In a forest whose blocks are in entry order, the child lists read one after another are the non-head indices in order. */
  lemma AllChildrenInOrder(nHeads: nat, clist: seq<Entry>)
    requires nHeads <= |clist| && IsForest(nHeads, clist) && ChildrenIncreasing(clist) && BlocksInOrder(clist)
    ensures |ChildrenUpTo(clist, |clist|)| == |clist| - nHeads && CountsFrom(ChildrenUpTo(clist, |clist|), nHeads)
  {
    var full := ChildrenUpTo(clist, |clist|);
    ChildrenUpToIncreasing(clist, |clist|);
    forall x ensures x in full <==> nHeads <= x < |clist| {
      if x in full {
        var i, k := ListedBy(clist, |clist|, x);
        assert x in Listed(clist);
      }
      if nHeads <= x < |clist| {
        assert x in Listed(clist);
        var i, k :| 0 <= i < |clist| && 0 <= k < |clist[i].children| && clist[i].children[k] == x;
        ListedIn(clist, |clist|, i, k);
      }
    }
    IncreasingCountsUp(full, nHeads, |clist|);
  }

  /** A block read from a range, after a prefix `before`, is the range continued from the prefix's end. */
  lemma BlockCountsUp(full: seq<nat>, lo: nat, before: seq<nat>, block: seq<nat>)
    requires CountsFrom(full, lo) && |before + block| <= |full| && full[..|before + block|] == before + block
    ensures CountsFrom(block, lo + |before|)
  {
    forall k | 0 <= k < |block| ensures block[k] == lo + |before| + k {
      assert block[k] == (before + block)[|before| + k] == full[|before| + k];
    }
  }

  /** So entry `i` lists exactly the next indices after those its predecessors list. */
  lemma Consecutive(nHeads: nat, clist: seq<Entry>, i: nat)
    requires nHeads <= |clist| && CountsFrom(ChildrenUpTo(clist, |clist|), nHeads) && i < |clist|
    ensures CountsFrom(clist[i].children, nHeads + |ChildrenUpTo(clist, i)|)
  {
    ChildrenUpToPrefix(clist, i + 1, |clist|);
    assert ChildrenUpTo(clist, i + 1) == ChildrenUpTo(clist, i) + clist[i].children;
    BlockCountsUp(ChildrenUpTo(clist, |clist|), nHeads, ChildrenUpTo(clist, i), clist[i].children);
  }

  /** Lists that agree on their first `n` entries agree on those entries' child lists. */
  lemma {:induction false} ChildrenUpToAgree(c1: seq<Entry>, c2: seq<Entry>, n: nat)
    requires n <= |c1| && n <= |c2| && c1[..n] == c2[..n]
    ensures ChildrenUpTo(c1, n) == ChildrenUpTo(c2, n)
  {
    if n > 0 {
      assert c1[..n - 1] == c1[..n][..n - 1] && c2[..n - 1] == c2[..n][..n - 1];
      assert c1[n - 1] == c1[..n][n - 1] && c2[n - 1] == c2[..n][n - 1];
      ChildrenUpToAgree(c1, c2, n - 1);
    }
  }

  /** Everything `get_type_adjacency_list` guarantees about its list and the levels of its entries. */
  ghost predicate BreadthFirst(schema: SchemaMap, d: nat, heads: seq<Label>, clist: seq<Entry>, levels: seq<nat>) {
    && |clist| >= |heads| && |levels| == |clist|
    && (forall jj :: 0 <= jj < |heads| ==> clist[jj].nodeType == heads[jj] && levels[jj] == 0)
    && ForwardOnly(clist) && AllDone(schema, d, clist, levels)
    && IsForest(|heads|, clist) && ChildrenIncreasing(clist) && BlocksInOrder(clist)
  }

  /** Entry `m` of a breadth-first list: a head, or child `k` of an earlier entry `p`. */
  lemma EntryOrigin(schema: SchemaMap, d: nat, heads: seq<Label>, clist: seq<Entry>, levels: seq<nat>, m: nat)
    returns (p: nat, k: nat)
    requires BreadthFirst(schema, d, heads, clist, levels) && |heads| <= m < |clist|
    ensures p < m && k < |clist[p].children| && clist[p].children[k] == m
  {
    assert m in Listed(clist);
    p, k :| 0 <= p < |clist| && 0 <= k < |clist[p].children| && clist[p].children[k] == m;
  }

  /** Two breadth-first lists that agree on their first `m` entries agree on the type and level of entry `m`. */
  lemma NextTypeAgrees(schema: SchemaMap, d: nat, heads: seq<Label>, c1: seq<Entry>, l1: seq<nat>,
                       c2: seq<Entry>, l2: seq<nat>, m: nat)
    requires BreadthFirst(schema, d, heads, c1, l1) && BreadthFirst(schema, d, heads, c2, l2)
    requires m < |c1| && m <= |c2| && c1[..m] == c2[..m] && l1[..m] == l2[..m]
    ensures m < |c2| && c1[m].nodeType == c2[m].nodeType && l1[m] == l2[m]
  {
    if m >= |heads| {
      var p, k := EntryOrigin(schema, d, heads, c1, l1, m);
      assert c1[p] == c1[..m][p] == c2[p] && l1[p] == l1[..m][p] == l2[p];
      assert Done(schema, d, c1, l1, p) && Done(schema, d, c2, l2, p);
    }
  }

  /**
   * Entries with as many children, after agreeing predecessors, list the same
   * children: each list continues where its predecessors' lists stop.
   */
  lemma NextChildrenAgree(nHeads: nat, c1: seq<Entry>, c2: seq<Entry>, m: nat)
    requires nHeads <= |c1| && CountsFrom(ChildrenUpTo(c1, |c1|), nHeads)
    requires nHeads <= |c2| && CountsFrom(ChildrenUpTo(c2, |c2|), nHeads)
    requires m < |c1| && m < |c2| && c1[..m] == c2[..m] && |c1[m].children| == |c2[m].children|
    ensures c1[m].children == c2[m].children
  {
    Consecutive(nHeads, c1, m);
    Consecutive(nHeads, c2, m);
    ChildrenUpToAgree(c1, c2, m);
    SameCount(nHeads + |ChildrenUpTo(c1, m)|, nHeads + |ChildrenUpTo(c2, m)|, c1[m].children, c2[m].children);
  }

  lemma SameCount(lo1: nat, lo2: nat, a: seq<nat>, b: seq<nat>)
    requires lo1 == lo2 && |a| == |b| && CountsFrom(a, lo1) && CountsFrom(b, lo2)
    ensures a == b
  {
    assert forall j :: 0 <= j < |a| ==> a[j] == b[j];
  }

  lemma {:induction false} PrefixesAgree(schema: SchemaMap, d: nat, heads: seq<Label>, c1: seq<Entry>, l1: seq<nat>,
                                         c2: seq<Entry>, l2: seq<nat>, n: nat)
    requires BreadthFirst(schema, d, heads, c1, l1) && BreadthFirst(schema, d, heads, c2, l2) && n <= |c1|
    requires CountsFrom(ChildrenUpTo(c1, |c1|), |heads|) && CountsFrom(ChildrenUpTo(c2, |c2|), |heads|)
    ensures n <= |c2| && c1[..n] == c2[..n] && l1[..n] == l2[..n]
  {
    if n > 0 {
      var m := n - 1;
      PrefixesAgree(schema, d, heads, c1, l1, c2, l2, m);
      NextTypeAgrees(schema, d, heads, c1, l1, c2, l2, m);
      assert Done(schema, d, c1, l1, m) && Done(schema, d, c2, l2, m);
      NextChildrenAgree(|heads|, c1, c2, m);
      assert c1[m] == c2[m];
      assert c1[..n] == c1[..m] + [c1[m]] && c2[..n] == c2[..m] + [c2[m]];
      assert l1[..n] == l1[..m] + [l1[m]] && l2[..n] == l2[..m] + [l2[m]];
    }
  }

  /**
   * The guarantees of `get_type_adjacency_list` pin its result down: two lists
   * (with their levels) that both meet them are equal.
   */
  lemma LayoutUnique(schema: SchemaMap, d: nat, heads: seq<Label>, c1: seq<Entry>, l1: seq<nat>,
                     c2: seq<Entry>, l2: seq<nat>)
    requires BreadthFirst(schema, d, heads, c1, l1) && BreadthFirst(schema, d, heads, c2, l2)
    ensures c1 == c2 && l1 == l2
  {
    AllChildrenInOrder(|heads|, c1);
    AllChildrenInOrder(|heads|, c2);
    PrefixesAgree(schema, d, heads, c1, l1, c2, l2, |c1|);
    PrefixesAgree(schema, d, heads, c2, l2, c1, l1, |c2|);
    assert c1 == c1[..|c1|] && c2 == c2[..|c2|] && l1 == l1[..|l1|] && l2 == l2[..|l2|];
  }
}
