/**
 * Strict total orders, strictly sorted sequences, the canonical sorted list of a
 * finite set (Python's `sorted` applied to a set) and the first-index search of
 * Python's `list.index`.
 */
module Ordering {
  import opened Wrappers

  ghost predicate Irreflexive<T(!new)>(lt: (T, T) -> bool) {
    forall a :: !lt(a, a)
  }

  ghost predicate Transitive<T(!new)>(lt: (T, T) -> bool) {
    forall a, b, c :: lt(a, b) && lt(b, c) ==> lt(a, c)
  }

  ghost predicate Trichotomous<T(!new)>(lt: (T, T) -> bool) {
    forall a, b :: a != b ==> lt(a, b) || lt(b, a)
  }

  ghost predicate StrictTotalOrder<T(!new)>(lt: (T, T) -> bool) {
    Irreflexive(lt) && Transitive(lt) && Trichotomous(lt)
  }

  /** Every earlier element is strictly below every later one (so no duplicates). */
  ghost predicate StrictlySorted<T>(s: seq<T>, lt: (T, T) -> bool) {
    forall i, j :: 0 <= i < j < |s| ==> lt(s[i], s[j])
  }

  /** Dropping the first element keeps a sequence sorted. */
  lemma SortedTail<T>(s: seq<T>, lt: (T, T) -> bool)
    requires s != []
    ensures StrictlySorted(s, lt) ==> StrictlySorted(s[1..], lt)
  {
    if StrictlySorted(s, lt) {
      forall i, j | 0 <= i < j < |s| - 1 ensures lt(s[1..][i], s[1..][j]) {
        assert s[1..][i] == s[i + 1] && s[1..][j] == s[j + 1];
      }
    }
  }

  /** A sorted sequence headed by an element below all of it is sorted. */
  lemma ConsSorted<T>(h: T, rest: seq<T>, lt: (T, T) -> bool)
    requires StrictlySorted(rest, lt) && forall x :: x in rest ==> lt(h, x)
    ensures StrictlySorted([h] + rest, lt)
  {
    var r := [h] + rest;
    forall i, j | 0 <= i < j < |r| ensures lt(r[i], r[j]) {
      if i == 0 {
        assert r[j] == rest[j - 1];
      } else {
        assert r[i] == rest[i - 1] && r[j] == rest[j - 1];
      }
    }
  }

  /** Keeping the head of a sorted sequence in front of a sorted selection from its tail stays sorted. */
  lemma SortedSubCons<T>(s: seq<T>, rest: seq<T>, lt: (T, T) -> bool)
    requires s != []
    requires StrictlySorted(s[1..], lt) ==> StrictlySorted(rest, lt)
    requires forall x :: x in rest ==> x in s[1..]
    ensures StrictlySorted(s, lt) ==> StrictlySorted([s[0]] + rest, lt)
  {
    if StrictlySorted(s, lt) {
      SortedTail(s, lt);
      forall x | x in rest ensures lt(s[0], x) {
        var j :| 0 <= j < |s[1..]| && s[1..][j] == x;
        assert s[j + 1] == x;
      }
      ConsSorted(s[0], rest, lt);
    }
  }

  function Elems<T>(s: seq<T>): set<T> {
    set x | x in s
  }

  lemma ElemsEmpty<T>(s: seq<T>)
    ensures Elems(s) == {} <==> s == []
  {
    if s != [] {
      assert s[0] in Elems(s);
    }
  }

  ghost predicate Distinct<T>(s: seq<T>) {
    forall i, j :: 0 <= i < j < |s| ==> s[i] != s[j]
  }

  lemma StrictlySortedIsDistinct<T(!new)>(s: seq<T>, lt: (T, T) -> bool)
    requires StrictTotalOrder(lt) && StrictlySorted(s, lt)
    ensures Distinct(s)
  {
    forall i, j | 0 <= i < j < |s| ensures s[i] != s[j] {
      assert lt(s[i], s[j]);
    }
  }

  predicate IsLeast<T(==)>(m: T, s: set<T>, lt: (T, T) -> bool) {
    m in s && forall x :: x in s && x != m ==> lt(m, x)
  }

  /** A finite non-empty set has a least element under a strict total order. */
  lemma {:induction false} LeastExists<T(!new)>(s: set<T>, lt: (T, T) -> bool)
    requires StrictTotalOrder(lt) && s != {}
    ensures exists m :: IsLeast(m, s, lt)
    decreases |s|
  {
    var x :| x in s;
    if s == {x} {
      assert IsLeast(x, s, lt);
    } else {
      var rest := s - {x};
      LeastExists(rest, lt);
      var m :| IsLeast(m, rest, lt);
      if lt(m, x) {
        assert IsLeast(m, s, lt);
      } else {
        assert IsLeast(x, s, lt);
      }
    }
  }

  /**
   * The elements of `s` in ascending order: the least element first, then the
   * rest sorted. This is what `sorted(...)` returns for a set of comparable values.
   */
  function SortedSet<T(==,!new)>(s: set<T>, lt: (T, T) -> bool): (r: seq<T>)
    requires StrictTotalOrder(lt)
    ensures StrictlySorted(r, lt) && Elems(r) == s && |r| == |s|
    decreases |s|
  {
    if s == {} then []
    else
      LeastExists(s, lt);
      var m :| IsLeast(m, s, lt);
      var rest := SortedSet(s - {m}, lt);
      LeastFirst(m, s, rest, lt);
      [m] + rest
  }

  /** Putting the least element in front of the sorted rest gives the sorted whole. */
  lemma LeastFirst<T(!new)>(m: T, s: set<T>, rest: seq<T>, lt: (T, T) -> bool)
    requires IsLeast(m, s, lt)
    requires StrictlySorted(rest, lt) && Elems(rest) == s - {m} && |rest| == |s - {m}|
    ensures StrictlySorted([m] + rest, lt) && Elems([m] + rest) == s && |[m] + rest| == |s|
  {
    LeastFirstSorted(m, s, rest, lt);
    ConsElems(m, rest);
  }

  lemma LeastFirstSorted<T(!new)>(m: T, s: set<T>, rest: seq<T>, lt: (T, T) -> bool)
    requires IsLeast(m, s, lt)
    requires StrictlySorted(rest, lt) && Elems(rest) == s - {m}
    ensures StrictlySorted([m] + rest, lt)
  {
    forall x | x in rest ensures lt(m, x) {
      assert x in Elems(rest);
    }
    ConsSorted(m, rest, lt);
  }

  lemma ConsElems<T>(m: T, rest: seq<T>)
    ensures Elems([m] + rest) == {m} + Elems(rest)
  {
    var r := [m] + rest;
    forall x | x in Elems(rest) ensures x in Elems(r) {
      var i :| 0 <= i < |rest| && rest[i] == x;
      assert r[i + 1] == x;
    }
    assert r[0] == m;
  }

  /** A strictly sorted sequence is determined by its set of elements. */
  lemma {:induction false} SortedUnique<T(!new)>(a: seq<T>, b: seq<T>, lt: (T, T) -> bool)
    requires StrictTotalOrder(lt)
    requires StrictlySorted(a, lt) && StrictlySorted(b, lt) && Elems(a) == Elems(b)
    ensures a == b
    decreases |a|
  {
    if a != [] {
      assert a[0] in Elems(b);
      assert b[0] in Elems(a);
      assert a[0] == b[0];
      StrictlySortedIsDistinct(a, lt);
      StrictlySortedIsDistinct(b, lt);
      assert Elems(a[1..]) == Elems(a) - {a[0]} by {
        forall x | x in Elems(a) - {a[0]} ensures x in Elems(a[1..]) {
          var i :| 0 <= i < |a| && a[i] == x;
          assert a[1..][i - 1] == x;
        }
      }
      assert Elems(b[1..]) == Elems(b) - {b[0]} by {
        forall x | x in Elems(b) - {b[0]} ensures x in Elems(b[1..]) {
          var i :| 0 <= i < |b| && b[i] == x;
          assert b[1..][i - 1] == x;
        }
      }
      SortedUnique(a[1..], b[1..], lt);
      assert a == [a[0]] + a[1..];
    } else {
      ElemsEmpty(b);
    }
  }

  /**
   * Python's `list.index`: the first position holding `x`, or None where the
   * source catches the ValueError.
   */
  function IndexOf<T(==)>(s: seq<T>, x: T): (r: Option<nat>)
    ensures r.Some? <==> x in s
    ensures r.Some? ==> r.value < |s| && s[r.value] == x
    ensures r.Some? ==> forall j :: 0 <= j < r.value ==> s[j] != x
  {
    if s == [] then None
    else if s[0] == x then Some(0)
    else match IndexOf(s[1..], x)
      case None => None
      case Some(i) => Some(i + 1)
  }

  /** In a duplicate-free list the position of `s[i]` is `i`. */
  lemma IndexOfDistinct<T>(s: seq<T>, i: nat)
    requires Distinct(s) && i < |s|
    ensures IndexOf(s, s[i]) == Some(i)
  {
  }
}
