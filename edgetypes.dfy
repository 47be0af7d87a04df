/**
 * Type labels and the `EdgeType(n1, rel, n2)` triple of stellar/data/stellargraph.py,
 * with the orders that `sorted` puts them in: labels compare as Python strings,
 * triples as Python tuples, field by field.
 */
module EdgeTypes {
  import opened Ordering

  /** A node-type or relation label. */
  type Label = string

  /** Python's `<` on str: lexicographic by code point, a proper prefix first. */
  predicate LabelLt(a: Label, b: Label)
    decreases |a|
  {
    if a == [] then b != []
    else if b == [] then false
    else if a[0] != b[0] then a[0] < b[0]
    else LabelLt(a[1..], b[1..])
  }

  lemma {:induction false} LabelLtIrreflexive(a: Label)
    ensures !LabelLt(a, a)
    decreases |a|
  {
    if a != [] {
      LabelLtIrreflexive(a[1..]);
    }
  }

  lemma {:induction false} LabelLtTransitive(a: Label, b: Label, c: Label)
    requires LabelLt(a, b) && LabelLt(b, c)
    ensures LabelLt(a, c)
    decreases |a|
  {
    if a != [] && b != [] && c != [] && a[0] == b[0] && b[0] == c[0] {
      LabelLtTransitive(a[1..], b[1..], c[1..]);
    }
  }

  lemma {:induction false} LabelLtTrichotomous(a: Label, b: Label)
    requires a != b
    ensures LabelLt(a, b) || LabelLt(b, a)
    decreases |a|
  {
    if a != [] && b != [] && a[0] == b[0] {
      assert a == [a[0]] + a[1..] && b == [b[0]] + b[1..];
      LabelLtTrichotomous(a[1..], b[1..]);
    }
  }

  /** The label order is a strict total order, so `sorted` on labels is well defined. */
  lemma LabelOrder()
    ensures StrictTotalOrder(LabelLt)
  {
    forall a: Label ensures !LabelLt(a, a) {
      LabelLtIrreflexive(a);
    }
    forall a: Label, b: Label, c: Label | LabelLt(a, b) && LabelLt(b, c) ensures LabelLt(a, c) {
      LabelLtTransitive(a, b, c);
    }
    forall a: Label, b: Label | a != b ensures LabelLt(a, b) || LabelLt(b, a) {
      LabelLtTrichotomous(a, b);
    }
  }

  /** A heterogeneous edge type: relation `rel` from a node of type `n1` to one of type `n2`. */
  datatype EdgeType = EdgeType(n1: Label, rel: Label, n2: Label)

  /** Tuple order on triples: by `n1`, then `rel`, then `n2`. */
  predicate EdgeTypeLt(x: EdgeType, y: EdgeType) {
    if x.n1 != y.n1 then LabelLt(x.n1, y.n1)
    else if x.rel != y.rel then LabelLt(x.rel, y.rel)
    else LabelLt(x.n2, y.n2)
  }

  lemma EdgeTypeLtTransitive(x: EdgeType, y: EdgeType, z: EdgeType)
    requires EdgeTypeLt(x, y) && EdgeTypeLt(y, z)
    ensures EdgeTypeLt(x, z)
  {
    if x.n1 != y.n1 && y.n1 != z.n1 {
      LabelLtTransitive(x.n1, y.n1, z.n1);
      if x.n1 == z.n1 {
        LabelLtIrreflexive(x.n1);
      }
    } else if x.n1 == y.n1 && y.n1 == z.n1 {
      if x.rel != y.rel && y.rel != z.rel {
        LabelLtTransitive(x.rel, y.rel, z.rel);
        if x.rel == z.rel {
          LabelLtIrreflexive(x.rel);
        }
      } else if x.rel == y.rel && y.rel == z.rel {
        LabelLtTransitive(x.n2, y.n2, z.n2);
      }
    }
  }

  /** The tuple order is a strict total order, so `sorted` on edge types is well defined. */
  lemma EdgeTypeOrder()
    ensures StrictTotalOrder(EdgeTypeLt)
  {
    forall x: EdgeType ensures !EdgeTypeLt(x, x) {
      LabelLtIrreflexive(x.n2);
    }
    forall x: EdgeType, y: EdgeType, z: EdgeType | EdgeTypeLt(x, y) && EdgeTypeLt(y, z) ensures EdgeTypeLt(x, z) {
      EdgeTypeLtTransitive(x, y, z);
    }
    forall x: EdgeType, y: EdgeType | x != y ensures EdgeTypeLt(x, y) || EdgeTypeLt(y, x) {
      if x.n1 != y.n1 {
        LabelLtTrichotomous(x.n1, y.n1);
      } else if x.rel != y.rel {
        LabelLtTrichotomous(x.rel, y.rel);
      } else {
        LabelLtTrichotomous(x.n2, y.n2);
      }
    }
  }
}
