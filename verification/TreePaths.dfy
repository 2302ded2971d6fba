/** Paths in a tree of processes, each step the place of a child among its siblings, in breadth-first order: shorter
    paths first, and those of one length by their first difference. */
module TreePaths {
  type Path = seq<nat>

  predicate Lesser(p: Path, q: Path)
    requires |p| == |q|
  {
    p != [] && (p[0] < q[0] || (p[0] == q[0] && Lesser(p[1..], q[1..])))
  }

  predicate Before(p: Path, q: Path) {
    |p| < |q| || (|p| == |q| && Lesser(p, q))
  }

  predicate AtMost(p: Path, q: Path) {
    p == q || Before(p, q)
  }

  lemma {:induction false} LesserOrders(p: Path, q: Path, r: Path)
    requires |p| == |q| == |r|
    ensures !Lesser(p, p)
    ensures Lesser(p, q) && Lesser(q, r) ==> Lesser(p, r)
    ensures Lesser(p, q) || Lesser(q, p) || p == q
  {
    if p != [] {
      LesserOrders(p[1..], q[1..], r[1..]);
      assert p == [p[0]] + p[1..] && q == [q[0]] + q[1..];
    }
  }

  lemma BeforeOrders(p: Path, q: Path, r: Path)
    ensures !Before(p, p)
    ensures Before(p, q) && Before(q, r) ==> Before(p, r)
    ensures AtMost(p, q) && AtMost(q, r) ==> AtMost(p, r)
    ensures AtMost(p, q) && Before(q, r) ==> Before(p, r)
    ensures Before(p, q) && AtMost(q, r) ==> Before(p, r)
  {
    LesserOrders(p, p, p);
    if |p| == |q| == |r| {
      LesserOrders(p, q, r);
    }
  }

  lemma {:induction false} LesserSnoc(p: Path, q: Path, j: nat, k: nat)
    requires |p| == |q|
    ensures Lesser(p, q) ==> Lesser(p + [j], q + [k])
    ensures p == q && j < k ==> Lesser(p + [j], q + [k])
  {
    if p != [] {
      LesserSnoc(p[1..], q[1..], j, k);
      assert (p + [j])[1..] == p[1..] + [j] && (q + [k])[1..] == q[1..] + [k];
    } else {
      assert [j][0] == j && [k][0] == k;
    }
  }

  /** Children stand in the order of their parents, and siblings in their own. */
  lemma ChildrenOrder(p: Path, q: Path, j: nat, k: nat)
    ensures Before(p, p + [j])
    ensures Before(p, q) ==> Before(p + [j], q + [k])
    ensures j < k ==> Before(p + [j], p + [k])
    ensures AtMost(p, q) ==> AtMost(p + [k], q + [k])
  {
    LesserSnoc(p, p, j, k);
    if |p| == |q| {
      LesserSnoc(p, q, j, k);
      LesserSnoc(p, q, k, k);
    }
  }
}
