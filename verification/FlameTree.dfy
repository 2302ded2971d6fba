/** The prefix-merged flame tree: stacks with weights, merged frame by frame, and the rectangles drawn for it. */
module FlameTree {
  import opened Wrappers
  import opened Stacks

  datatype FlameNode = FlameNode(value: nat, children: map<string, FlameNode>)

  const EMPTY_NODE := FlameNode(0, map[])

  /** One entry of the folded counter. */
  datatype Weighted = Weighted(stack: string, weight: nat)

  // ----- building

  /** Adds a weight along a path, making nodes as needed. */
  function Insert(node: FlameNode, frames: seq<string>, weight: nat): FlameNode
    decreases |frames|
  {
    if frames == [] then FlameNode(node.value + weight, node.children)
    else FlameNode(node.value + weight,
                   node.children[frames[0] := Insert(ChildOr(node, frames[0]), frames[1..], weight)])
  }

  function ChildOr(node: FlameNode, frame: string): FlameNode {
    if frame in node.children then node.children[frame] else EMPTY_NODE
  }

  function Build(stacks: seq<Weighted>): FlameNode {
    if stacks == [] then EMPTY_NODE
    else
      var tree, last := Build(stacks[..|stacks| - 1]), stacks[|stacks| - 1];
      if last.weight == 0 then tree else Insert(tree, Frames(last.stack), last.weight)
  }

  // ----- nodes by path

  function NodeAt(node: FlameNode, path: seq<string>): Option<FlameNode>
    decreases |path|
  {
    if path == [] then Some(node)
    else if path[0] in node.children then NodeAt(node.children[path[0]], path[1..])
    else None
  }

  function ValueAt(node: FlameNode, path: seq<string>): nat {
    match NodeAt(node, path) case Some(n) => n.value case None => 0
  }

  ghost function ChildSum(children: map<string, FlameNode>): nat {
    if children == map[] then 0
    else
      var k :| k in children;
      children[k].value + ChildSum(children - {k})
  }

  /** What a node has beyond its children. */
  ghost function OwnAt(node: FlameNode, path: seq<string>): int {
    match NodeAt(node, path) case Some(n) => n.value - ChildSum(n.children) case None => 0
  }

  // ----- the independent reading: sums over all stacks

  /** The weight of the stacks that have `path` as a prefix. */
  function PrefixWeight(stacks: seq<Weighted>, path: seq<string>): nat {
    if stacks == [] then 0
    else PrefixWeight(stacks[..|stacks| - 1], path)
         + if path <= Frames(stacks[|stacks| - 1].stack) then stacks[|stacks| - 1].weight else 0
  }

  /** The weight of the stacks whose frames are exactly `path`. */
  function EndWeight(stacks: seq<Weighted>, path: seq<string>): nat {
    if stacks == [] then 0
    else EndWeight(stacks[..|stacks| - 1], path)
         + if path == Frames(stacks[|stacks| - 1].stack) then stacks[|stacks| - 1].weight else 0
  }

  ghost predicate HasPositivePrefix(stacks: seq<Weighted>, path: seq<string>) {
    exists w :: w in stacks && w.weight > 0 && path <= Frames(w.stack)
  }

  // ----- values are prefix sums

  lemma PrefixStep(path: seq<string>, frames: seq<string>)
    requires path != []
    ensures path <= frames <==> frames != [] && path[0] == frames[0] && path[1..] <= frames[1..]
    ensures path == frames <==> frames != [] && path[0] == frames[0] && path[1..] == frames[1..]
  {
    if frames != [] && path[0] == frames[0] && path[1..] <= frames[1..] {
      assert path == [path[0]] + path[1..] && frames == [frames[0]] + frames[1..];
      forall i | 0 <= i < |path| ensures path[i] == frames[i] {
        assert i > 0 ==> path[i] == path[1..][i - 1] == frames[1..][i - 1];
      }
    }
    if frames != [] && path[0] == frames[0] && path[1..] == frames[1..] {
      assert path == [path[0]] + path[1..] && frames == [frames[0]] + frames[1..];
    }
  }

  lemma {:induction false} InsertValue(node: FlameNode, frames: seq<string>, weight: nat, path: seq<string>)
    ensures ValueAt(Insert(node, frames, weight), path) ==
      ValueAt(node, path) + if path <= frames then weight else 0
    decreases |path|
  {
    if path != [] {
      PrefixStep(path, frames);
      if frames != [] && path[0] == frames[0] {
        InsertValue(ChildOr(node, path[0]), frames[1..], weight, path[1..]);
        if path[0] !in node.children {
          assert ValueAt(EMPTY_NODE, path[1..]) == 0;
        }
      }
    }
  }

  /** Every node's value is the sum of the weights of all stacks that have its path as a prefix. */
  lemma {:induction false} ValueIsPrefixWeight(stacks: seq<Weighted>, path: seq<string>)
    ensures ValueAt(Build(stacks), path) == PrefixWeight(stacks, path)
  {
    if stacks == [] {
      assert NodeAt(EMPTY_NODE, path) == if path == [] then Some(EMPTY_NODE) else None;
    } else {
      var last := stacks[|stacks| - 1];
      ValueIsPrefixWeight(stacks[..|stacks| - 1], path);
      InsertValue(Build(stacks[..|stacks| - 1]), Frames(last.stack), last.weight, path);
    }
  }

  // ----- nodes exist exactly where a stack passes

  lemma {:induction false} InsertNodes(node: FlameNode, frames: seq<string>, weight: nat, path: seq<string>)
    ensures NodeAt(Insert(node, frames, weight), path).Some? <==> NodeAt(node, path).Some? || path <= frames
    decreases |path|
  {
    if path != [] {
      PrefixStep(path, frames);
      if frames != [] && path[0] == frames[0] {
        InsertNodes(ChildOr(node, path[0]), frames[1..], weight, path[1..]);
        if path[0] !in node.children && path[1..] == [] {
          assert path[1..] <= frames[1..];
        }
      }
    }
  }

  lemma {:induction false} NodesArePrefixes(stacks: seq<Weighted>, path: seq<string>)
    ensures NodeAt(Build(stacks), path).Some? <==> path == [] || HasPositivePrefix(stacks, path)
  {
    if stacks != [] {
      var init, last := stacks[..|stacks| - 1], stacks[|stacks| - 1];
      NodesArePrefixes(init, path);
      assert stacks == init + [last];
      assert HasPositivePrefix(stacks, path) <==>
        HasPositivePrefix(init, path) || (last.weight > 0 && path <= Frames(last.stack)) by {
        assert last in stacks && forall w :: w in init ==> w in stacks;
      }
      if last.weight > 0 {
        InsertNodes(Build(init), Frames(last.stack), last.weight, path);
      }
    }
  }

  // ----- a node is its children plus the stacks that end there

  lemma {:induction false} ChildSumRemove(m: map<string, FlameNode>, k: string)
    requires k in m
    ensures ChildSum(m) == m[k].value + ChildSum(m - {k})
    decreases |m|
  {
    var c :| c in m && ChildSum(m) == m[c].value + ChildSum(m - {c});
    if c != k {
      ChildSumRemove(m - {c}, k);
      ChildSumRemove(m - {k}, c);
      assert m - {c} - {k} == m - {k} - {c};
    }
  }

  lemma ChildSumWrite(m: map<string, FlameNode>, k: string, child: FlameNode)
    ensures ChildSum(m[k := child]) == ChildSum(m) + child.value - if k in m then m[k].value else 0
  {
    ChildSumRemove(m[k := child], k);
    if k in m {
      ChildSumRemove(m, k);
      assert m[k := child] - {k} == m - {k};
    } else {
      assert m[k := child] - {k} == m;
    }
  }

  lemma InsertRoot(node: FlameNode, frames: seq<string>, weight: nat)
    ensures var r := Insert(node, frames, weight);
      && r.value == node.value + weight
      && ChildSum(r.children) == ChildSum(node.children) + if frames == [] then 0 else weight
  {
    if frames != [] {
      var child := Insert(ChildOr(node, frames[0]), frames[1..], weight);
      ChildSumWrite(node.children, frames[0], child);
    }
  }

  lemma {:induction false} InsertOwn(node: FlameNode, frames: seq<string>, weight: nat, path: seq<string>)
    ensures OwnAt(Insert(node, frames, weight), path) == OwnAt(node, path) + if path == frames then weight else 0
    decreases |path|
  {
    if path == [] {
      InsertRoot(node, frames, weight);
    } else {
      PrefixStep(path, frames);
      if frames != [] && path[0] == frames[0] {
        InsertOwn(ChildOr(node, path[0]), frames[1..], weight, path[1..]);
        if path[0] !in node.children {
          assert OwnAt(EMPTY_NODE, path[1..]) == 0;
        }
      }
    }
  }

  /** A node's value is its children's values together plus the weight of the stacks that end at it. */
  lemma ValueIsChildrenPlusEnds(stacks: seq<Weighted>, path: seq<string>)
    ensures match NodeAt(Build(stacks), path)
      case Some(n) => n.value == ChildSum(n.children) + EndWeight(stacks, path)
      case None => EndWeight(stacks, path) == 0
  {
    OwnIsEndWeight(stacks, path);
  }

  lemma {:induction false} OwnIsEndWeight(stacks: seq<Weighted>, path: seq<string>)
    ensures OwnAt(Build(stacks), path) == EndWeight(stacks, path)
  {
    if stacks == [] {
      assert NodeAt(EMPTY_NODE, path) == if path == [] then Some(EMPTY_NODE) else None;
    } else {
      var last := stacks[|stacks| - 1];
      OwnIsEndWeight(stacks[..|stacks| - 1], path);
      InsertOwn(Build(stacks[..|stacks| - 1]), Frames(last.stack), last.weight, path);
    }
  }

  // ----- depth

  ghost function FlameDepth(node: FlameNode): nat {
    MaxOf(map k | k in node.children :: 1 + FlameDepth(node.children[k]))
  }

  /** The largest value of a map; 0 for an empty one. */
  ghost function MaxOf(m: map<string, nat>): nat {
    if m == map[] then 0
    else
      var k :| k in m;
      var rest := MaxOf(m - {k});
      if m[k] >= rest then m[k] else rest
  }

  lemma {:induction false} MaxOfBounds(m: map<string, nat>)
    ensures forall k :: k in m ==> m[k] <= MaxOf(m)
    ensures m != map[] ==> exists k :: k in m && m[k] == MaxOf(m)
    decreases |m|
  {
    if m != map[] {
      var k :| k in m && MaxOf(m) == if m[k] >= MaxOf(m - {k}) then m[k] else MaxOf(m - {k});
      var rest := m - {k};
      MaxOfBounds(rest);
      forall x | x in m ensures m[x] <= MaxOf(m) {
        assert x == k || (x in rest && rest[x] == m[x]);
      }
      if m[k] < MaxOf(rest) {
        var x :| x in rest && rest[x] == MaxOf(rest);
        assert x in m && m[x] == MaxOf(m);
      } else {
        assert m[k] == MaxOf(m);
      }
    }
  }

  lemma {:induction false} DepthBounds(node: FlameNode, path: seq<string>)
    requires NodeAt(node, path).Some?
    ensures |path| <= FlameDepth(node)
    decreases |path|
  {
    if path != [] {
      var depths := map k | k in node.children :: 1 + FlameDepth(node.children[k]);
      MaxOfBounds(depths);
      assert depths[path[0]] <= MaxOf(depths);
      DepthBounds(node.children[path[0]], path[1..]);
    }
  }

  lemma {:induction false} DepthReached(node: FlameNode) returns (path: seq<string>)
    ensures NodeAt(node, path).Some? && |path| == FlameDepth(node)
    decreases node
  {
    path := [];
    var depths := map k | k in node.children :: 1 + FlameDepth(node.children[k]);
    MaxOfBounds(depths);
    if depths != map[] {
      var k :| k in depths && depths[k] == MaxOf(depths);
      var rest := DepthReached(node.children[k]);
      path := [k] + rest;
      assert path[1..] == rest;
    }
  }

  /** The depth of the tree is the number of frames of its longest stack of positive weight. */
  lemma DepthIsLongestStack(stacks: seq<Weighted>)
    ensures forall w :: w in stacks && w.weight > 0 ==> |Frames(w.stack)| <= FlameDepth(Build(stacks))
    ensures FlameDepth(Build(stacks)) > 0 ==>
      exists w :: w in stacks && w.weight > 0 && |Frames(w.stack)| == FlameDepth(Build(stacks))
  {
    var tree := Build(stacks);
    forall w | w in stacks && w.weight > 0 ensures |Frames(w.stack)| <= FlameDepth(tree) {
      NodesArePrefixes(stacks, Frames(w.stack));
      DepthBounds(tree, Frames(w.stack));
    }
    var path := DepthReached(tree);
    if path != [] {
      NodesArePrefixes(stacks, path);
      var w :| w in stacks && w.weight > 0 && path <= Frames(w.stack);
      NodesArePrefixes(stacks, Frames(w.stack));
      DepthBounds(tree, Frames(w.stack));
    }
  }

  // ----- rectangles

  /** An order of drawing: for every node, its children's names, each once. The renderer draws the heaviest first;
      everything below holds for any order. */
  ghost predicate IsOrder(order: FlameNode -> seq<string>) {
    forall n: FlameNode :: Enumerates(order(n), n.children)
  }

  ghost predicate Distinct(names: seq<string>) {
    forall i, j :: 0 <= i < j < |names| ==> names[i] != names[j]
  }

  ghost predicate Enumerates(names: seq<string>, children: map<string, FlameNode>) {
    Distinct(names) && forall f :: f in names <==> f in children
  }

  datatype Rect = Rect(x: real, width: real)

  /** `a` parts of `total`, of a given width. */
  function Share(width: real, a: nat, total: nat): real {
    if total == 0 then 0.0 else width * a as real / total as real
  }

  /** Where the cursor stands after drawing the first `n` children. */
  function Cursor(node: FlameNode, names: seq<string>, x: real, width: real, n: nat): real
    requires n <= |names| && forall f :: f in names ==> f in node.children
  {
    if n == 0 then x
    else Cursor(node, names, x, width, n - 1) + Share(width, node.children[names[n - 1]].value, node.value)
  }

  /** The rectangle of the `n`-th child. */
  function ChildRect(node: FlameNode, names: seq<string>, x: real, width: real, n: nat): Rect
    requires n < |names| && forall f :: f in names ==> f in node.children
  {
    Rect(Cursor(node, names, x, width, n), Share(width, node.children[names[n]].value, node.value))
  }

  /** The values of the first `n` named children. */
  function ValuesOf(node: FlameNode, names: seq<string>, n: nat): nat
    requires n <= |names| && forall f :: f in names ==> f in node.children
  {
    if n == 0 then 0 else ValuesOf(node, names, n - 1) + node.children[names[n - 1]].value
  }

  lemma ShareAdd(width: real, a: nat, b: nat, total: nat)
    ensures Share(width, a + b, total) == Share(width, a, total) + Share(width, b, total)
  {
    if total > 0 {
      var t := total as real;
      assert (a + b) as real == a as real + b as real;
      assert width * (a as real + b as real) == width * a as real + width * b as real;
    }
  }

  lemma ShareBounds(width: real, a: nat, total: nat)
    requires width >= 0.0
    ensures Share(width, a, total) >= 0.0
    ensures a <= total ==> Share(width, a, total) <= width
  {
    if total > 0 {
      assert width * a as real >= 0.0;
      if a <= total {
        assert width * a as real <= width * total as real;
        assert width * total as real / total as real == width;
      }
    }
  }

  lemma ShareWhole(width: real, total: nat)
    requires total > 0
    ensures Share(width, total, total) == width && Share(width, 0, total) == 0.0
  {
    assert width * total as real / total as real == width;
  }

  /** A share of a share. */
  lemma ShareOfShare(width: real, a: nat, b: nat, total: nat)
    requires b > 0 && total > 0
    ensures Share(Share(width, b, total), a, b) == Share(width, a, total)
  {
    var w, x, y, t := width, a as real, b as real, total as real;
    assert w * y / t * x == w * x / t * y;
    assert w * x / t * y / y == w * x / t;
  }

  lemma {:induction false} CursorIsProportional(node: FlameNode, names: seq<string>, x: real, width: real, n: nat)
    requires n <= |names| && node.value > 0 && forall f :: f in names ==> f in node.children
    ensures Cursor(node, names, x, width, n) == x + Share(width, ValuesOf(node, names, n), node.value)
  {
    if n == 0 {
      ShareWhole(width, node.value);
    } else {
      CursorIsProportional(node, names, x, width, n - 1);
      ShareAdd(width, ValuesOf(node, names, n - 1), node.children[names[n - 1]].value, node.value);
    }
  }

  lemma {:induction false} CursorMonotone(node: FlameNode, names: seq<string>, x: real, width: real, m: nat, n: nat)
    requires m <= n <= |names| && width >= 0.0 && forall f :: f in names ==> f in node.children
    ensures Cursor(node, names, x, width, m) <= Cursor(node, names, x, width, n)
    decreases n
  {
    if m < n {
      CursorMonotone(node, names, x, width, m, n - 1);
      ShareBounds(width, node.children[names[n - 1]].value, node.value);
    }
  }

  /** The children with the given names. */
  ghost function Named(node: FlameNode, names: seq<string>): map<string, FlameNode>
    requires forall f :: f in names ==> f in node.children
  {
    map f | f in names :: node.children[f]
  }

  ghost function NamedSum(node: FlameNode, names: seq<string>): nat
    requires forall f :: f in names ==> f in node.children
  {
    ChildSum(Named(node, names))
  }

  lemma NamedNext(node: FlameNode, names: seq<string>, f: string)
    requires f in node.children && f !in names && forall g :: g in names ==> g in node.children
    ensures NamedSum(node, names + [f]) == NamedSum(node, names) + node.children[f].value
  {
    var m := Named(node, names + [f]);
    assert f in m && m[f] == node.children[f];
    assert m - {f} == Named(node, names);
    ChildSumRemove(m, f);
  }

  lemma TakeOfDistinct(names: seq<string>, n: nat)
    requires n < |names| && Distinct(names)
    ensures names[..n + 1] == names[..n] + [names[n]] && names[n] !in names[..n]
  {
  }

  lemma NamedNone(node: FlameNode)
    ensures NamedSum(node, []) == 0
  {
    assert Named(node, []) == map[];
  }

  lemma NamedTake(node: FlameNode, names: seq<string>, n: nat)
    requires n < |names| && forall f :: f in names ==> f in node.children
    requires Distinct(names)
    ensures NamedSum(node, names[..n + 1]) == NamedSum(node, names[..n]) + node.children[names[n]].value
  {
    TakeOfDistinct(names, n);
    NamedNext(node, names[..n], names[n]);
  }

  lemma {:induction false} ValuesAreChildSum(node: FlameNode, names: seq<string>, n: nat)
    requires n <= |names| && forall f :: f in names ==> f in node.children
    requires Distinct(names)
    ensures ValuesOf(node, names, n) == NamedSum(node, names[..n])
  {
    if n == 0 {
      assert names[..0] == [];
      NamedNone(node);
    } else {
      ValuesAreChildSum(node, names, n - 1);
      NamedTake(node, names, n - 1);
    }
  }

  /** All children together are no wider than their parent. */
  lemma CursorStaysInside(node: FlameNode, names: seq<string>, x: real, width: real)
    requires Enumerates(names, node.children) && width >= 0.0 && node.value > 0
    requires ChildSum(node.children) <= node.value
    ensures Cursor(node, names, x, width, |names|) <= x + width
  {
    CursorIsProportional(node, names, x, width, |names|);
    assert names[..|names|] == names;
    ValuesAreChildSum(node, names, |names|);
    assert Named(node, names) == node.children;
    ShareBounds(width, ValuesOf(node, names, |names|), node.value);
  }

  lemma CursorOrder(node: FlameNode, names: seq<string>, x: real, width: real, i: nat, j: nat)
    requires Enumerates(names, node.children) && width >= 0.0 && node.value > 0
    requires ChildSum(node.children) <= node.value
    requires i <= j <= |names|
    ensures x <= Cursor(node, names, x, width, i) <= Cursor(node, names, x, width, j) <= x + width
  {
    CursorMonotone(node, names, x, width, 0, i);
    CursorMonotone(node, names, x, width, i, j);
    CursorMonotone(node, names, x, width, j, |names|);
    CursorStaysInside(node, names, x, width);
  }

  /** Siblings are drawn side by side, in order and without overlap, inside their parent. */
  lemma ChildrenTileParent(node: FlameNode, names: seq<string>, x: real, width: real, i: nat, j: nat)
    requires Enumerates(names, node.children) && width >= 0.0 && node.value > 0
    requires ChildSum(node.children) <= node.value
    requires i < |names| && j < |names|
    ensures var a, b := ChildRect(node, names, x, width, i), ChildRect(node, names, x, width, j);
      && x <= a.x && 0.0 <= a.width && a.x + a.width <= x + width
      && (i < j ==> a.x + a.width <= b.x)
  {
    CursorOrder(node, names, x, width, i, i + 1);
    if i < j {
      CursorOrder(node, names, x, width, i + 1, j);
    }
  }

  /** The rectangle of the node at `path` under a node drawn as `r`. */
  ghost function RectAt(node: FlameNode, order: FlameNode -> seq<string>, r: Rect, path: seq<string>): Rect
    requires IsOrder(order) && NodeAt(node, path).Some?
    decreases |path|
  {
    if path == [] then r
    else
      var names := order(node);
      assert Enumerates(names, node.children);
      var i :| 0 <= i < |names| && names[i] == path[0];
      RectAt(node.children[path[0]], order, ChildRect(node, names, r.x, r.width, i), path[1..])
  }

  ghost predicate Sound(node: FlameNode) {
    forall path :: NodeAt(node, path).Some? ==>
      var n := NodeAt(node, path).value;
      n.value >= ChildSum(n.children) && (path != [] ==> n.value > 0)
  }

  lemma SoundChild(node: FlameNode, k: string)
    requires Sound(node) && k in node.children
    ensures Sound(node.children[k]) && node.children[k].value > 0 && 0 < node.children[k].value <= node.value
  {
    forall path | NodeAt(node.children[k], path).Some?
      ensures var n := NodeAt(node.children[k], path).value; n.value >= ChildSum(n.children) && n.value > 0
    {
      assert ([k] + path)[1..] == path;
      assert NodeAt(node, [k] + path) == NodeAt(node.children[k], path);
    }
    assert NodeAt(node, []) == Some(node) && NodeAt(node.children[k], []) == Some(node.children[k]);
    ChildSumRemove(node.children, k);
  }

  /** A built tree is sound: no node is lighter than its children, and no node but an empty root is weightless. */
  lemma BuildIsSound(stacks: seq<Weighted>)
    ensures Sound(Build(stacks))
  {
    forall path | NodeAt(Build(stacks), path).Some?
      ensures var n := NodeAt(Build(stacks), path).value; n.value >= ChildSum(n.children) && (path != [] ==> n.value > 0)
    {
      ValueIsChildrenPlusEnds(stacks, path);
      ValueIsPrefixWeight(stacks, path);
      NodesArePrefixes(stacks, path);
      if HasPositivePrefix(stacks, path) {
        var w :| w in stacks && w.weight > 0 && path <= Frames(w.stack);
        PrefixWeightAtLeast(stacks, path, w);
      }
    }
  }

  lemma {:induction false} PrefixWeightAtLeast(stacks: seq<Weighted>, path: seq<string>, w: Weighted)
    requires w in stacks && path <= Frames(w.stack)
    ensures PrefixWeight(stacks, path) >= w.weight
  {
    var init, last := stacks[..|stacks| - 1], stacks[|stacks| - 1];
    assert stacks == init + [last];
    if w != last {
      PrefixWeightAtLeast(init, path, w);
    }
  }

  /** One step down the path: the child's rectangle and its place among its siblings. */
  lemma RectStep(node: FlameNode, order: FlameNode -> seq<string>, r: Rect, path: seq<string>) returns (i: nat)
    requires IsOrder(order) && NodeAt(node, path).Some? && path != []
    ensures Enumerates(order(node), node.children) && i < |order(node)| && order(node)[i] == path[0]
    ensures RectAt(node, order, r, path) ==
      RectAt(node.children[path[0]], order, ChildRect(node, order(node), r.x, r.width, i), path[1..])
  {
    var names := order(node);
    assert Enumerates(names, node.children);
    i :| 0 <= i < |names| && names[i] == path[0] &&
      RectAt(node, order, r, path) ==
        RectAt(node.children[path[0]], order, ChildRect(node, names, r.x, r.width, i), path[1..]);
  }

  /** Every rectangle lies inside its ancestors'. */
  lemma {:induction false} RectsNest(node: FlameNode, order: FlameNode -> seq<string>, r: Rect, path: seq<string>)
    requires IsOrder(order) && Sound(node) && node.value > 0 && r.width >= 0.0 && NodeAt(node, path).Some?
    ensures var q := RectAt(node, order, r, path); r.x <= q.x && q.x + q.width <= r.x + r.width
    decreases |path|
  {
    if path != [] {
      var i := RectStep(node, order, r, path);
      assert NodeAt(node, []) == Some(node);
      ChildrenTileParent(node, order(node), r.x, r.width, i, i);
      SoundChild(node, path[0]);
      RectsNest(node.children[path[0]], order, ChildRect(node, order(node), r.x, r.width, i), path[1..]);
    }
  }

  /** Over the reals, every rectangle has its share of the width: the node's value over the value at the top. */
  lemma {:induction false} WidthIsShare(node: FlameNode, order: FlameNode -> seq<string>, r: Rect, path: seq<string>)
    requires IsOrder(order) && Sound(node) && node.value > 0 && NodeAt(node, path).Some?
    ensures RectAt(node, order, r, path).width == Share(r.width, ValueAt(node, path), node.value)
    decreases |path|
  {
    if path == [] {
      ShareWhole(r.width, node.value);
    } else {
      var k := path[0];
      var i := RectStep(node, order, r, path);
      SoundChild(node, k);
      WidthIsShare(node.children[k], order, ChildRect(node, order(node), r.x, r.width, i), path[1..]);
      ShareOfShare(r.width, ValueAt(node.children[k], path[1..]), node.children[k].value, node.value);
    }
  }

  /** The whole picture: a node's rectangle shows the weight of the stacks through it as a share of the total. */
  lemma PictureShowsPrefixWeights(stacks: seq<Weighted>, order: FlameNode -> seq<string>, left: real, width: real, path: seq<string>)
    requires IsOrder(order) && width >= 0.0 && PrefixWeight(stacks, []) > 0 && NodeAt(Build(stacks), path).Some?
    ensures var q := RectAt(Build(stacks), order, Rect(left, width), path);
      && q.width == Share(width, PrefixWeight(stacks, path), PrefixWeight(stacks, []))
      && left <= q.x && q.x + q.width <= left + width
  {
    BuildIsSound(stacks);
    ValueIsPrefixWeight(stacks, []);
    ValueIsPrefixWeight(stacks, path);
    RectsNest(Build(stacks), order, Rect(left, width), path);
    WidthIsShare(Build(stacks), order, Rect(left, width), path);
  }

  ghost predicate Apart(a: Rect, b: Rect) {
    a.x + a.width <= b.x || b.x + b.width <= a.x
  }

  lemma SiblingsApart(node: FlameNode, order: FlameNode -> seq<string>, r: Rect, p: seq<string>, q: seq<string>)
    requires IsOrder(order) && Sound(node) && node.value > 0 && r.width >= 0.0
    requires p != [] && q != [] && p[0] != q[0] && NodeAt(node, p).Some? && NodeAt(node, q).Some?
    ensures Apart(RectAt(node, order, r, p), RectAt(node, order, r, q))
  {
    var names := order(node);
    var i := RectStep(node, order, r, p);
    var j := RectStep(node, order, r, q);
    assert NodeAt(node, []) == Some(node);
    SoundChild(node, p[0]);
    SoundChild(node, q[0]);
    ChildrenTileParent(node, names, r.x, r.width, i, j);
    ChildrenTileParent(node, names, r.x, r.width, j, i);
    RectsNest(node.children[p[0]], order, ChildRect(node, names, r.x, r.width, i), p[1..]);
    RectsNest(node.children[q[0]], order, ChildRect(node, names, r.x, r.width, j), q[1..]);
  }

  lemma {:induction false} UnrelatedApart(node: FlameNode, order: FlameNode -> seq<string>, r: Rect, p: seq<string>, q: seq<string>)
    requires IsOrder(order) && Sound(node) && node.value > 0 && r.width >= 0.0
    requires NodeAt(node, p).Some? && NodeAt(node, q).Some? && !(p <= q) && !(q <= p)
    ensures Apart(RectAt(node, order, r, p), RectAt(node, order, r, q))
    decreases |p|
  {
    if p[0] != q[0] {
      SiblingsApart(node, order, r, p, q);
    } else {
      var i := RectStep(node, order, r, p);
      var j := RectStep(node, order, r, q);
      assert i == j;
      PrefixStep(p, q);
      PrefixStep(q, p);
      assert NodeAt(node, []) == Some(node);
      ChildrenTileParent(node, order(node), r.x, r.width, i, i);
      SoundChild(node, p[0]);
      UnrelatedApart(node.children[p[0]], order, ChildRect(node, order(node), r.x, r.width, i), p[1..], q[1..]);
    }
  }

  /** In the picture of any stacks two rectangles share no width unless one node is an ancestor of the other. */
  lemma PictureNeverOverlaps(stacks: seq<Weighted>, order: FlameNode -> seq<string>, left: real, width: real,
                             p: seq<string>, q: seq<string>)
    requires IsOrder(order) && width >= 0.0 && NodeAt(Build(stacks), p).Some? && NodeAt(Build(stacks), q).Some?
    requires !(p <= q) && !(q <= p)
    ensures Apart(RectAt(Build(stacks), order, Rect(left, width), p), RectAt(Build(stacks), order, Rect(left, width), q))
  {
    BuildIsSound(stacks);
    SoundChild(Build(stacks), p[0]);
    UnrelatedApart(Build(stacks), order, Rect(left, width), p, q);
  }

  /** Two different nodes at one depth never overlap. */
  lemma SameDepthNeverOverlaps(stacks: seq<Weighted>, order: FlameNode -> seq<string>, left: real, width: real,
                               p: seq<string>, q: seq<string>)
    requires IsOrder(order) && width >= 0.0 && NodeAt(Build(stacks), p).Some? && NodeAt(Build(stacks), q).Some?
    requires |p| == |q| && p != q
    ensures Apart(RectAt(Build(stacks), order, Rect(left, width), p), RectAt(Build(stacks), order, Rect(left, width), q))
  {
    PictureNeverOverlaps(stacks, order, left, width, p, q);
  }

  // ----- the order drawn

  /** Heavier children are drawn first, as the renderer does; ties, which it breaks by name, may come in any order. */
  ghost predicate HeaviestFirst(names: seq<string>, children: map<string, FlameNode>)
    requires forall f :: f in names ==> f in children
  {
    forall i, j :: 0 <= i < j < |names| ==> children[names[i]].value >= children[names[j]].value
  }

  ghost predicate Heaviest(children: map<string, FlameNode>, k: string) {
    k in children && forall f :: f in children ==> children[f].value <= children[k].value
  }

  lemma {:induction false} HeaviestExists(children: map<string, FlameNode>)
    requires children != map[]
    ensures exists k :: Heaviest(children, k)
    decreases |children|
  {
    var k :| k in children;
    var rest := children - {k};
    if rest == map[] {
      assert forall f :: f in children ==> f == k || f in rest;
      assert Heaviest(children, k);
    } else {
      HeaviestExists(rest);
      var f :| Heaviest(rest, f);
      assert forall g :: g in children ==> g == k || g in rest;
      assert Heaviest(children, if children[f].value >= children[k].value then f else k);
    }
  }

  ghost function HeaviestNames(children: map<string, FlameNode>): seq<string> {
    if children == map[] then []
    else
      HeaviestExists(children);
      var k :| Heaviest(children, k);
      [k] + HeaviestNames(children - {k})
  }

  lemma {:induction false} HeaviestNamesEnumerate(children: map<string, FlameNode>)
    ensures Enumerates(HeaviestNames(children), children)
    ensures HeaviestFirst(HeaviestNames(children), children)
    decreases |children|
  {
    if children != map[] {
      HeaviestExists(children);
      var k :| Heaviest(children, k) && HeaviestNames(children) == [k] + HeaviestNames(children - {k});
      HeaviestNamesEnumerate(children - {k});
      ConsEnumerates(k, HeaviestNames(children - {k}), children);
    }
  }

  lemma ConsEnumerates(k: string, names: seq<string>, children: map<string, FlameNode>)
    requires Heaviest(children, k) && Enumerates(names, children - {k}) && HeaviestFirst(names, children - {k})
    ensures Enumerates([k] + names, children) && HeaviestFirst([k] + names, children)
  {
    forall f ensures f in [k] + names <==> f in children {
      assert f in names <==> f in children - {k};
    }
  }

  /** There is an order of drawing for all nodes at once, and one that draws heavier children first. */
  lemma HeaviestFirstIsOrder() returns (order: FlameNode -> seq<string>)
    ensures IsOrder(order)
    ensures forall n: FlameNode :: HeaviestFirst(order(n), n.children)
  {
    order := (n: FlameNode) => HeaviestNames(n.children);
    forall n: FlameNode ensures Enumerates(order(n), n.children) && HeaviestFirst(order(n), n.children) {
      HeaviestNamesEnumerate(n.children);
    }
  }

  /** The drawing loop over one node's children: the rectangles in the order drawn. */
  method RenderChildren(node: FlameNode, names: seq<string>, x: real, width: real) returns (rects: seq<Rect>)
    requires Enumerates(names, node.children)
    ensures |rects| == |names|
    ensures forall i :: 0 <= i < |names| ==> rects[i] == ChildRect(node, names, x, width, i)
  {
    rects := [];
    var cursor, i := x, 0;
    while i < |names|
      invariant i <= |names| && |rects| == i && cursor == Cursor(node, names, x, width, i)
      invariant forall k :: 0 <= k < i ==> rects[k] == ChildRect(node, names, x, width, k)
    {
      var child := node.children[names[i]];
      var childWidth := if node.value == 0 then 0.0 else width * child.value as real / node.value as real;
      rects := rects + [Rect(cursor, childWidth)];
      cursor := cursor + childWidth;
      i := i + 1;
    }
  }
}
